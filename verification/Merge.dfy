/** What it means to merge the per-worker queues of the command log by command id. */
module Merge {
  import opened Seqs
  import opened Wire

  /** A record of a worker's buffer: the command id and the frame it precedes. */
  datatype Entry = Entry(id: u64, frame: Frame)

  /** A record together with the worker that fed it. */
  datatype Fed = Fed(tid: nat, entry: Entry)

  function Record(e: Entry): bytes {
    Le(e.id, 8) + e.frame
  }

  /** Contents of a worker's buffer. */
  function Encode(q: seq<Entry>): bytes {
    if q == [] then [] else Record(q[0]) + Encode(q[1..])
  }

  lemma {:induction false} EncodeAppend(q: seq<Entry>, e: Entry)
    ensures Encode(q + [e]) == Encode(q) + Record(e)
  {
    if q == [] {
      assert [e][1..] == [] && q + [e] == [e];
    } else {
      hide Record;
      assert Encode(q + [e]) == Record(q[0]) + (Encode(q[1..]) + Record(e)) by {
        EncodeAppend(q[1..], e);
        assert (q + [e])[0] == q[0] && (q + [e])[1..] == q[1..] + [e];
      }
      assert Encode(q) == Record(q[0]) + Encode(q[1..]);
      Assoc(Record(q[0]), Encode(q[1..]), Record(e));
    }
  }

  /** What worker `tid` contributed to a sequence of records, in its order. */
  function Project(s: seq<Fed>, tid: nat): seq<Entry>
    decreases |s|
  {
    if s == [] then []
    else (if s[0].tid == tid then [s[0].entry] else []) + Project(s[1..], tid)
  }

  function Frames(s: seq<Fed>): (fs: seq<Frame>)
    ensures |fs| == |s|
  {
    seq(|s|, i requires 0 <= i < |s| => s[i].entry.frame)
  }

  ghost predicate Sorted(s: seq<Fed>) {
    forall i, j :: 0 <= i < j < |s| ==> s[i].entry.id <= s[j].entry.id
  }

  ghost predicate Increasing(s: seq<Fed>) {
    forall i, j :: 0 <= i < j < |s| ==> s[i].entry.id < s[j].entry.id
  }

  ghost predicate QueueSorted(q: seq<Entry>) {
    forall i, j :: 0 <= i < j < |q| ==> q[i].id <= q[j].id
  }

  /** `out` interleaves the queues: every record exactly once, each worker's records in its own order. */
  ghost predicate Interleaves(queues: seq<seq<Entry>>, out: seq<Fed>) {
    && (forall x :: x in out ==> x.tid < |queues|)
    && (forall t :: 0 <= t < |queues| ==> Project(out, t) == queues[t])
  }

  lemma {:induction false} ProjectConcat(a: seq<Fed>, b: seq<Fed>, tid: nat)
    ensures Project(a + b, tid) == Project(a, tid) + Project(b, tid)
    decreases |a|
  {
    if a == [] {
      assert a + b == b;
    } else {
      var head := if a[0].tid == tid then [a[0].entry] else [];
      assert Project(a + b, tid) == head + (Project(a[1..], tid) + Project(b, tid)) by {
        ProjectConcat(a[1..], b, tid);
        assert (a + b)[0] == a[0] && (a + b)[1..] == a[1..] + b;
      }
      Assoc(head, Project(a[1..], tid), Project(b, tid));
    }
  }

  lemma ProjectOne(x: Fed, tid: nat)
    ensures Project([x], tid) == if x.tid == tid then [x.entry] else []
  {
    assert [x][1..] == [];
  }

  /** An entry of a projection comes from somewhere in the sequence, in order. */
  lemma {:induction false} ProjectFrom(s: seq<Fed>, tid: nat, k: nat) returns (i: nat)
    requires k < |Project(s, tid)|
    ensures i < |s| && s[i] == Fed(tid, Project(s, tid)[k])
    decreases |s|
  {
    if s[0].tid == tid && k == 0 {
      i := 0;
    } else {
      var j := ProjectFrom(s[1..], tid, if s[0].tid == tid then k - 1 else k);
      i := j + 1;
    }
  }

  lemma {:induction false} ProjectHas(s: seq<Fed>, i: nat)
    requires i < |s|
    ensures s[i].entry in Project(s, s[i].tid)
    decreases |s|
  {
    if i > 0 {
      ProjectHas(s[1..], i - 1);
    }
  }

  lemma TailProjects(s: seq<Fed>, tid: nat)
    requires s != []
    ensures Project(s[1..], tid) == Project(s, tid)[if s[0].tid == tid then 1 else 0..]
  {
  }

  /** What the sequences `fed` and `out` of records of `n` workers have in common before and after a merge. */
  ghost predicate Merges(fed: seq<Fed>, out: seq<Fed>, n: nat) {
    && Increasing(fed) && Sorted(out)
    && (forall x :: x in fed ==> x.tid < n)
    && (forall x :: x in out ==> x.tid < n)
    && (forall t :: 0 <= t < n ==> Project(out, t) == Project(fed, t))
  }

  /** When ids are handed out in feed order, the merge is not merely some sorted interleaving: it is the feed
      order itself, whatever the sort does. */
  lemma {:induction false} MergeIsFeedOrder(fed: seq<Fed>, out: seq<Fed>, n: nat)
    requires Increasing(fed) && Sorted(out)
    requires forall x :: x in fed ==> x.tid < n
    requires forall x :: x in out ==> x.tid < n
    requires forall t :: 0 <= t < n ==> Project(out, t) == Project(fed, t)
    ensures out == fed
    decreases |fed|
  {
    assert Merges(fed, out, n);
    hide Project;
    if fed == [] || out == [] {
      BothEmpty(fed, out, n);
    } else {
      MergesTail(fed, out, n);
      MergeIsFeedOrder(fed[1..], out[1..], n);
    }
  }

  lemma BothEmpty(fed: seq<Fed>, out: seq<Fed>, n: nat)
    requires Merges(fed, out, n) && (fed == [] || out == [])
    ensures fed == out
  {
    if out != [] {
      assert out[0] in out;
      ProjectHas(out, 0);
    } else if fed != [] {
      assert fed[0] in fed;
      ProjectHas(fed, 0);
    }
  }

  lemma MergesTail(fed: seq<Fed>, out: seq<Fed>, n: nat)
    requires Merges(fed, out, n) && fed != [] && out != []
    ensures out[0] == fed[0] && Merges(fed[1..], out[1..], n)
  {
    assert fed[0] in fed && out[0] in out;
    HeadsAgree(fed, out, n);
    hide Project;
    forall t | 0 <= t < n
      ensures Project(out[1..], t) == Project(fed[1..], t)
    {
      TailProjects(fed, t);
      TailProjects(out, t);
    }
    assert forall x :: x in fed[1..] ==> x in fed;
    assert forall x :: x in out[1..] ==> x in out;
  }

  lemma {:induction false} HeadsAgree(fed: seq<Fed>, out: seq<Fed>, n: nat)
    requires fed != [] && out != [] && Increasing(fed) && Sorted(out)
    requires fed[0].tid < n && out[0].tid < n
    requires forall t :: 0 <= t < n ==> Project(out, t) == Project(fed, t)
    ensures out[0] == fed[0]
  {
    var t, u := fed[0].tid, out[0].tid;
    assert Project(fed, t)[0] == fed[0].entry && Project(out, u)[0] == out[0].entry;
    assert Project(out, t) == Project(fed, t) && Project(out, u) == Project(fed, u);
    var i := ProjectFrom(out, t, 0);
    var j := ProjectFrom(fed, u, 0);
    assert out[i].entry.id == fed[0].entry.id && fed[j].entry == out[0].entry;
  }
}
