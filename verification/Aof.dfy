/** The rotating set of append-only files, as one append-only byte log with `(file, offset)` positions. */
module Aof {
  import opened Seqs
  import opened Wire
  import opened Messages

  /** Files by index: file `i` is the one named `naruto.aof.i`. */
  type Dir = d: seq<bytes> | d != [] witness [[]]

  datatype Pos = Pos(file: nat, off: nat)

  predicate ValidPos(d: Dir, p: Pos) {
    p.file < |d| && p.off <= |d[p.file]|
  }

  /** The bytes a reader gets from position `p` on: the rest of its file, then every later file from its start. */
  function Suffix(d: Dir, p: Pos): bytes
    requires ValidPos(d, p)
  {
    d[p.file][p.off..] + Concat(d[p.file + 1..])
  }

  function Cur(d: Dir): (p: Pos)
    ensures ValidPos(d, p) && p.file == |d| - 1 && p.off == |d[|d| - 1]|
  {
    Pos(|d| - 1, |d[|d| - 1]|)
  }

  /** A batch is written whole to one file: to a new one if the current has reached the rotation size. */
  function Written(d: Dir, rotate: nat, s: bytes): Dir {
    var last := |d| - 1;
    if |d[last]| >= rotate then d + [s] else d[last := d[last] + s]
  }

  /** A restart never appends to an old file: it opens the next one. */
  function Reopened(d: Dir): Dir {
    d + [[]]
  }

  lemma SuffixGrows(d: Dir, rotate: nat, s: bytes, p: Pos)
    requires ValidPos(d, p)
    ensures ValidPos(Written(d, rotate, s), p) && Suffix(Written(d, rotate, s), p) == Suffix(d, p) + s
  {
    var last, d' := |d| - 1, Written(d, rotate, s);
    if |d[last]| >= rotate {
      ConcatAppend(d[p.file + 1..], [s]);
      ConcatOne(s);
      assert d'[p.file + 1..] == d[p.file + 1..] + [s];
    } else if p.file < last {
      LastGrows(d, p.file + 1, s);
      Assoc(d[p.file][p.off..], Concat(d[p.file + 1..]), s);
      hide Concat;
    }
  }

  lemma LastGrows(d: Dir, i: nat, s: bytes)
    requires i < |d|
    ensures var last := |d| - 1; Concat(d[last := d[last] + s][i..]) == Concat(d[i..]) + s
  {
    var last := |d| - 1;
    var mid := d[i..last];
    assert d[i..] == mid + [d[last]] && d[last := d[last] + s][i..] == mid + [d[last] + s];
    ConcatAppend(mid, [d[last]]);
    ConcatAppend(mid, [d[last] + s]);
    ConcatOne(d[last]);
    ConcatOne(d[last] + s);
    Assoc(Concat(mid), d[last], s);
    hide Concat;
  }

  lemma SuffixReopened(d: Dir, p: Pos)
    requires ValidPos(d, p)
    ensures ValidPos(Reopened(d), p) && Suffix(Reopened(d), p) == Suffix(d, p)
  {
    ConcatAppend(d[p.file + 1..], [[]]);
    ConcatOne<byte>([]);
    assert Reopened(d)[p.file + 1..] == d[p.file + 1..] + [[]];
  }

  datatype Event = Batch(s: bytes) | Restart

  function Step(d: Dir, rotate: nat, e: Event): Dir {
    if e.Batch? then Written(d, rotate, e.s) else Reopened(d)
  }

  function Adds(e: Event): bytes {
    if e.Batch? then e.s else []
  }

  function After(d: Dir, rotate: nat, es: seq<Event>): Dir
    decreases |es|
  {
    if es == [] then d else After(Step(d, rotate, es[0]), rotate, es[1..])
  }

  function Flushed(es: seq<Event>): bytes
    decreases |es|
  {
    if es == [] then [] else Adds(es[0]) + Flushed(es[1..])
  }

  // ---- Rotation ----

  /** A batch goes to a new file exactly if the last one has reached the rotation size; no other file changes. */
  lemma WrittenRotates(d: Dir, rotate: nat, s: bytes)
    ensures var d', last := Written(d, rotate, s), |d| - 1;
            && (|d[last]| >= rotate ==> |d'| == |d| + 1 && d'[|d|] == s && d'[last] == d[last])
            && (|d[last]| < rotate ==> |d'| == |d| && d'[last] == d[last] + s)
            && (forall i :: 0 <= i < last ==> d'[i] == d[i])
  {
  }

  /** A file that has reached the rotation size, or is not the last, is never written to again, whatever happens. */
  lemma {:induction false} ClosedForever(d: Dir, rotate: nat, es: seq<Event>, i: nat)
    requires i < |d| && (|d[i]| >= rotate || i < |d| - 1)
    ensures i < |After(d, rotate, es)| && After(d, rotate, es)[i] == d[i]
    decreases |es|
  {
    if es != [] {
      ClosedForever(Step(d, rotate, es[0]), rotate, es[1..], i);
    }
  }

  /** A file is only left for the next one when it has reached the rotation size, unless the server restarts: after any
      batches every file but the last has reached it, if that was so before. */
  lemma {:induction false} FilledBeforeLeft(d: Dir, rotate: nat, es: seq<Event>)
    requires forall e :: e in es ==> e.Batch?
    requires forall i :: 0 <= i < |d| - 1 ==> |d[i]| >= rotate
    ensures forall i :: 0 <= i < |After(d, rotate, es)| - 1 ==> |After(d, rotate, es)[i]| >= rotate
    decreases |es|
  {
    if es != [] {
      assert es[0] in es;
      var d' := Step(d, rotate, es[0]);
      forall i | 0 <= i < |d'| - 1
        ensures |d'[i]| >= rotate
      {
      }
      FilledBeforeLeft(d', rotate, es[1..]);
    }
  }

  lemma SuffixStep(d: Dir, rotate: nat, e: Event, p: Pos)
    requires ValidPos(d, p)
    ensures ValidPos(Step(d, rotate, e), p) && Suffix(Step(d, rotate, e), p) == Suffix(d, p) + Adds(e)
  {
    hide Suffix, ValidPos, Written, Reopened;
    if e.Batch? {
      SuffixGrows(d, rotate, e.s, p);
    } else {
      SuffixReopened(d, p);
    }
  }

  /** A recorded position denotes, for ever after and across rotations and restarts, exactly what was written
      after it: whatever position `p` a reader holds, later events only append to what it will read. */
  lemma {:induction false} PositionIsForever(d: Dir, rotate: nat, es: seq<Event>, p: Pos)
    requires ValidPos(d, p)
    ensures ValidPos(After(d, rotate, es), p) && Suffix(After(d, rotate, es), p) == Suffix(d, p) + Flushed(es)
    ensures p == Cur(d) ==> Suffix(After(d, rotate, es), p) == Flushed(es)
    decreases |es|
  {
    if p == Cur(d) {
      NothingAfter(d);
    }
    hide Step, Suffix, ValidPos, Cur, Adds;
    if es != [] {
      SuffixStep(d, rotate, es[0], p);
      PositionIsForever(Step(d, rotate, es[0]), rotate, es[1..], p);
      Assoc(Suffix(d, p), Adds(es[0]), Flushed(es[1..]));
    }
  }

  lemma NothingAfter(d: Dir)
    ensures Suffix(d, Cur(d)) == []
  {
  }

  /** The files are numbered without a gap. */
  ghost predicate Contiguous(files: map<nat, bytes>, n: nat) {
    forall i: nat :: i in files <==> i < n
  }

  ghost function ToSeq(files: map<nat, bytes>, n: nat): seq<bytes>
    requires Contiguous(files, n)
  {
    seq(n, i requires 0 <= i < n => files[i])
  }

  predicate Ascending(list: seq<nat>) {
    forall i, j :: 0 <= i < j < |list| ==> list[i] < list[j]
  }

  ghost predicate Lists(files: map<nat, bytes>, after: Option<nat>, list: seq<nat>) {
    && Ascending(list)
    && forall i :: i in list <==> i in files && (after.Some? ==> after.value <= i)
  }

  /** The log files from `after` on, in index order; the directory itself is read in no particular order. */
  method ListAof(files: map<nat, bytes>, after: Option<nat>) returns (list: seq<nat>)
    ensures Lists(files, after, list)
  {
    list := [];
    var unread := files.Keys;
    while unread != {}
      invariant unread <= files.Keys && Lists(files - unread, after, list)
      decreases unread
    {
      var idx :| idx in unread;
      unread := unread - {idx};
      if after.None? || idx >= after.value {
        list := Insert(list, idx);
      }
    }
    assert files - unread == files;
  }

  method Insert(list: seq<nat>, idx: nat) returns (r: seq<nat>)
    requires Ascending(list) && idx !in list
    ensures Ascending(r) && forall i :: i in r <==> i == idx || i in list
  {
    var k := 0;
    while k < |list| && list[k] < idx
      invariant k <= |list| && forall i :: 0 <= i < k ==> list[i] < idx
    {
      k := k + 1;
    }
    r := list[..k] + [idx] + list[k..];
    InsertAt(list, k, idx);
  }

  lemma InsertAt(list: seq<nat>, k: nat, idx: nat)
    requires Ascending(list) && k <= |list|
    requires (forall i :: 0 <= i < k ==> list[i] < idx) && (k < |list| ==> idx < list[k])
    ensures var r := list[..k] + [idx] + list[k..];
            Ascending(r) && forall i :: i in r <==> i == idx || i in list
  {
    var low, high := list[..k], list[k..];
    assert list == low + high;
    forall i
      ensures i in low + [idx] + high <==> i == idx || i in list
    {
    }
    assert forall i :: 0 <= i < |high| ==> idx < high[i];
  }

  /** In a directory without gaps the listing from file `after` is `after, after + 1, ...` up to the last file. */
  lemma ListContiguous(files: map<nat, bytes>, n: nat, after: Option<nat>, list: seq<nat>)
    requires Contiguous(files, n) && Lists(files, after, list)
    ensures var first := if after.None? then 0 else after.value;
            list == seq(if first <= n then n - first else 0, i requires 0 <= i => first + i)
  {
    var first := if after.None? then 0 else after.value;
    var run := seq(if first <= n then n - first else 0, i requires 0 <= i => first + i);
    forall i | 0 <= i < |list|
      ensures first <= list[i] < n
    {
      assert list[i] in list;
    }
    forall i: nat | first <= i < n
      ensures i in list
    {
    }
    AscendingRun(list, first, n);
  }

  /** What reading the listed files in turn gives, the first one from an offset. */
  ghost function ReadListed(files: map<nat, bytes>, list: seq<nat>, off: nat): bytes
    requires list != [] && (forall i :: i in list ==> i in files) && off <= |files[list[0]]|
  {
    files[list[0]][off..] + Concat(seq(|list| - 1, k requires 0 <= k < |list| - 1 => files[list[k + 1]]))
  }

  /** That is the suffix of the log at that position. */
  lemma ListedSuffix(files: map<nat, bytes>, n: nat, after: Option<nat>, list: seq<nat>, off: nat)
    requires Contiguous(files, n) && Lists(files, after, list)
    requires var first := if after.None? then 0 else after.value; first < n && off <= |files[first]|
    ensures var first := if after.None? then 0 else after.value;
            && list != [] && list[0] == first && (forall i :: i in list ==> i in files)
            && ReadListed(files, list, off) == Suffix(ToSeq(files, n), Pos(first, off))
  {
    ListContiguous(files, n, after, list);
    var first := list[0];
    assert seq(|list| - 1, k requires 0 <= k < |list| - 1 => files[list[k + 1]]) == ToSeq(files, n)[first + 1..];
  }

  lemma {:induction false} AscendingRun(list: seq<nat>, first: nat, n: nat)
    requires Ascending(list)
    requires forall i: nat :: i in list <==> first <= i < n
    ensures |list| == if first <= n then n - first else 0
    ensures forall i :: 0 <= i < |list| ==> list[i] == first + i
    decreases |list|
  {
    if list == [] {
      assert first in list <==> first < n;
    } else {
      assert list[0] in list;
      assert first in list;
      assert list[0] == first;
      forall i: nat
        ensures i in list[1..] <==> first + 1 <= i < n
      {
        assert i in list <==> i == list[0] || i in list[1..];
      }
      AscendingRun(list[1..], first + 1, n);
      forall i | 0 < i < |list|
        ensures list[i] == first + i
      {
        assert list[i] == list[1..][i - 1];
      }
    }
  }

  lemma LastListed(files: map<nat, bytes>, list: seq<nat>)
    requires Lists(files, None, list)
    ensures list == [] ==> forall i :: i !in files
    ensures list != [] ==> list[|list| - 1] in files && forall i :: i in files ==> i <= list[|list| - 1]
  {
    forall i | i in files
      ensures list != [] && i <= list[|list| - 1]
    {
      assert i in list;
    }
  }

  class RotateFileStream {
    /** The log files of the directory, by index. */
    var files: map<nat, bytes>
    var rotateAofIdx: nat
    const rotateAofFileSize: nat

    ghost predicate Valid()
      reads this
    {
      Contiguous(files, rotateAofIdx + 1)
    }

    ghost function View(): Dir
      requires Valid()
      reads this
    {
      ToSeq(files, rotateAofIdx + 1)
    }

    /** Opens the file after the last one found in the directory, whatever other numbers there are. */
    constructor (dir: map<nat, bytes>, rotateFileSize: nat)
      ensures rotateAofFileSize == rotateFileSize && files == dir[rotateAofIdx := []]
      ensures (forall i :: i in dir ==> i < rotateAofIdx) && (rotateAofIdx == 0 || rotateAofIdx - 1 in dir)
      ensures forall n: nat :: Contiguous(dir, n) ==> Valid() && View() == ToSeq(dir, n) + [[]]
    {
      var list := ListAof(dir, None);
      var next := if list != [] then list[|list| - 1] + 1 else 0;
      LastListed(dir, list);
      rotateAofFileSize := rotateFileSize;
      rotateAofIdx := next;
      files := dir[next := []];
      new;
      forall n: nat | Contiguous(dir, n)
        ensures Valid() && View() == ToSeq(dir, n) + [[]]
      {
        assert n > 0 ==> n - 1 in dir;
        assert next == n;
      }
    }

    method CurRollFile() returns (p: Pos)
      requires Valid()
      ensures p == Cur(View())
    {
      p := Pos(rotateAofIdx, |files[rotateAofIdx]|);
    }

    /** Writes a batch. If the current file has reached the rotation size, the index grows by one and the new file is
        exactly the batch; otherwise only the current file grows, by the batch. */
    method Write(s: bytes) returns (size: nat)
      requires Valid()
      modifies this
      ensures Valid() && View() == Written(old(View()), rotateAofFileSize, s)
      ensures size == old(|files[rotateAofIdx]|)
      ensures size >= rotateAofFileSize ==> rotateAofIdx == old(rotateAofIdx) + 1 && files == old(files)[rotateAofIdx := s]
      ensures size < rotateAofFileSize ==>
                && rotateAofIdx == old(rotateAofIdx)
                && files == old(files)[rotateAofIdx := old(files)[rotateAofIdx] + s]
    {
      size := |files[rotateAofIdx]|;
      if size >= rotateAofFileSize {
        Rotate();
      }
      assert [] + s == s;
      ghost var before := View();
      assert before[rotateAofIdx] == files[rotateAofIdx];
      files := files[rotateAofIdx := files[rotateAofIdx] + s];
      assert View() == before[rotateAofIdx := before[rotateAofIdx] + s];
    }

    method Rotate()
      requires Valid()
      modifies this
      ensures Valid() && View() == Reopened(old(View()))
      ensures rotateAofIdx == old(rotateAofIdx) + 1 && files == old(files)[rotateAofIdx := []]
    {
      rotateAofIdx := rotateAofIdx + 1;
      files := files[rotateAofIdx := []];
    }
  }
}
