/** The bulk transfer of a database file to a slave, in pieces of any size, on the connection that carries the
    incremental stream afterwards. */
module Transfer {
  import opened Seqs
  import opened Wire
  import opened Connection

  const SEND_SIZE: nat := 16384
  const READ_SIZE: nat := 4096

  datatype Sending = Sending | Sent | Gone
  datatype Receiving = Receiving | Received | Aborted

  function Min(a: nat, b: nat): nat {
    if a < b then a else b
  }

  /** Bytes a call moves when at most `limit` can be: at least one, if any. */
  function Amount(n: nat, limit: nat): (k: nat)
    ensures k <= limit && (limit > 0 ==> k > 0) && (1 <= n <= limit ==> k == n)
  {
    Min(if n < 1 then 1 else n, limit)
  }

  /** What one writable event of the master does: the offset and the state it leaves, and the bytes put on the
      connection. An empty read of the file and a write error close the link; a write that would block is tried
      again. */
  function SendBulk(db: bytes, off: nat, e: Event): (r: (nat, Sending, bytes))
    requires off <= |db|
    ensures off <= r.0 <= |db| && r.2 == db[off..r.0]
    ensures r.1 == Gone <==> off == |db| || (!e.Data? && !e.Again?)
    ensures r.1 == Sent <==> off < |db| && r.0 == |db|
    ensures !e.Data? ==> r.0 == off
    ensures e.Data? ==> r.0 == off + Amount(e.n, Min(|db| - off, 16384))
  {
    var buf := db[off..Min(off + SEND_SIZE, |db|)];
    if buf == [] then (off, Gone, [])
    else
      match e
      case Again => (off, Sending, [])
      case Data(n) =>
        var off' := off + Amount(n, |buf|);
        (off', if off' == |db| then Sent else Sending, db[off..off'])
      case _ => (off, Gone, [])
  }

  /** What one readable event of the slave does with what is on the connection: it asks for at most what is left of
      the announced size, and nothing received aborts the transfer. */
  function ReadBulk(size: nat, tmp: bytes, wire: bytes, e: Event): (r: (Receiving, bytes, bytes))
    requires |tmp| <= size
    ensures |r.1| <= size && r.1 + r.2 == tmp + wire
    ensures |r.1| == |tmp| + if e.Data? then Amount(e.n, Min(Min(size - |tmp|, 4096), |wire|)) else 0
    ensures r.0 == Aborted <==> |r.1| == |tmp|
    ensures r.0 == Received <==> |tmp| < |r.1| == size
  {
    var want := Min(size - |tmp|, READ_SIZE);
    var n := if e.Data? then Amount(e.n, Min(want, |wire|)) else 0;
    assert wire == wire[..n] + wire[n..];
    if n == 0 then (Aborted, tmp, wire)
    else (if |tmp| + n == size then Received else Receiving, tmp + wire[..n], wire[n..])
  }

  class BulkLink {
    const db: bytes
    var replDboff: nat
    var state: Sending

    constructor (db: bytes)
      ensures this.db == db && replDboff == 0 && state == Sending
    {
      this.db := db;
      replDboff, state := 0, Sending;
    }

    /** Once the transfer is over the file is closed and nothing happens. */
    method OnSendBulkToSlave(e: Event) returns (written: bytes)
      requires replDboff <= |db|
      modifies this
      ensures old(state) == Sending ==> (replDboff, state, written) == SendBulk(db, old(replDboff), e)
      ensures old(state) != Sending ==> replDboff == old(replDboff) && state == old(state) && written == []
    {
      if state != Sending {
        return [];
      }
      var buflen := Min(replDboff + SEND_SIZE, |db|) - replDboff;
      written := [];
      if buflen == 0 {
        state := Gone;
        return;
      }
      match e {
        case Again =>
        case Data(n) =>
          var nwritten := Amount(n, buflen);
          written := db[replDboff..replDboff + nwritten];
          replDboff := replDboff + nwritten;
          if replDboff == |db| {
            state := Sent;
          }
        case _ =>
          state := Gone;
      }
    }
  }

  class BulkReceiver {
    const transferSize: nat
    var tmpfile: bytes
    var transferRead: nat
    var state: Receiving

    constructor (size: nat)
      ensures transferSize == size && tmpfile == [] && transferRead == 0 && state == Receiving
    {
      transferSize := size;
      tmpfile, transferRead, state := [], 0, Receiving;
    }

    method OnReadSyncBulkPayload(wire: bytes, e: Event) returns (rest: bytes)
      requires transferRead == |tmpfile| <= transferSize && state == Receiving
      modifies this
      ensures transferRead == |tmpfile|
      ensures (state, tmpfile, rest) == ReadBulk(transferSize, old(tmpfile), wire, e)
    {
      var left := transferSize - transferRead;
      var readlen := if left < READ_SIZE then left else READ_SIZE;
      var nread := if e.Data? then Amount(e.n, Min(readlen, |wire|)) else 0;
      rest := wire;
      if nread == 0 {
        state := Aborted;
        return;
      }
      tmpfile := tmpfile + wire[..nread];
      transferRead := transferRead + nread;
      rest := wire[nread..];
      if transferRead == transferSize {
        state := Received;
      }
    }
  }

  // ---- Both ends ----

  /** `incr` is everything the master has put on the connection after the file. */
  datatype Link = Link(db: bytes, off: nat, master: Sending, wire: bytes, tmp: bytes, slave: Receiving, incr: bytes)

  function Start(db: bytes): Link {
    Link(db, 0, Sending, [], [], Receiving, [])
  }

  datatype Step = Write(e: Event) | Read(e: Event) | Stream(s: bytes)

  function Next(l: Link, step: Step): Link
    requires l.off <= |l.db| && |l.tmp| <= |l.db|
  {
    match step
    case Write(e) =>
      if l.master != Sending then l
      else
        var (off, master, s) := SendBulk(l.db, l.off, e);
        l.(off := off, master := master, wire := l.wire + s)
    case Read(e) =>
      if l.slave != Receiving || (l.wire == [] && e.Data?) then l
      else
        var (slave, tmp, wire) := ReadBulk(|l.db|, l.tmp, l.wire, e);
        l.(slave := slave, tmp := tmp, wire := wire)
    case Stream(s) => if l.master == Sent then l.(wire := l.wire + s, incr := l.incr + s) else l
  }

  ghost predicate Inv(l: Link) {
    && |l.tmp| <= l.off <= |l.db|
    && l.tmp == l.db[..|l.tmp|] && l.wire == l.db[|l.tmp|..l.off] + l.incr
    && (l.master == Sent ==> l.off == |l.db|) && (l.incr != [] ==> l.master == Sent)
    && (l.slave == Received ==> l.tmp == l.db)
  }

  function Run(l: Link, steps: seq<Step>): (r: Link)
    requires Inv(l)
    ensures Inv(r) && r.db == l.db
    decreases |steps|
  {
    if steps == [] then l
    else
      NextKeeps(l, steps[0]);
      Run(Next(l, steps[0]), steps[1..])
  }

  lemma NextKeeps(l: Link, step: Step)
    requires Inv(l)
    ensures Inv(Next(l, step)) && Next(l, step).db == l.db
  {
    var l' := Next(l, step);
    match step {
      case Write(e) =>
        if l.master == Sending {
          assert l.incr == [];
          SliceJoin(l.db, |l.tmp|, l.off, l'.off);
        }
      case Read(e) =>
        if l'.tmp != l.tmp {
          ReadKeeps(l, e);
        }
      case Stream(s) =>
        Assoc(l.db[|l.tmp|..l.off], l.incr, s);
    }
  }

  lemma ReadKeeps(l: Link, e: Event)
    requires Inv(l) && l.slave == Receiving
    ensures var (slave, tmp, wire) := ReadBulk(|l.db|, l.tmp, l.wire, e);
            && |tmp| <= l.off && tmp == l.db[..|tmp|] && wire == l.db[|tmp|..l.off] + l.incr
            && (slave == Received ==> tmp == l.db)
  {
    var (slave, tmp, wire) := ReadBulk(|l.db|, l.tmp, l.wire, e);
    var n := |tmp| - |l.tmp|;
    if n > 0 {
      assert |tmp| <= l.off by {
        if l.incr != [] {
          assert l.off == |l.db|;
        }
      }
      var sent := l.db[|l.tmp|..l.off];
      assert l.wire[..n] == sent[..n] == l.db[|l.tmp|..|tmp|];
      SliceJoin(l.db, 0, |l.tmp|, |tmp|);
      assert l.wire[n..] == sent[n..] + l.incr;
      SliceSlice(l.db, |l.tmp|, l.off, n, |sent|);
    }
  }

  /** Main result on the bulk transfer. For every schedule of partial writes, partial reads and failures, the slave's
      temporary file is a prefix of the master's file; when the slave switches over it is the whole file, and what
      is then on the connection is exactly the incremental stream, untouched. */
  lemma TransferExact(db: bytes, steps: seq<Step>)
    ensures var l := Run(Start(db), steps);
            && l.off <= |db| && l.tmp <= db
            && (l.slave == Received ==> l.tmp == db && l.wire == l.incr)
            && (l.incr != [] ==> l.off == |db|)
  {
    var l := Run(Start(db), steps);
    assert l.tmp == l.db[..|l.tmp|];
    if l.slave == Received {
      assert l.off == |db| && l.db[|db|..|db|] == [];
    }
  }

  /** A file can be transferred if and only if it is not empty. */
  lemma TransferPossible(db: bytes)
    ensures (exists steps :: Run(Start(db), steps).slave == Received) <==> db != []
  {
    if db == [] {
      forall steps
        ensures Run(Start(db), steps).slave != Received
      {
        EmptyNever(Start(db), steps);
      }
    } else {
      var steps := OneByOne(Start(db));
      assert Run(Start(db), steps).slave == Received;
    }
  }

  lemma {:induction false} EmptyNever(l: Link, steps: seq<Step>)
    requires Inv(l) && l.db == [] && l.slave != Received
    ensures Run(l, steps).slave != Received
    decreases |steps|
  {
    if steps != [] {
      NextKeeps(l, steps[0]);
      EmptyNever(Next(l, steps[0]), steps[1..]);
    }
  }

  /** A schedule that moves one byte at a time. */
  lemma {:induction false} OneByOne(l: Link) returns (steps: seq<Step>)
    requires Inv(l) && l.tmp != l.db && l.master == Sending && l.slave == Receiving && l.off == |l.tmp|
    ensures Run(l, steps).slave == Received
    decreases |l.db| - |l.tmp|
  {
    var w, r := Write(Data(1)), Read(Data(1));
    var l1 := Next(l, w);
    NextKeeps(l, w);
    assert l1.wire == [l.db[l.off]];
    var l2 := Next(l1, r);
    NextKeeps(l1, r);
    assert |l2.tmp| == |l.tmp| + 1;
    var rest: seq<Step> := [];
    if l2.slave != Received {
      rest := OneByOne(l2);
    } else {
      assert Run(l2, []) == l2;
    }
    steps := [w, r] + rest;
    assert steps[1..] == [r] + rest && ([r] + rest)[1..] == rest;
    assert Run(l, steps) == Run(l1, [r] + rest) == Run(l2, rest);
  }

  // ---- Progress ----

  /** Nothing goes wrong: writes move bytes or would block, reads move bytes. */
  predicate Friendly(steps: seq<Step>) {
    forall x :: x in steps ==> (x.Write? ==> x.e.Data? || x.e.Again?) && (x.Read? ==> x.e.Data?)
  }

  function Writes(steps: seq<Step>): nat {
    if steps == [] then 0 else (if steps[0].Write? && steps[0].e.Data? then 1 else 0) + Writes(steps[1..])
  }

  function Reads(steps: seq<Step>): nat {
    if steps == [] then 0 else (if steps[0].Read? && steps[0].e.Data? then 1 else 0) + Reads(steps[1..])
  }

  /** A transfer that is going well: the file is not empty, the master has not given up and the slave has not either. */
  ghost predicate Going(l: Link) {
    Inv(l) && l.db != [] && l.master != Gone && l.slave != Aborted
    && (l.master == Sent <==> l.off == |l.db|) && (l.slave == Received <==> l.tmp == l.db)
  }

  lemma GoingOn(l: Link, step: Step)
    requires Going(l) && Friendly([step])
    ensures var l' := Next(l, step);
            && Going(l') && l'.db == l.db && l.off <= l'.off && |l.tmp| <= |l'.tmp|
            && (step.Write? && step.e.Data? && l.off < |l.db| ==> l'.off > l.off)
            && (step.Read? && step.e.Data? && |l.tmp| < l.off ==> |l'.tmp| > |l.tmp|)
  {
    NextKeeps(l, step);
    assert step in [step];
    var l' := Next(l, step);
    assert |l'.tmp| == |l.db| ==> l'.tmp == l.db by {
      assert l'.tmp == l'.db[..|l'.tmp|];
    }
  }

  /** However the bytes are cut and however often a write would block: a part of the schedule with as many writes as the
      file has bytes sends all of it, and a later part with as many reads receives all of it. */
  lemma {:induction false} AllSent(l: Link, steps: seq<Step>)
    requires Going(l) && Friendly(steps)
    ensures Going(Run(l, steps)) && Run(l, steps).off >= l.off && |Run(l, steps).tmp| >= |l.tmp|
    ensures l.off + Writes(steps) >= |l.db| ==> Run(l, steps).off == |l.db|
    ensures l.off == |l.db| && |l.tmp| + Reads(steps) >= |l.db| ==> Run(l, steps).slave == Received
    decreases |steps|
  {
    if steps != [] {
      assert steps[0] in steps;
      assert Friendly([steps[0]]) && Friendly(steps[1..]);
      GoingOn(l, steps[0]);
      hide Inv, Going, Next, Friendly;
      AllSent(Next(l, steps[0]), steps[1..]);
    } else {
      assert |l.tmp| == |l.db| ==> l.tmp == l.db;
    }
  }

  lemma {:induction false} RunConcat(l: Link, a: seq<Step>, b: seq<Step>)
    requires Inv(l)
    ensures Run(l, a + b) == Run(Run(l, a), b)
    decreases |a|
  {
    if a == [] {
      assert a + b == b;
    } else {
      NextKeeps(l, a[0]);
      assert (a + b)[0] == a[0] && (a + b)[1..] == a[1..] + b;
      hide Next;
      RunConcat(Next(l, a[0]), a[1..], b);
    }
  }

  /** Progress: a write that would block is tried again, so every non-empty file gets across. */
  lemma TransferCompletes(db: bytes, a: seq<Step>, b: seq<Step>)
    requires db != [] && Friendly(a + b) && Writes(a) >= |db| && Reads(b) >= |db|
    ensures Run(Start(db), a + b).slave == Received && Run(Start(db), a + b).tmp == db
  {
    RunConcat(Start(db), a, b);
    forall x | x in a || x in b
      ensures x in a + b
    {
    }
    AllSent(Start(db), a);
    AllSent(Run(Start(db), a), b);
  }
}
