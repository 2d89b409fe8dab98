/** Replication of a master's log to one slave: the master's PSYNC decision, the database transfer, the incremental
    sender, the messages in flight and the slave that applies them, over whole runs with reconnections. */
module Replica {
  import opened Seqs
  import opened Wire
  import opened Messages
  import opened Store
  import opened Snapshot
  import FrameReader
  import opened Aof
  import opened LogFiles
  import opened Sender

  // ---- PSYNC ----

  datatype Grant = Full(pos: Pos) | Part(pos: Pos) | Try

  /** The master's answer to a slave that asks to continue from `req`, or has nothing to ask for. */
  function Psync(d: Dir, dbExists: bool, dumpPos: Option<Pos>, req: Option<Pos>): Grant {
    if req.None? && !dbExists then Part(Pos(0, 0))
    else if req.None? || req.value.file >= |d| || |d[req.value.file]| < req.value.off then
      if dumpPos.None? then Try else Full(dumpPos.value)
    else Part(req.value)
  }

  /** Every granted position can be read from: it lies in an existing file, within its size; and a partial
      resynchronisation is refused exactly when the requested position does not. */
  lemma GrantIsValid(d: Dir, dbExists: bool, dumpPos: Option<Pos>, req: Option<Pos>)
    requires dumpPos.Some? ==> ValidPos(d, dumpPos.value)
    ensures var g := Psync(d, dbExists, dumpPos, req);
            && (g.Part? || g.Full? ==> ValidPos(d, g.pos))
            && (req.Some? ==> (g == Part(req.value) <==> ValidPos(d, req.value)))
            && (g.Part? && req.None? ==> g.pos == Pos(0, 0))
            && (g.Part? <==> if req.None? then !dbExists else ValidPos(d, req.value))
            && (g.Full? <==> !g.Part? && dumpPos.Some?)
            && (g.Full? ==> g.pos == dumpPos.value)
  {
  }

  // ---- The system ----

  /** A database file that shows the store after `seen` commands, and the log position recorded with it. */
  datatype Snap = Snap(dump: seq<Frame>, pos: Pos, seen: nat)

  datatype Phase = Idle | Transfer(snap: Snap) | Online

  /** The master's accepted commands, log files and current snapshot, and whether the position recorded with the
      snapshot is in its configuration; its cursor for the slave's link; the messages in flight; and the slave: the position it would resume from, and its store. `from` and `seen` say, for the
      statement of what the slave holds, where its log began and what its snapshot contained. */
  datatype Sys = Sys(
    log: seq<Frame>, files: Files, snap: Option<Snap>, placed: bool,
    link: Option<Pos>, wire: seq<Multi>,
    phase: Phase, known: Option<Pos>, db: Db, from: nat, seen: nat)

  ghost predicate Exec(c: Codec, s: Sys, s': Sys, f: Frame) {
    Accepts(Replay(map[], Commands(c, s.log)), Command(c, f)) && s' == s.(log := s.log + [f])
  }

  predicate Flush(rotate: nat, s: Sys, s': Sys) {
    |Concat(s.files)| <= |s.log| &&
    s' == s.(files := WriteFrames(s.files, rotate, s.log[|Concat(s.files)|..]))
  }

  function DumpPos(s: Sys): Option<Pos> {
    if s.snap.Some? && s.placed then Some(s.snap.value.pos) else None
  }

  /** What a finished snapshot is. `Lineage.ServerSnapshot` shows a server's own snapshots to be such. */
  ghost predicate SnapOk(c: Codec, log: seq<Frame>, files: Files, snap: Snap) {
    && Boundary(files, snap.pos) && Index(files, snap.pos) <= snap.seen <= |log|
    && Values(ParseAll(c, map[], snap.dump)) == StateAt(c, log, snap.seen)
  }

  ghost predicate TakeSnap(c: Codec, s: Sys, s': Sys, snap: Snap) {
    SnapOk(c, s.log, s.files, snap) && s' == s.(snap := Some(snap), placed := true)
  }

  /** The slave sends PSYNC and takes the reply. It records the position at once, also for a full transfer. */
  predicate Connect(s: Sys, s': Sys) {
    s.phase.Idle? &&
    match Psync(OnDisk(s.files), s.snap.Some?, DumpPos(s), s.known)
    case Part(p) => s' == s.(link := Some(p), phase := Online, known := Some(p))
    case Full(p) => s.snap.Some? && s' == s.(phase := Transfer(s.snap.value), known := Some(p))
    case Try => s' == s
  }

  /** The transfer is complete: the slave flushes its store and loads the file, the master starts the sender. */
  ghost predicate Loaded(c: Codec, s: Sys, s': Sys) {
    s.phase.Transfer? && FrameReader.ChunkSafe(s.phase.snap.dump) && Boundary(s.files, s.phase.snap.pos) &&
    var snap := s.phase.snap;
    s' == s.(db := ParseAll(c, map[], FrameReader.Load(Concat(snap.dump), 0).out), link := Some(snap.pos),
             phase := Online, from := Index(s.files, snap.pos), seen := snap.seen)
  }

  /** A tick of the sender, under the window hypothesis and for commands without a zero byte. */
  ghost predicate Send(s: Sys, s': Sys) {
    s.link.Some? && Boundary(s.files, s.link.value) && WindowOk(s.files, s.link.value) &&
    (forall f :: f in s.log ==> 0 !in Body(f)) &&
    var t := SendIncr(OnDisk(s.files), s.link.value);
    t.Ticked? && s' == s.(link := Some(t.at), wire := if t.msg.None? then s.wire else s.wire + [t.msg.value])
  }

  /** The frames the slave executes and logs for a batch. */
  function Received(cmds: seq<Cmd>): (fs: seq<Frame>)
    ensures |fs| == |cmds|
  {
    seq(|cmds|, i requires 0 <= i < |cmds| => Pack(0, cmds[i].typ, cmds[i].body))
  }

  /** The slave applies a batch and then moves its position. */
  predicate Deliver(c: Codec, s: Sys, s': Sys, env: nat -> Env) {
    s.phase.Online? && s.wire != [] &&
    var db := ExecFrames(c, s.db, Received(s.wire[0].cmds), env);
    db.Some? && s' == s.(db := db.value, known := Some(s.wire[0].stamp), wire := s.wire[1..])
  }

  /** The connection is lost with everything in flight; the position is kept. */
  predicate Disconnect(s: Sys, s': Sys) {
    s' == s.(link := None, wire := [], phase := Idle)
  }

  /** A crash and restart of the master. Its log is what the files hold, a new file is opened, and the position of the
      snapshot on disk is the one last saved, or none. The condition is that the snapshots, its own and the one the slave
      started from, have seen nothing that is in no file; `Lineage.ResumesExactly` shows what happens otherwise. */
  ghost predicate Restart(s: Sys, s': Sys, saved: Option<Pos>) {
    !s.phase.Transfer? && s.seen <= |Concat(s.files)| &&
    (s.snap.Some? ==> s.snap.value.seen <= |Concat(s.files)| && Boundary(s.files, s.snap.value.pos)) &&
    (saved.Some? ==>
       s.snap.Some? && Boundary(s.files, saved.value) && Index(s.files, saved.value) <= Index(s.files, s.snap.value.pos)) &&
    s' == s.(log := Concat(s.files), files := s.files + [[]], link := None, wire := [], phase := Idle,
             snap := if saved.Some? then Some(s.snap.value.(pos := saved.value)) else s.snap, placed := saved.Some?)
  }

  /** Steps under the hypothesis that a full transfer, once started, completes. */
  ghost predicate Next(c: Codec, rotate: nat, s: Sys, s': Sys) {
    || (exists f :: Exec(c, s, s', f))
    || Flush(rotate, s, s')
    || (exists snap :: TakeSnap(c, s, s', snap))
    || Connect(s, s')
    || Loaded(c, s, s')
    || Send(s, s')
    || (exists env :: Deliver(c, s, s', env))
    || (!s.phase.Transfer? && Disconnect(s, s'))
    || (exists saved :: Restart(s, s', saved))
  }

  const INIT := Sys([], [[]], None, false, None, [], Idle, None, map[], 0, 0)

  ghost predicate Run(c: Codec, rotate: nat, r: seq<Sys>) {
    r != [] && r[0] == INIT && forall i :: 0 <= i < |r| - 1 ==> Next(c, rotate, r[i], r[i + 1])
  }

  // ---- What every run keeps ----

  ghost predicate MasterOk(c: Codec, s: Sys) {
    && AllAccepted(map[], Commands(c, s.log))
    && Concat(s.files) <= s.log
    && (s.snap.Some? ==> SnapOk(c, s.log, s.files, s.snap.value))
  }

  /** The messages in flight carry the log from position `p` to position `q`, contiguously. */
  ghost predicate Chain(c: Codec, log: seq<Frame>, files: Files, p: Pos, wire: seq<Multi>, q: Pos)
    requires Boundary(files, p) && Boundary(files, q)
    decreases |wire|
  {
    if wire == [] then Index(files, p) == Index(files, q)
    else
      && Boundary(files, wire[0].stamp)
      && Index(files, p) <= Index(files, wire[0].stamp) <= |log|
      && Commands(c, Received(wire[0].cmds)) == Commands(c, log[Index(files, p)..Index(files, wire[0].stamp)])
      && Chain(c, log, files, wire[0].stamp, wire[1..], q)
  }

  /** The slave holds its snapshot with the log from the recorded position to its own replayed on it. */
  ghost predicate Holds(c: Codec, s: Sys, p: Pos) {
    && Boundary(s.files, p)
    && s.from <= Index(s.files, p) <= |s.log| && s.from <= s.seen <= |s.log|
    && Values(s.db) == Replay(StateAt(c, s.log, s.seen), Commands(c, s.log[s.from..Index(s.files, p)]))
  }

  ghost predicate SlaveOk(c: Codec, s: Sys) {
    match s.phase
    case Transfer(snap) =>
      s.known == Some(snap.pos) && SnapOk(c, s.log, s.files, snap) && s.link == None && s.wire == [] && s.db == map[]
    case Online =>
      s.known.Some? && Holds(c, s, s.known.value) && s.link.Some? &&
      Boundary(s.files, s.link.value) && Chain(c, s.log, s.files, s.known.value, s.wire, s.link.value)
    case Idle =>
      s.link == None && s.wire == [] &&
      if s.known.Some? then Holds(c, s, s.known.value) else s.db == map[] && s.from == 0 && s.seen == 0
  }

  ghost predicate Inv(c: Codec, s: Sys) {
    MasterOk(c, s) && SlaveOk(c, s)
  }

  // ---- The master's side ----

  /** Growing the log and the files keeps every position, snapshot and message meaningful. */
  ghost predicate Grows(s: Sys, s': Sys) {
    && s.log <= s'.log
    && (forall p :: Boundary(s.files, p) ==> Boundary(s'.files, p) && Index(s'.files, p) == Index(s.files, p))
  }

  lemma GrowsStateAt(c: Codec, s: Sys, s': Sys, i: nat)
    requires Grows(s, s') && i <= |s.log|
    ensures StateAt(c, s'.log, i) == StateAt(c, s.log, i)
  {
    assert s'.log[..i] == s.log[..i];
  }

  lemma GrowsSnap(c: Codec, s: Sys, s': Sys, snap: Snap)
    requires Grows(s, s') && SnapOk(c, s.log, s.files, snap)
    ensures SnapOk(c, s'.log, s'.files, snap)
  {
    GrowsStateAt(c, s, s', snap.seen);
    hide Boundary, Index, StateAt;
  }

  lemma {:induction false} GrowsChain(c: Codec, s: Sys, s': Sys, p: Pos, wire: seq<Multi>, q: Pos)
    requires Grows(s, s') && Boundary(s.files, p) && Boundary(s.files, q) && Chain(c, s.log, s.files, p, wire, q)
    ensures Boundary(s'.files, p) && Boundary(s'.files, q) && Chain(c, s'.log, s'.files, p, wire, q)
    decreases |wire|
  {
    hide Boundary, Index, Commands, Received;
    if wire != [] {
      var i, j := Index(s.files, p), Index(s.files, wire[0].stamp);
      assert s'.log[i..j] == s.log[i..j];
      GrowsChain(c, s, s', wire[0].stamp, wire[1..], q);
    }
  }

  lemma GrowsSlave(c: Codec, s: Sys, s': Sys)
    requires Grows(s, s') && SlaveOk(c, s)
    requires s' == s.(log := s'.log, files := s'.files)
    ensures SlaveOk(c, s')
  {
    if s.phase.Transfer? {
      GrowsSnap(c, s, s', s.phase.snap);
    } else if s.known.Some? {
      var p := s.known.value;
      if s.phase.Online? {
        GrowsChain(c, s, s', p, s.wire, s.link.value);
      }
      GrowsStateAt(c, s, s', s.seen);
      assert s'.log[s.from..Index(s.files, p)] == s.log[s.from..Index(s.files, p)];
    }
    hide Boundary, Index, StateAt, Chain, Replay, SnapOk;
  }

  lemma ExecKeeps(c: Codec, s: Sys, s': Sys, f: Frame)
    requires Inv(c, s) && Exec(c, s, s', f)
    ensures Inv(c, s')
  {
    hide SnapOk, Replay, AllAccepted, Accepts;
    var cmds, cmd := Commands(c, s.log), Command(c, f);
    assert Commands(c, s'.log) == cmds + [cmd];
    hide Commands, Command;
    ReplayConcat(map[], cmds, [cmd]);
    ReplayOne(Replay(map[], cmds), cmd);
    GrowsSlave(c, s, s');
    if s.snap.Some? {
      GrowsSnap(c, s, s', s.snap.value);
    }
    hide SlaveOk;
  }

  lemma FlushKeeps(c: Codec, rotate: nat, s: Sys, s': Sys)
    requires Inv(c, s) && Flush(rotate, s, s')
    ensures Inv(c, s')
  {
    var batch := s.log[|Concat(s.files)|..];
    WriteFramesConcat(s.files, rotate, batch);
    forall p | Boundary(s.files, p)
      ensures Boundary(s'.files, p) && Index(s'.files, p) == Index(s.files, p)
    {
      WriteFramesKeeps(s.files, rotate, batch, p);
    }
    GrowsSlave(c, s, s');
    if s.snap.Some? {
      GrowsSnap(c, s, s', s.snap.value);
    }
    hide SlaveOk, SnapOk, Replay, AllAccepted, Commands, WriteFrames;
    assert s.log == s.log[..|Concat(s.files)|] + batch;
  }

  // ---- The link and the slave ----

  lemma ConnectKeeps(c: Codec, s: Sys, s': Sys)
    requires Inv(c, s) && Connect(s, s')
    ensures Inv(c, s')
  {
    hide SnapOk, Replay, StateAt, Commands, AllAccepted;
    if s.known.Some? {
      assert s' == s.(link := s.known, phase := Online) by {
        assert ValidPos(OnDisk(s.files), s.known.value);
      }
    } else if s.snap.None? {
      NextFile(s.files, 0);
      FirstIndex(s.files);
      EmptyStart(c, s.log);
    } else {
      assert s' == if s.placed then s.(phase := Transfer(s.snap.value), known := Some(s.snap.value.pos)) else s;
    }
  }

  lemma FirstIndex(files: Files)
    ensures Boundary(files, Pos(0, 0)) && Index(files, Pos(0, 0)) == 0
  {
  }

  lemma EmptyStart(c: Codec, log: seq<Frame>)
    ensures Values(map[]) == Replay(StateAt(c, log, 0), Commands(c, log[0..0]))
  {
    assert log[..0] == [] && log[0..0] == [] && Commands(c, []) == [];
    ReplayNothing(map[]);
    assert Values(map[]) == map[];
  }

  lemma LoadedKeeps(c: Codec, s: Sys, s': Sys)
    requires Inv(c, s) && Loaded(c, s, s')
    ensures Inv(c, s')
  {
    var snap := s.phase.snap;
    var i := Index(s.files, snap.pos);
    FrameReader.LoadExact(snap.dump);
    assert s.log[i..i] == [] && Commands(c, []) == [];
    ReplayNothing(StateAt(c, s.log, snap.seen));
    hide Boundary, Index, Replay, StateAt, Commands, ParseAll, AllAccepted;
  }

  /** One frame split by the sender and rebuilt by the slave. */
  lemma RebuiltOne(c: Codec, f: Frame)
    requires 0 !in Body(f)
    ensures var g: Frame := Pack(0, SentOne(f).typ, SentOne(f).body);
            Command(c, g) == Command(c, f) && (g == f <==> Flag(f) == 0)
  {
    CStringExact(Body(f));
    PackUnpack(f);
    UnpackPack(0, Type(f), Body(f));
  }

  /** A batch that is sent is the next stretch of the log, and what the slave makes of it is the same commands. */
  lemma ReceivedIsSent(c: Codec, fs: seq<Frame>)
    requires forall f :: f in fs ==> 0 !in Body(f)
    ensures Commands(c, Received(Sent(fs))) == Commands(c, fs)
  {
    hide SentOne, Pack, Command;
    forall i | 0 <= i < |fs|
      ensures Command(c, Received(Sent(fs))[i]) == Command(c, fs[i])
    {
      RebuiltOne(c, fs[i]);
    }
  }

  /** Its frames are rebuilt byte for byte if and only if all of them have flag 0. */
  lemma RebuiltExactly(c: Codec, fs: seq<Frame>)
    requires forall f :: f in fs ==> 0 !in Body(f)
    ensures Received(Sent(fs)) == fs <==> forall f :: f in fs ==> Flag(f) == 0
  {
    var gs := Received(Sent(fs));
    hide SentOne, Pack, Command, Flag;
    forall i | 0 <= i < |fs|
      ensures gs[i] == fs[i] <==> Flag(fs[i]) == 0
    {
      RebuiltOne(c, fs[i]);
    }
    if forall i :: 0 <= i < |fs| ==> gs[i] == fs[i] {
      assert gs == fs;
      forall f | f in fs
        ensures Flag(f) == 0
      {
        var i :| 0 <= i < |fs| && fs[i] == f;
      }
    } else {
      var i :| 0 <= i < |fs| && gs[i] != fs[i];
      assert fs[i] in fs;
    }
  }

  lemma {:induction false} ChainAppend(c: Codec, log: seq<Frame>, files: Files, p: Pos, wire: seq<Multi>, q: Pos, m: Multi)
    requires Boundary(files, p) && Boundary(files, q) && Chain(c, log, files, p, wire, q)
    requires Boundary(files, m.stamp) && Index(files, q) <= Index(files, m.stamp) <= |log|
    requires Commands(c, Received(m.cmds)) == Commands(c, log[Index(files, q)..Index(files, m.stamp)])
    ensures Chain(c, log, files, p, wire + [m], m.stamp)
    decreases |wire|
  {
    hide Boundary, Index, Commands, Received;
    if wire == [] {
      assert wire + [m] == [m] && [m][1..] == [];
    } else {
      ChainAppend(c, log, files, wire[0].stamp, wire[1..], q, m);
      assert (wire + [m])[1..] == wire[1..] + [m];
    }
  }

  /** Where nothing was sent the cursor may still have moved to the start of the next file: another position of the
      same index. */
  lemma {:induction false} ChainMove(c: Codec, log: seq<Frame>, files: Files, p: Pos, wire: seq<Multi>, q: Pos, q': Pos)
    requires Boundary(files, p) && Boundary(files, q) && Boundary(files, q') && Index(files, q) == Index(files, q')
    requires Chain(c, log, files, p, wire, q)
    ensures Chain(c, log, files, p, wire, q')
    decreases |wire|
  {
    hide Boundary, Index, Commands, Received;
    if wire != [] {
      ChainMove(c, log, files, wire[0].stamp, wire[1..], q, q');
    }
  }

  /** One tick extends the chain of messages in flight, or moves the cursor without passing over any frame. */
  lemma SendCovers(c: Codec, log: seq<Frame>, files: Files, q: Pos) returns (t: Tick)
    requires Boundary(files, q) && WindowOk(files, q) && Concat(files) <= log
    requires forall f :: f in log ==> 0 !in Body(f)
    ensures t == SendIncr(OnDisk(files), q) && t.Ticked? && Boundary(files, t.at)
    ensures Index(files, q) <= Index(files, t.at) <= |log|
    ensures t.msg.None? ==> Index(files, t.at) == Index(files, q)
    ensures t.msg.Some? ==>
              && t.msg.value.stamp == t.at
              && Commands(c, Received(t.msg.value.cmds)) == Commands(c, log[Index(files, q)..Index(files, t.at)])
  {
    hide Boundary, Index, Commands, SendIncr, WindowOk, Received, Sent, FrameReader.Whole, Span, Rest;
    t := SendIncr(OnDisk(files), q);
    TickExact(files, q);
    if t.msg.Some? {
      var i, j := Index(files, q), Index(files, t.at);
      var fs := Concat(files)[i..j];
      assert fs == log[i..j];
      assert forall f :: f in fs ==> f in log;
      ReceivedIsSent(c, fs);
    }
  }

  lemma SendKeeps(c: Codec, s: Sys, s': Sys)
    requires Inv(c, s) && Send(s, s')
    ensures Inv(c, s')
  {
    hide Boundary, Index, StateAt, Commands, AllAccepted, SnapOk, Chain, SendIncr, WindowOk, Received, Replay;
    var p, q := s.known.value, s.link.value;
    var t := SendCovers(c, s.log, s.files, q);
    if t.msg.Some? {
      ChainAppend(c, s.log, s.files, p, s.wire, q, t.msg.value);
    } else {
      ChainMove(c, s.log, s.files, p, s.wire, q, t.at);
    }
  }

  /** Applying the next stretch of the log never crashes the slave, and takes what it holds to the new position. */
  lemma DeliverHolds(c: Codec, s: Sys, p: Pos, m: Multi, env: nat -> Env)
    requires MasterOk(c, s) && Holds(c, s, p) && Boundary(s.files, m.stamp)
    requires Index(s.files, p) <= Index(s.files, m.stamp) <= |s.log|
    requires Commands(c, Received(m.cmds)) == Commands(c, s.log[Index(s.files, p)..Index(s.files, m.stamp)])
    ensures var db := ExecFrames(c, s.db, Received(m.cmds), env);
            && db.Some?
            && Values(db.value) == Replay(StateAt(c, s.log, s.seen), Commands(c, s.log[s.from..Index(s.files, m.stamp)]))
  {
    hide Boundary, Index, AllAccepted, SnapOk, Received, Replay, ExecFrames;
    var i, j := Index(s.files, p), Index(s.files, m.stamp);
    var base := StateAt(c, s.log, s.seen);
    var a, b := Commands(c, s.log[s.from..i]), Commands(c, s.log[i..j]);
    assert Commands(c, s.log[s.from..j]) == a + b by { SliceJoin(s.log, s.from, i, j); }
    FuzzyAccepted(c, s.log, s.from, s.seen, j);
    ReplayConcat(base, a, b);
    ExecFramesReplay(c, s.db, Received(m.cmds), env);
  }

  /** Replaying any stretch of an accepted log from a position at or before a snapshot is accepted. */
  lemma FuzzyAccepted(c: Codec, log: seq<Frame>, from: nat, seen: nat, j: nat)
    requires AllAccepted(map[], Commands(c, log)) && from <= seen <= |log| && from <= j <= |log|
    ensures AllAccepted(StateAt(c, log, seen), Commands(c, log[from..j]))
  {
    hide AllAccepted, Replay;
    var cmds := Commands(c, log);
    Absorption(map[], cmds, from, seen);
    assert cmds[..seen] == Commands(c, log[..seen]);
    assert cmds[from..] == Commands(c, log[from..j]) + Commands(c, log[j..]);
    ReplayConcat(StateAt(c, log, seen), Commands(c, log[from..j]), Commands(c, log[j..]));
  }

  lemma DeliverKeeps(c: Codec, s: Sys, s': Sys, env: nat -> Env)
    requires Inv(c, s) && Deliver(c, s, s', env)
    ensures Inv(c, s')
  {
    hide Boundary, Index, StateAt, Commands, AllAccepted, SnapOk, Received, Replay, ExecFrames;
    DeliverHolds(c, s, s.known.value, s.wire[0], env);
  }

  lemma NextKeeps(c: Codec, rotate: nat, s: Sys, s': Sys)
    requires Inv(c, s) && Next(c, rotate, s, s')
    ensures Inv(c, s')
  {
    hide Inv, Exec, Flush, TakeSnap, Connect, Loaded, Send, Deliver, Disconnect, Restart;
    if f :| Exec(c, s, s', f) {
      ExecKeeps(c, s, s', f);
    } else if Flush(rotate, s, s') {
      FlushKeeps(c, rotate, s, s');
    } else if snap :| TakeSnap(c, s, s', snap) {
      TakeSnapKeeps(c, s, s', snap);
    } else if Connect(s, s') {
      ConnectKeeps(c, s, s');
    } else if Loaded(c, s, s') {
      LoadedKeeps(c, s, s');
    } else if Send(s, s') {
      SendKeeps(c, s, s');
    } else if env :| Deliver(c, s, s', env) {
      DeliverKeeps(c, s, s', env);
    } else if !s.phase.Transfer? && Disconnect(s, s') {
      DisconnectKeeps(c, s, s');
    } else {
      var saved :| Restart(s, s', saved);
      RestartKeeps(c, s, s', saved);
    }
  }

  lemma TakeSnapKeeps(c: Codec, s: Sys, s': Sys, snap: Snap)
    requires Inv(c, s) && TakeSnap(c, s, s', snap)
    ensures Inv(c, s')
  {
    hide Boundary, Index, StateAt, Commands, AllAccepted, Replay, Chain, ParseAll;
  }

  lemma DisconnectKeeps(c: Codec, s: Sys, s': Sys)
    requires Inv(c, s) && !s.phase.Transfer? && Disconnect(s, s')
    ensures Inv(c, s')
  {
    hide Boundary, Index, StateAt, Commands, AllAccepted, Replay, Chain, ParseAll;
  }

  lemma RestartKeeps(c: Codec, s: Sys, s': Sys, saved: Option<Pos>)
    requires Inv(c, s) && Restart(s, s', saved)
    ensures Inv(c, s')
  {
    RestartMaster(c, s, s', saved);
    if s.known.Some? {
      RestartSlave(c, s, s', s.known.value);
    }
    hide Boundary, Index, MasterOk, Holds, Concat, SnapOk, Chain;
  }

  lemma RestartMaster(c: Codec, s: Sys, s': Sys, saved: Option<Pos>)
    requires MasterOk(c, s) && Restart(s, s', saved)
    ensures MasterOk(c, s')
  {
    var n := |Concat(s.files)|;
    assert s.log[..n] == Concat(s.files);
    Truncate(c, s.log, n);
    FirstIndex(s.files);
    ReopenKeeps(s.files, Pos(0, 0));
    if s.snap.Some? {
      ReopenKeeps(s.files, s.snap.value.pos);
      if saved.Some? {
        ReopenKeeps(s.files, saved.value);
      }
    }
    hide Boundary, Index, Replay, AllAccepted, Commands, ParseAll, Concat, StateAt;
  }

  lemma RestartSlave(c: Codec, s: Sys, s': Sys, p: Pos)
    requires MasterOk(c, s) && Holds(c, s, p) && s.seen <= |Concat(s.files)|
    requires s'.log == Concat(s.files) && s'.files == s.files + [[]]
    requires s'.db == s.db && s'.from == s.from && s'.seen == s.seen
    ensures Holds(c, s', p)
  {
    var n := |Concat(s.files)|;
    assert s.log[..n] == Concat(s.files);
    Truncate(c, s.log, n);
    ReopenKeeps(s.files, p);
    IndexSuffix(s.files, p);
    hide Boundary, Replay, AllAccepted, Commands, Concat, StateAt;
    assert s'.log[s.from..Index(s.files, p)] == s.log[s.from..Index(s.files, p)];
  }

  lemma InitOk(c: Codec)
    ensures Inv(c, INIT)
  {
    assert Concat(INIT.files) == [] by { ConcatOne<Frame>([]); }
    assert Commands(c, []) == [];
  }

  /** What a slave holds past its snapshot point is a state the master went through. */
  lemma PastSnapshot(c: Codec, s: Sys, p: Pos)
    requires MasterOk(c, s) && Holds(c, s, p) && s.seen <= Index(s.files, p)
    ensures Values(s.db) == StateAt(c, s.log, Index(s.files, p))
  {
    hide Boundary, Index, AllAccepted, SnapOk, Replay;
    ReplayTail(c, s.log, s.from, s.seen, Index(s.files, p));
  }

  /** Main result on replication. In every run, across any number of disconnections and resynchronisations, the slave
      holds the snapshot it was transferred with the contiguous stretch of the master's log up to its position
      replayed on it; once that position is past the snapshot point, it holds exactly the master's store after that
      many commands. */
  lemma {:induction false} RunReplicates(c: Codec, rotate: nat, r: seq<Sys>)
    requires Run(c, rotate, r)
    ensures var s := r[|r| - 1];
            && Inv(c, s)
            && (s.known.Some? && !s.phase.Transfer? ==>
                  && Holds(c, s, s.known.value)
                  && (s.seen <= Index(s.files, s.known.value) ==>
                        Values(s.db) == StateAt(c, s.log, Index(s.files, s.known.value))))
    decreases |r|
  {
    hide MasterOk, Boundary, Index, StateAt, Replay, Chain, SnapOk, Commands;
    var s := r[|r| - 1];
    if |r| == 1 {
      InitOk(c);
    } else {
      var q := r[..|r| - 1];
      forall i | 0 <= i < |q| - 1
        ensures Next(c, rotate, q[i], q[i + 1])
      {
        assert q[i] == r[i] && q[i + 1] == r[i + 1];
      }
      RunReplicates(c, rotate, q);
      assert q[|q| - 1] == r[|r| - 2] && Next(c, rotate, r[|r| - 2], r[|r| - 2 + 1]);
      NextKeeps(c, rotate, r[|r| - 2], s);
    }
    if s.known.Some? && !s.phase.Transfer? && s.seen <= Index(s.files, s.known.value) {
      PastSnapshot(c, s, s.known.value);
    }
  }

  /** A slave that has a position is granted exactly that position when it reconnects: never a second full transfer. */
  lemma ResumesWhereItStopped(c: Codec, s: Sys)
    requires Inv(c, s) && s.phase.Idle? && s.known.Some?
    ensures Psync(OnDisk(s.files), s.snap.Some?, DumpPos(s), s.known) == Part(s.known.value)
  {
    hide StateAt, Replay, Commands, SnapOk;
    assert ValidPos(OnDisk(s.files), s.known.value);
  }

  lemma EmptyOnlyAtStart(c: Codec, log: seq<Frame>, n: nat)
    requires AllAccepted(map[], Commands(c, log)) && n <= |log|
    ensures StateAt(c, log, n) == map[] <==> n == 0
  {
    Truncate(c, log, n);
    var cmds := Commands(c, log[..n]);
    if n > 0 {
      ReplayIsOverlay(map[], cmds);
      AcceptedIsTyped(map[], cmds);
      assert cmds[n - 1] in cmds;
      LastWrite(cmds);
    } else {
      ReplayNothing(map[]);
    }
  }

  /** Why a started transfer must complete: the position is recorded before the database has arrived. A slave whose
      transfer is aborted and that reconnects is resumed at that position with the empty store it had, which is the
      master's store there if and only if the position is the very start of the log. */
  lemma AbortedTransfer(c: Codec, s: Sys, s1: Sys, s2: Sys)
    requires Inv(c, s) && s.phase.Transfer? && Disconnect(s, s1) && Connect(s1, s2)
    ensures s2.phase.Online? && s2.known == Some(s.phase.snap.pos) && Boundary(s2.files, s2.known.value)
    ensures Index(s2.files, s2.known.value) <= |s2.log|
    ensures Values(s2.db) == StateAt(c, s2.log, Index(s2.files, s2.known.value)) <==>
            Index(s2.files, s2.known.value) == 0
  {
    var p := s.phase.snap.pos;
    hide StateAt, Replay, Commands, Index;
    assert ValidPos(OnDisk(s.files), p);
    EmptyOnlyAtStart(c, s.log, Index(s.files, p));
    assert Values(s2.db) == map[];
  }
}
