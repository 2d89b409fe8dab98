/** Crash recovery: the store is rebuilt from the last database file and the command log after the position
    recorded with it. Snapshots are fuzzy: the fork sees commands that are still in unmerged worker buffers. */
module Recovery {
  import opened Seqs
  import opened Wire
  import opened Messages
  import opened Store
  import opened Snapshot
  import opened FrameReader
  import opened Aof
  import opened LogFiles

  // ---- A server and its disk ----

  /** A running snapshot child: the file it writes and the log position recorded when it was forked. */
  datatype Child = Child(dump: seq<Frame>, pos: Pos)

  /** `files`, `torn`, `dump` and `confDisk` survive a crash; the rest does not. `pending` are the commands fed and not
      yet merged, in feed order. `torn` holds, for a file whose last write a crash cut short, the piece of a frame at
      its end. */
  datatype Node = Node(
    db: Db, pending: seq<Frame>, child: Option<Child>, conf: Option<Pos>,
    files: Files, torn: map<nat, bytes>, dump: Option<seq<Frame>>, confDisk: Option<Pos>)

  function Tail(torn: map<nat, bytes>, i: nat): bytes {
    if i in torn then torn[i] else []
  }

  /** The bytes of the log files. */
  function Disk(files: Files, torn: map<nat, bytes>): (d: seq<bytes>)
    ensures |d| == |files|
  {
    seq(|files|, i requires 0 <= i < |files| => Concat(files[i]) + Tail(torn, i))
  }

  /** Loads the database file into an empty store. */
  function LoadDump(c: Codec, dump: Option<seq<Frame>>): Option<Db> {
    if dump.None? then Some(map[])
    else
      var r := Load(Concat(dump.value), 0);
      if r.fault then None else Some(ParseAll(c, map[], r.out))
  }

  /** Replays the log files from file `i` on, the first one from offset `off`. */
  function ReplayFiles(c: Codec, db: Db, d: seq<bytes>, i: nat, off: nat, env: nat -> Env): Option<Db>
    decreases |d| - i
  {
    if i >= |d| then Some(db)
    else
      var r := Load(d[i], off);
      if r.fault then None
      else
        var next := ExecFrames(c, db, r.out, env);
        if next.None? then None else ReplayFiles(c, next.value, d, i + 1, 0, env)
  }

  function StartPos(conf: Option<Pos>): Pos {
    if conf.None? then Pos(0, 0) else conf.value
  }

  /** What a restart makes of the disk; `None` if it crashes. */
  function Recover(c: Codec, n: Node, env: nat -> Env): Option<Db> {
    var base := LoadDump(c, n.dump);
    if base.None? then None
    else ReplayFiles(c, base.value, Disk(n.files, n.torn), StartPos(n.confDisk).file, StartPos(n.confDisk).off, env)
  }

  // ---- What the disk must satisfy for the chunked reader (see FrameReader.LoadExact) ----

  ghost predicate ReadableFrom(files: Files, torn: map<nat, bytes>, i: nat, off: nat)
    decreases |files| - i
  {
    i < |files| ==> TailSafe(files[i][Whole(files[i], off)..], Tail(torn, i)) && ReadableFrom(files, torn, i + 1, 0)
  }

  ghost predicate Readable(n: Node) {
    && (n.dump.Some? ==> ChunkSafe(n.dump.value))
    && ReadableFrom(n.files, n.torn, StartPos(n.confDisk).file, StartPos(n.confDisk).off)
  }

  ghost predicate TornOk(torn: map<nat, bytes>, n: nat) {
    forall i :: i in torn ==> i < n && IsTorn(torn[i])
  }

  lemma TailIsTorn(torn: map<nat, bytes>, n: nat, i: nat)
    requires TornOk(torn, n)
    ensures IsTorn(Tail(torn, i))
  {
    var f: Frame := Pack(0, 0, []);
    assert [] <= f && |f| > 0;
  }

  /** The frames of one file behind a boundary are executed; then comes the next file. */
  lemma ReplayFile(c: Codec, db: Db, files: Files, torn: map<nat, bytes>, p: Pos, env: nat -> Env)
    requires Boundary(files, p) && TornOk(torn, |files|) && ReadableFrom(files, torn, p.file, p.off)
    ensures var d, next := Disk(files, torn), ExecFrames(c, db, files[p.file][Whole(files[p.file], p.off)..], env);
            ReplayFiles(c, db, d, p.file, p.off, env) ==
            if next.None? then None else ReplayFiles(c, next.value, d, p.file + 1, 0, env)
  {
    assert Disk(files, torn)[p.file] == Concat(files[p.file]) + Tail(torn, p.file);
    TailIsTorn(torn, |files|, p.file);
    hide ExecFrames, Load, TailSafe, Whole, Into, TornOk, IsTorn, Tail, Disk;
    LoadFrom(files[p.file], Tail(torn, p.file), p.off);
  }

  /** Replaying from a boundary executes the commands logged behind it; what a crash tore off is dropped. */
  lemma {:induction false} ReplayFilesExact(c: Codec, db: Db, files: Files, torn: map<nat, bytes>, p: Pos, env: nat -> Env)
    requires Boundary(files, p) && TornOk(torn, |files|) && ReadableFrom(files, torn, p.file, p.off)
    requires Index(files, p) <= |Concat(files)|
    requires AllAccepted(Values(db), Commands(c, Concat(files)[Index(files, p)..]))
    ensures var r := ReplayFiles(c, db, Disk(files, torn), p.file, p.off, env);
            r.Some? && Values(r.value) == Replay(Values(db), Commands(c, Concat(files)[Index(files, p)..]))
    decreases |files| - p.file
  {
    var i := p.file;
    var here, later := files[i][Whole(files[i], p.off)..], Concat(files[i + 1..]);
    ReplayFile(c, db, files, torn, p, env);
    IndexSuffix(files, p);
    assert ReadableFrom(files, torn, i + 1, 0);
    hide *;
    ReplayJoin(c, db, here, later, env);
    var next := ExecFrames(c, db, here, env).value;
    if i + 1 < |files| {
      NextFile(files, i + 1);
      ReplayFilesExact(c, next, files, torn, Pos(i + 1, 0), env);
    } else {
      ReplayEnd(c, next, Disk(files, torn), env);
      NoFiles(c, next, files);
    }
  }

  lemma ReplayJoin(c: Codec, db: Db, here: seq<Frame>, later: seq<Frame>, env: nat -> Env)
    requires AllAccepted(Values(db), Commands(c, here + later))
    ensures var next := ExecFrames(c, db, here, env);
            && next.Some? && AllAccepted(Values(next.value), Commands(c, later))
            && Replay(Values(next.value), Commands(c, later)) == Replay(Values(db), Commands(c, here + later))
  {
    hide *;
    CommandsConcat(c, here, later);
    ReplayConcat(Values(db), Commands(c, here), Commands(c, later));
    ExecFramesReplay(c, db, here, env);
  }

  lemma NoFiles(c: Codec, db: Db, files: Files)
    ensures Replay(Values(db), Commands(c, Concat(files[|files|..]))) == Values(db)
  {
    assert files[|files|..] == [] && Commands(c, []) == [];
    ReplayNothing(Values(db));
    hide Replay, Values;
  }

  lemma ReplayEnd(c: Codec, db: Db, d: seq<bytes>, env: nat -> Env)
    ensures ReplayFiles(c, db, d, |d|, 0, env) == Some(db)
  {
  }

  // ---- Runs: the steps of a server, its snapshots and its crashes ----

  /** Bookkeeping for stating what the store should be; no step reads it. `log` are the accepted commands that
      count, in order of execution. The log files agree with it from file position `base` on, `gap` commands later
      (a crash loses commands a snapshot has seen, which then are in no file). `seen` and `childSeen` are the
      number of commands the database file and the running snapshot contain. */
  datatype History = History(log: seq<Frame>, base: nat, gap: nat, seen: nat, childSeen: nat)

  datatype State = State(n: Node, h: History)

  /** Number of commands of the history that are in the log files or older than them. */
  function Flushed(s: State): nat {
    |Concat(s.n.files)| + s.h.gap
  }

  /** A client command: executed, and logged if accepted. */
  predicate Exec(c: Codec, s: State, s': State, f: Frame, env: Env) {
    Type(f) == CLIENT_HSET &&
    var (db', reply) := ExecMsg(s.n.db, c.hset(Body(f)), env);
    !reply.Crash? &&
    if reply.Accepted? then
      s' == State(s.n.(db := db', pending := s.n.pending + [f]), s.h.(log := s.h.log + [f]))
    else
      s' == State(s.n.(db := db'), s.h)
  }

  /** The disk and the memory once `k` of the pending frames are written. */
  function Wrote(n: Node, rotate: nat, k: nat): Node
    requires k <= |n.pending|
  {
    n.(files := WriteFrames(n.files, rotate, n.pending[..k]), pending := n.pending[k..])
  }

  /** The cron: merge and write. Saving the configuration, which it does next, is the step `SaveConf`. */
  predicate Cron(rotate: nat, s: State, s': State) {
    s' == if s.n.pending == [] then s else s.(n := Wrote(s.n, rotate, |s.n.pending|))
  }

  /** Fork of a snapshot child, which sees the whole store; the recorded position is that of the log files. */
  ghost predicate Fork(c: Codec, s: State, s': State, keys: seq<bytes>) {
    c.Lossless() && s.n.child.None? && Enumerates(keys, s.n.db) && AllFit(c, s.n.db, keys) &&
    s' == State(s.n.(child := Some(Child(Dump(c, s.n.db, keys), CurPos(s.n.files)))), s.h.(childSeen := |s.h.log|))
  }

  /** The child is done: its file replaces the database file, and the position becomes current, in memory only. */
  predicate Finish(s: State, s': State, renamed: bool) {
    s.n.child.Some? &&
    s' == if renamed then
            State(s.n.(dump := Some(s.n.child.value.dump), conf := Some(s.n.child.value.pos), child := None),
                  s.h.(seen := s.h.childSeen))
          else State(s.n.(child := None), s.h)
  }

  /** The configuration timer. */
  predicate SaveConf(s: State, s': State) {
    s' == s.(n := s.n.(confDisk := s.n.conf))
  }

  /** Recovery replays past what the database file has seen, or replays nothing: a merge has happened since the fork
      of the snapshot on disk, or the configuration on disk is the one recorded with it. */
  predicate Drained(s: State)
    requires Boundary(s.n.files, StartPos(s.n.confDisk))
  {
    s.h.seen <= Flushed(s) || Index(s.n.files, StartPos(s.n.confDisk)) == |Concat(s.n.files)|
  }

  /** A crash in the middle of writing a batch: `k` frames of it are on disk, and a piece of the next. */
  ghost predicate Tear(rotate: nat, s: State, s': State, k: nat, piece: bytes) {
    s.n.pending != [] && k <= |s.n.pending| && IsTorn(piece) &&
    (piece != [] ==> k < |s.n.pending| && |piece| < |s.n.pending[k]| && piece <= s.n.pending[k]) &&
    var n := Wrote(s.n, rotate, k);
    s' == s.(n := n.(torn := n.torn[|n.files| - 1 := piece]))
  }

  /** What a crash finds on disk. */
  ghost predicate Crash(rotate: nat, s: State, s': State) {
    s' == s || exists k, piece :: Tear(rotate, s, s', k, piece)
  }

  /** A restart after a crash, which opens a new log file. What survives is what recovery rebuilds. */
  ghost predicate Restart(c: Codec, s: State, s': State, env: nat -> Env) {
    Boundary(s.n.files, StartPos(s.n.confDisk)) && Readable(s.n) && Drained(s) &&
    var db := Recover(c, s.n, env);
    db.Some? &&
    s'.n == Node(db.value, [], None, s.n.confDisk, s.n.files + [[]], s.n.torn, s.n.dump, s.n.confDisk) &&
    s'.h == if s.h.seen <= Flushed(s) then
              s.h.(log := if Flushed(s) <= |s.h.log| then s.h.log[..Flushed(s)] else s.h.log)
            else
              var n := |Concat(s.n.files)|;
              History(if s.h.seen <= |s.h.log| then s.h.log[..s.h.seen] else s.h.log, n, s.h.seen - n, s.h.seen, 0)
  }

  ghost predicate Next(c: Codec, rotate: nat, s: State, s': State) {
    || (exists f, env :: Exec(c, s, s', f, env))
    || Cron(rotate, s, s')
    || (exists keys :: Fork(c, s, s', keys))
    || (exists renamed :: Finish(s, s', renamed))
    || SaveConf(s, s')
    || (exists crashed, env :: Crash(rotate, s, crashed) && Restart(c, crashed, s', env))
  }

  const INIT := State(Node(map[], [], None, None, [[]], map[], None, None), History([], 0, 0, 0, 0))

  ghost predicate Run(c: Codec, rotate: nat, r: seq<State>) {
    r != [] && r[0] == INIT && forall i :: 0 <= i < |r| - 1 ==> Next(c, rotate, r[i], r[i + 1])
  }

  // ---- The invariant ----

  function DumpVals(c: Codec, dump: Option<seq<Frame>>): Vals {
    if dump.None? then map[] else Values(ParseAll(c, map[], dump.value))
  }

  /** A snapshot of the store after `seen` commands, with a position at or before that. */
  ghost predicate SnapshotOk(c: Codec, s: State, dump: Option<seq<Frame>>, p: Pos, seen: nat) {
    && Boundary(s.n.files, p)
    && s.h.base <= Index(s.n.files, p) && Index(s.n.files, p) + s.h.gap <= seen <= |s.h.log|
    && DumpVals(c, dump) == StateAt(c, s.h.log, seen)
  }

  /** While the server runs, everything a snapshot has seen is in the log files, unless its position is still their
      end: a merge drains everything. */
  ghost predicate Settled(s: State, p: Pos, seen: nat)
    requires Boundary(s.n.files, p)
  {
    seen > Flushed(s) ==> Index(s.n.files, p) == |Concat(s.n.files)|
  }

  ghost predicate LogOk(c: Codec, s: State) {
    && AllAccepted(map[], Commands(c, s.h.log))
    && Values(s.n.db) == Replay(map[], Commands(c, s.h.log))
    && s.h.base <= |Concat(s.n.files)| && Flushed(s) <= |s.h.log|
    && Concat(s.n.files)[s.h.base..] == s.h.log[s.h.base + s.h.gap..Flushed(s)]
    && s.n.pending == s.h.log[Flushed(s)..]
  }

  /** What a crash at any moment finds. */
  ghost predicate DiskInv(c: Codec, s: State) {
    && LogOk(c, s)
    && TornOk(s.n.torn, |s.n.files|)
    && SnapshotOk(c, s, s.n.dump, StartPos(s.n.conf), s.h.seen)
    && (s.n.conf.Some? || s.n.confDisk.Some? ==> s.n.dump.Some?)
    && Boundary(s.n.files, StartPos(s.n.confDisk))
    && s.h.base <= Index(s.n.files, StartPos(s.n.confDisk)) <= Index(s.n.files, StartPos(s.n.conf))
    && (s.n.child.Some? ==>
          && SnapshotOk(c, s, Some(s.n.child.value.dump), s.n.child.value.pos, s.h.childSeen)
          && Index(s.n.files, StartPos(s.n.conf)) <= Index(s.n.files, s.n.child.value.pos))
  }

  ghost predicate Inv(c: Codec, s: State) {
    && DiskInv(c, s)
    && Settled(s, StartPos(s.n.conf), s.h.seen)
    && (s.n.child.Some? ==> Settled(s, s.n.child.value.pos, s.h.childSeen))
    && TornOk(s.n.torn, |s.n.files| - 1)
  }

  lemma {:induction false} ScalarValues(vals: Vals, log: seq<Hset>)
    requires forall a :: a in vals ==> !Empty(vals[a])
    ensures forall a :: a in Replay(vals, log) ==> !Empty(Replay(vals, log)[a])
    decreases |log|
  {
    if log != [] {
      ScalarValues(Apply(vals, log[0]), log[1..]);
    }
  }

  lemma ExecKeeps(c: Codec, s: State, s': State, f: Frame, env: Env)
    requires Inv(c, s) && Exec(c, s, s', f, env)
    ensures Inv(c, s')
  {
    ExecLog(c, s, s', f, env);
    assert forall i :: 0 <= i <= |s.h.log| ==> s'.h.log[..i] == s.h.log[..i];
    hide ExecMsg, LogOk, Replay, Boundary, Index, ParseAll, DumpVals, Accepts, AllAccepted, TornOk, Concat, Commands, Values;
  }

  lemma ExecLog(c: Codec, s: State, s': State, f: Frame, env: Env)
    requires LogOk(c, s) && Exec(c, s, s', f, env)
    ensures LogOk(c, s') && Flushed(s') == Flushed(s) && s'.n.files == s.n.files && s.h.log <= s'.h.log
  {
    var cmd := c.hset(Body(f));
    ExecMsgMeaning(s.n.db, cmd, env);
    hide ExecMsg, Replay, AllAccepted, Accepts, Concat;
    if s'.h != s.h {
      var log, log' := s.h.log, s'.h.log;
      assert Commands(c, log') == Commands(c, log) + [cmd];
      hide Commands;
      ReplayConcat(map[], Commands(c, log), [cmd]);
      ReplayOne(Values(s.n.db), cmd);
      assert log'[Flushed(s)..] == log[Flushed(s)..] + [f];
      assert log'[s.h.base + s.h.gap..Flushed(s)] == log[s.h.base + s.h.gap..Flushed(s)];
    } else {
      RejectedNoop(Values(s.n.db), cmd);
    }
  }

  lemma RejectedNoop(vals: Vals, h: Hset)
    requires !Accepts(vals, h)
    ensures Apply(vals, h) == vals
  {
  }

  lemma WroteSnapshot(c: Codec, rotate: nat, s: State, s': State, k: nat, dump: Option<seq<Frame>>, p: Pos, seen: nat)
    requires k <= |s.n.pending| && s'.n.files == WriteFrames(s.n.files, rotate, s.n.pending[..k]) && s'.h == s.h
    requires LogOk(c, s) && SnapshotOk(c, s, dump, p, seen)
    ensures SnapshotOk(c, s', dump, p, seen) && Index(s'.n.files, p) == Index(s.n.files, p)
    ensures Boundary(s.n.files, p) && Boundary(s'.n.files, p)
  {
    WriteFramesKeeps(s.n.files, rotate, s.n.pending[..k], p);
    hide WriteFrames, Boundary, Index, Replay, AllAccepted, DumpVals, StateAt, Commands, Concat;
  }

  lemma WroteLog(c: Codec, rotate: nat, s: State, s': State, k: nat)
    requires LogOk(c, s) && k <= |s.n.pending| && s' == State(Wrote(s.n, rotate, k).(torn := s'.n.torn), s.h)
    ensures LogOk(c, s') && Flushed(s') == Flushed(s) + k
  {
    hide Replay, AllAccepted, Commands, WriteFrames, Concat, Values;
    WriteFramesConcat(s.n.files, rotate, s.n.pending[..k]);
    FlushSuffix(Concat(s.n.files), s.n.pending, s.h.log, s.h.base, s.h.gap, k);
  }

  /** Moving pending commands from memory to the files. */
  lemma FlushSuffix(files: seq<Frame>, pending: seq<Frame>, log: seq<Frame>, base: nat, gap: nat, k: nat)
    requires base <= |files| && |files| + gap <= |log| && k <= |pending|
    requires files[base..] == log[base + gap..|files| + gap] && pending == log[|files| + gap..]
    ensures |files| + gap + k <= |log|
    ensures (files + pending[..k])[base..] == log[base + gap..|files| + gap + k]
    ensures pending[k..] == log[|files| + gap + k..]
  {
    assert pending[..k] == log[|files| + gap..|files| + gap + k];
    assert (files + pending[..k])[base..] == files[base..] + pending[..k];
    SliceJoin(log, base + gap, |files| + gap, |files| + gap + k);
  }

  /** However much of a batch is written, the disk is one a crash may find. */
  lemma WroteKeeps(c: Codec, rotate: nat, s: State, s': State, k: nat)
    requires DiskInv(c, s) && k <= |s.n.pending| && s' == State(Wrote(s.n, rotate, k).(torn := s'.n.torn), s.h)
    requires TornOk(s'.n.torn, |s'.n.files|)
    ensures DiskInv(c, s') && Flushed(s') == Flushed(s) + k
  {
    WroteLog(c, rotate, s, s', k);
    WriteFramesKeeps(s.n.files, rotate, s.n.pending[..k], StartPos(s.n.confDisk));
    WroteSnapshot(c, rotate, s, s', k, s.n.dump, StartPos(s.n.conf), s.h.seen);
    if s.n.child.Some? {
      WroteSnapshot(c, rotate, s, s', k, Some(s.n.child.value.dump), s.n.child.value.pos, s.h.childSeen);
    }
    hide SnapshotOk, LogOk, WriteFrames, Boundary, Index, TornOk, Concat;
  }

  lemma CronKeeps(c: Codec, rotate: nat, s: State, s': State)
    requires Inv(c, s) && Cron(rotate, s, s')
    ensures Inv(c, s')
  {
    if s.n.pending != [] {
      WroteKeeps(c, rotate, s, s', |s.n.pending|);
      WroteAll(c, s, s', |s.n.pending|);
      hide LogOk, Boundary, Index, TornOk, Concat, DumpVals, StateAt;
    }
  }

  /** After a whole batch nothing is pending, so no snapshot can have seen more than the files hold. */
  lemma WroteAll(c: Codec, s: State, s': State, k: nat)
    requires LogOk(c, s) && LogOk(c, s') && s'.h == s.h && Flushed(s') == Flushed(s) + k && k == |s.n.pending|
    ensures Flushed(s') == |s.h.log|
  {
  }

  lemma CrashKeeps(c: Codec, rotate: nat, s: State, s': State)
    requires Inv(c, s) && Crash(rotate, s, s')
    ensures DiskInv(c, s')
  {
    if s' != s {
      var k, piece :| Tear(rotate, s, s', k, piece);
      hide LogOk, SnapshotOk, Settled, Boundary, Index, IsTorn;
      WroteKeeps(c, rotate, s, s', k);
    }
  }

  /** The file a child writes shows the store as it was at the fork. */
  lemma DumpShowsStore(c: Codec, db: Db, log: seq<Hset>, keys: seq<bytes>)
    requires c.Lossless() && AllFit(c, db, keys) && Enumerates(keys, db) && Values(db) == Replay(map[], log)
    ensures DumpVals(c, Some(Dump(c, db, keys))) == Values(db)
  {
    DumpParse(c, db, keys);
    ScalarValues(map[], log);
    hide Replay, ParseAll, Dump;
    assert forall a :: a in db ==> Values(db)[a] == db[a].value;
  }

  /** Forking, finishing and saving change neither the log nor the files. */
  ghost predicate Same(s: State, s': State) {
    && s'.n.db == s.n.db && s'.n.pending == s.n.pending && s'.n.files == s.n.files && s'.n.torn == s.n.torn
    && s'.h.log == s.h.log && s'.h.base == s.h.base && s'.h.gap == s.h.gap
  }

  lemma SameLog(c: Codec, s: State, s': State)
    requires LogOk(c, s) && Same(s, s')
    ensures LogOk(c, s')
  {
    hide Replay, AllAccepted, Commands, Concat;
  }

  lemma SameSnapshot(c: Codec, s: State, s': State, dump: Option<seq<Frame>>, p: Pos, seen: nat)
    requires SnapshotOk(c, s, dump, p, seen) && Same(s, s')
    ensures SnapshotOk(c, s', dump, p, seen) && Boundary(s'.n.files, p) && Index(s'.n.files, p) <= |Concat(s.n.files)|
  {
    IndexSuffix(s.n.files, p);
    hide Boundary, Index, DumpVals, Commands, Concat, StateAt;
  }

  lemma ForkKeeps(c: Codec, s: State, s': State, keys: seq<bytes>)
    requires Inv(c, s) && Fork(c, s, s', keys)
    ensures Inv(c, s')
  {
    ForkSnapshot(c, s, s', keys);
    SameLog(c, s, s');
    SameSnapshot(c, s, s', s.n.dump, StartPos(s.n.conf), s.h.seen);
    hide LogOk, SnapshotOk, Boundary, Index, Dump, CurPos, Enumerates, Concat;
  }

  lemma ForkSnapshot(c: Codec, s: State, s': State, keys: seq<bytes>)
    requires LogOk(c, s) && Fork(c, s, s', keys)
    ensures SnapshotOk(c, s', Some(s'.n.child.value.dump), s'.n.child.value.pos, s'.h.childSeen)
    ensures Index(s.n.files, s'.n.child.value.pos) == |Concat(s.n.files)|
  {
    CurIndex(s.n.files);
    DumpShowsStore(c, s.n.db, Commands(c, s.h.log), keys);
    assert s.h.log[..|s.h.log|] == s.h.log;
    hide Boundary, Index, Replay, AllAccepted, Dump, CurPos, DumpVals, Enumerates, Commands, Values, Concat;
  }

  lemma FinishKeeps(c: Codec, s: State, s': State, renamed: bool)
    requires Inv(c, s) && Finish(s, s', renamed)
    ensures Inv(c, s')
  {
    SameLog(c, s, s');
    SameSnapshot(c, s, s', s.n.dump, StartPos(s.n.conf), s.h.seen);
    SameSnapshot(c, s, s', Some(s.n.child.value.dump), s.n.child.value.pos, s.h.childSeen);
    SameSettled(s, s', StartPos(s.n.conf), s.h.seen);
    SameSettled(s, s', s.n.child.value.pos, s.h.childSeen);
    hide LogOk, SnapshotOk, Settled, TornOk, Boundary, Index, Concat;
  }

  lemma SameSettled(s: State, s': State, p: Pos, seen: nat)
    requires Same(s, s') && Boundary(s.n.files, p) && Settled(s, p, seen)
    ensures Settled(s', p, seen)
  {
  }

  lemma LoadDumpExact(c: Codec, dump: Option<seq<Frame>>)
    requires dump.Some? ==> ChunkSafe(dump.value)
    ensures LoadDump(c, dump).Some? && Values(LoadDump(c, dump).value) == DumpVals(c, dump)
  {
    if dump.Some? {
      LoadExact(dump.value);
    }
  }

  /** Recovery is exact. In every reachable state whose disk the chunked reader can read and whose snapshot is
      drained, recovery does not crash, and it yields the store after all commands up to the later of what the
      snapshot has seen and what was flushed. */
  lemma RecoverExact(c: Codec, s: State, env: nat -> Env)
    requires DiskInv(c, s) && Readable(s.n) && Drained(s)
    ensures var r, upto := Recover(c, s.n, env), if s.h.seen <= Flushed(s) then Flushed(s) else s.h.seen;
            r.Some? && Values(r.value) == StateAt(c, s.h.log, upto)
  {
    var p, log, f := StartPos(s.n.confDisk), s.h.log, Flushed(s);
    hide Inv, DiskInv, Replay, AllAccepted, ReplayFiles, LoadDump, DumpVals, ReadableFrom, Boundary, Index, ChunkSafe;
    hide StateAt, Commands, Concat, TornOk, Disk;
    RecoverySetup(c, s);
    var k := Index(s.n.files, p);
    LoadDumpExact(c, s.n.dump);
    ReplayTail(c, log, k + s.h.gap, s.h.seen, f);
    ReplayFilesExact(c, LoadDump(c, s.n.dump).value, s.n.files, s.n.torn, p, env);
  }

  /** What the invariant says of the disk a recovery reads. */
  lemma RecoverySetup(c: Codec, s: State)
    requires DiskInv(c, s) && Drained(s)
    ensures var k := Index(s.n.files, StartPos(s.n.confDisk));
            && Boundary(s.n.files, StartPos(s.n.confDisk)) && TornOk(s.n.torn, |s.n.files|)
            && AllAccepted(map[], Commands(c, s.h.log)) && DumpVals(c, s.n.dump) == StateAt(c, s.h.log, s.h.seen)
            && k <= |Concat(s.n.files)| && Concat(s.n.files)[k..] == s.h.log[k + s.h.gap..Flushed(s)]
            && k + s.h.gap <= s.h.seen <= |s.h.log| && Flushed(s) <= |s.h.log|
            && (s.h.seen <= Flushed(s) || k + s.h.gap == Flushed(s))
  {
    var k := Index(s.n.files, StartPos(s.n.confDisk));
    IndexSuffix(s.n.files, StartPos(s.n.confDisk));
    hide Replay, AllAccepted, DumpVals, Boundary, Index, StateAt, Commands, Concat;
    SuffixShift(Concat(s.n.files), s.h.log, s.h.base, s.h.gap, k, Flushed(s));
  }

  lemma SuffixShift(files: seq<Frame>, log: seq<Frame>, base: nat, gap: nat, k: nat, f: nat)
    requires base <= k <= |files| && f == |files| + gap <= |log|
    requires files[base..] == log[base + gap..f]
    ensures files[k..] == log[k + gap..f]
  {
    assert files[k..] == files[base..][k - base..];
    SliceSlice(log, base + gap, f, k - base, f - base - gap);
  }

  lemma RestartKeeps(c: Codec, s: State, s': State, env: nat -> Env)
    requires DiskInv(c, s) && Restart(c, s, s', env)
    ensures Inv(c, s')
  {
    hide Recover, Boundary, Index, LogOk, SnapshotOk, Settled, Drained, Readable, TornOk, Concat;
    RestartLog(c, s, s', env);
    RestartSnapshot(c, s, s', env);
    RestartPlaces(c, s, s', env);
  }

  /** The saved position and the torn pieces after a restart. */
  lemma RestartPlaces(c: Codec, s: State, s': State, env: nat -> Env)
    requires DiskInv(c, s) && Restart(c, s, s', env)
    ensures TornOk(s'.n.torn, |s'.n.files|) && TornOk(s'.n.torn, |s'.n.files| - 1)
    ensures var p := StartPos(s'.n.confDisk);
            Boundary(s'.n.files, p) && s'.h.base <= Index(s'.n.files, p) <= Index(s'.n.files, StartPos(s'.n.conf))
  {
    hide Recover, Boundary, Index, LogOk, Readable, IsTorn, Concat, DumpVals, StateAt;
    ReopenKeeps(s.n.files, StartPos(s.n.confDisk));
  }

  lemma RestartLog(c: Codec, s: State, s': State, env: nat -> Env)
    requires DiskInv(c, s) && Restart(c, s, s', env)
    ensures LogOk(c, s')
  {
    hide Recover, Boundary, Index, Replay, AllAccepted, DumpVals, Readable, StateAt, Commands, TornOk, Concat;
    RecoverExact(c, s, env);
    RestartFiles(s, s', env, c);
    Truncate(c, s.h.log, |s'.h.log|);
  }

  /** The files after a restart and how they split the history that counts from then on. */
  lemma RestartFiles(s: State, s': State, env: nat -> Env, c: Codec)
    requires DiskInv(c, s) && Restart(c, s, s', env)
    ensures Concat(s'.n.files) == Concat(s.n.files)
    ensures s'.h.base <= |Concat(s'.n.files)| && Flushed(s') == |s'.h.log| <= |s.h.log|
    ensures Concat(s'.n.files)[s'.h.base..] == s'.h.log[s'.h.base + s'.h.gap..]
    ensures s'.h.log == s.h.log[..|s'.h.log|]
  {
    ReopenKeeps(s.n.files, StartPos(s.n.confDisk));
    hide Recover, Boundary, Index, Replay, AllAccepted, DumpVals, Readable, StateAt, Commands, TornOk, Concat;
    if s.h.seen <= Flushed(s) {
      TakeDrop(s.h.log, s.h.base + s.h.gap, Flushed(s));
    } else {
      TakeDrop(s.h.log, s.h.seen, s.h.seen);
      TakeDrop(Concat(s.n.files), |Concat(s.n.files)|, |Concat(s.n.files)|);
    }
  }

  lemma TakeDrop<T>(log: seq<T>, a: nat, f: nat)
    requires a <= f <= |log|
    ensures log[..f][a..] == log[a..f] && log[..f] == log[..|log[..f]|] && log[f..f] == [] && log[|log|..] == []
  {
  }

  lemma RestartSnapshot(c: Codec, s: State, s': State, env: nat -> Env)
    requires DiskInv(c, s) && Restart(c, s, s', env)
    ensures SnapshotOk(c, s', s'.n.dump, StartPos(s'.n.conf), s'.h.seen)
    ensures Settled(s', StartPos(s'.n.conf), s'.h.seen)
  {
    RestartFiles(s, s', env, c);
    ReopenKeeps(s.n.files, StartPos(s.n.confDisk));
    IndexSuffix(s.n.files, StartPos(s.n.confDisk));
    hide Recover, Boundary, Index, Replay, AllAccepted, DumpVals, Readable, Commands, TornOk, Concat;
    Truncate(c, s.h.log, |s'.h.log|);
    hide StateAt;
  }

  lemma NextKeeps(c: Codec, rotate: nat, s: State, s': State)
    requires Inv(c, s) && Next(c, rotate, s, s')
    ensures Inv(c, s')
  {
    hide Inv, DiskInv, Exec, Cron, Fork, Finish, Crash, Restart, SaveConf;
    if f, env :| Exec(c, s, s', f, env) {
      ExecKeeps(c, s, s', f, env);
    } else if Cron(rotate, s, s') {
      CronKeeps(c, rotate, s, s');
    } else if keys :| Fork(c, s, s', keys) {
      ForkKeeps(c, s, s', keys);
    } else if renamed :| Finish(s, s', renamed) {
      FinishKeeps(c, s, s', renamed);
    } else if SaveConf(s, s') {
      SaveKeeps(c, s, s');
    } else {
      var crashed, env :| Crash(rotate, s, crashed) && Restart(c, crashed, s', env);
      CrashKeeps(c, rotate, s, crashed);
      RestartKeeps(c, crashed, s', env);
    }
  }

  lemma SaveKeeps(c: Codec, s: State, s': State)
    requires Inv(c, s) && SaveConf(s, s')
    ensures Inv(c, s')
  {
    SameLog(c, s, s');
    SameSnapshot(c, s, s', s.n.dump, StartPos(s.n.conf), s.h.seen);
    SameSettled(s, s', StartPos(s.n.conf), s.h.seen);
    if s.n.child.Some? {
      SameSnapshot(c, s, s', Some(s.n.child.value.dump), s.n.child.value.pos, s.h.childSeen);
      SameSettled(s, s', s.n.child.value.pos, s.h.childSeen);
    }
    hide LogOk, SnapshotOk, Settled, TornOk, Boundary, Index, Concat;
  }

  lemma InitOk(c: Codec)
    ensures Inv(c, INIT)
  {
    assert Concat(INIT.n.files) == [] by { ConcatOne<Frame>([]); }
    assert Commands(c, []) == [];
    hide IsTorn, ParseAll, ExecMsg;
  }

  /** Main result on recovery. At every point of every run (commands, merges, snapshots finishing early or late,
      and any number of crashes and restarts) the store in memory is the one produced by the commands that count,
      and a crash at that point, also one in the middle of writing a batch, is recovered exactly, provided the snapshot
      on disk is drained and the files are readable in chunks. `RecoveredExactly` shows the first proviso to be
      necessary over all logs, `LoadExact` the second. */
  lemma {:induction false} RunRecovers(c: Codec, rotate: nat, r: seq<State>, crashed: State, env: nat -> Env)
    requires Run(c, rotate, r) && Crash(rotate, r[|r| - 1], crashed)
    ensures var s := r[|r| - 1];
            && Inv(c, s)
            && Values(s.n.db) == StateAt(c, s.h.log, |s.h.log|)
    ensures var s := crashed;
            && DiskInv(c, s)
            && (Readable(s.n) && Drained(s) ==>
                  var db, upto := Recover(c, s.n, env), if s.h.seen <= Flushed(s) then Flushed(s) else s.h.seen;
                  db.Some? && upto <= |s.h.log| && Values(db.value) == StateAt(c, s.h.log, upto))
  {
    hide Next, Crash, Recover, Readable, Replay, AllAccepted, Boundary, Index, ParseAll;
    var s := r[|r| - 1];
    RunKeeps(c, rotate, r);
    CrashKeeps(c, rotate, s, crashed);
    assert s.h.log[..|s.h.log|] == s.h.log;
    if Readable(crashed.n) && Drained(crashed) {
      RecoverExact(c, crashed, env);
    }
  }

  lemma {:induction false} RunKeeps(c: Codec, rotate: nat, r: seq<State>)
    requires Run(c, rotate, r)
    ensures Inv(c, r[|r| - 1])
    decreases |r|
  {
    hide Inv, Next;
    if |r| == 1 {
      InitOk(c);
    } else {
      var q := r[..|r| - 1];
      forall i | 0 <= i < |q| - 1
        ensures Next(c, rotate, q[i], q[i + 1])
      {
        assert q[i] == r[i] && q[i + 1] == r[i + 1];
      }
      RunKeeps(c, rotate, q);
      assert q[|q| - 1] == r[|r| - 2] && Next(c, rotate, r[|r| - 2], r[|r| - 2 + 1]);
      NextKeeps(c, rotate, r[|r| - 2], r[|r| - 1]);
    }
  }

  // ---- A run whose snapshot is not drained ----

  /** Three commands: a field is set and flushed; then it is set again and another field is set, a snapshot sees all
      of that and becomes current, and the server crashes before the next merge and before the configuration is
      saved. */
  ghost predicate Overtaken(c: Codec, fs: seq<Frame>, x: Addr, y: Addr) {
    && c.Lossless() && |fs| == 3 && x != y
    && (forall i :: 0 <= i < 3 ==> Type(fs[i]) == CLIENT_HSET)
    && c.hset(Body(fs[0])) == Hset(x.key, x.field, 0, Some(IntV(0)))
    && c.hset(Body(fs[1])) == Hset(x.key, x.field, 0, Some(IntV(1)))
    && c.hset(Body(fs[2])) == Hset(y.key, y.field, 0, Some(IntV(1)))
  }

  function Executed(c: Codec, db: Db, f: Frame, env: Env): Db {
    ExecMsg(db, c.hset(Body(f)), env).0
  }

  /** The store after the three commands. */
  function OvertakenDb(c: Codec, fs: seq<Frame>, env: Env): Db
    requires |fs| == 3
  {
    Executed(c, Executed(c, Executed(c, map[], fs[0], env), fs[1], env), fs[2], env)
  }

  function OvertakenRun(c: Codec, fs: seq<Frame>, keys: seq<bytes>, env: Env): (r: seq<State>)
    requires |fs| == 3 && AllFit(c, OvertakenDb(c, fs, env), keys)
    ensures |r| == 7
  {
    var db1 := Executed(c, map[], fs[0], env);
    var db2 := Executed(c, db1, fs[1], env);
    var db3 := OvertakenDb(c, fs, env);
    var dump := Dump(c, db3, keys);
    var files: Files, pos := [[fs[0]]], CurPos([[fs[0]]]);
    var h := History(fs, 0, 0, 0, 0);
    [INIT,
     State(Node(db1, [fs[0]], None, None, [[]], map[], None, None), h.(log := fs[..1])),
     State(Node(db1, [], None, None, files, map[], None, None), h.(log := fs[..1])),
     State(Node(db2, [fs[1]], None, None, files, map[], None, None), h.(log := fs[..2])),
     State(Node(db3, fs[1..], None, None, files, map[], None, None), h),
     State(Node(db3, fs[1..], Some(Child(dump, pos)), None, files, map[], None, None), h.(childSeen := 3)),
     State(Node(db3, fs[1..], None, Some(pos), files, map[], Some(dump), None), h.(seen := 3, childSeen := 3))]
  }

  lemma OvertakenValues(c: Codec, fs: seq<Frame>, x: Addr, y: Addr, keys: seq<bytes>, env: Env)
    requires Overtaken(c, fs, x, y) && AllFit(c, OvertakenDb(c, fs, env), keys)
    ensures var r := OvertakenRun(c, fs, keys, env);
            && Exec(c, r[0], r[1], fs[0], env) && Exec(c, r[2], r[3], fs[1], env) && Exec(c, r[3], r[4], fs[2], env)
            && Values(r[4].n.db) == map[x := Int(1), y := Int(1)]
  {
    OvertakenDbs(c, fs, x, y, env);
    assert fs[..2] == fs[..1] + [fs[1]] && fs == fs[..2] + [fs[2]] && fs[1..] == [fs[1]] + [fs[2]];
    assert [] + [fs[0]] == fs[..1] == [fs[0]];
    hide ExecMsg, Values, Dump;
  }

  lemma OvertakenDbs(c: Codec, fs: seq<Frame>, x: Addr, y: Addr, env: Env)
    requires Overtaken(c, fs, x, y)
    ensures var db1 := Executed(c, map[], fs[0], env);
            var db2 := Executed(c, db1, fs[1], env);
            && ExecMsg(map[], c.hset(Body(fs[0])), env).1.Accepted?
            && ExecMsg(db1, c.hset(Body(fs[1])), env).1.Accepted?
            && ExecMsg(db2, c.hset(Body(fs[2])), env).1.Accepted?
            && Values(Executed(c, db2, fs[2], env)) == map[x := Int(1), y := Int(1)]
  {
    var db1 := Executed(c, map[], fs[0], env);
    var db2 := Executed(c, db1, fs[1], env);
    ExecMsgMeaning(map[], c.hset(Body(fs[0])), env);
    ExecMsgMeaning(db1, c.hset(Body(fs[1])), env);
    ExecMsgMeaning(db2, c.hset(Body(fs[2])), env);
    hide ExecMsg, Dump;
    assert Values(map[]) == map[];
  }

  lemma OvertakenSteps(c: Codec, rotate: nat, fs: seq<Frame>, x: Addr, y: Addr, keys: seq<bytes>, env: Env)
    requires Overtaken(c, fs, x, y) && rotate > 0
    requires Enumerates(keys, OvertakenDb(c, fs, env)) && AllFit(c, OvertakenDb(c, fs, env), keys)
    ensures var r := OvertakenRun(c, fs, keys, env);
            && r[0] == INIT && Exec(c, r[0], r[1], fs[0], env) && Cron(rotate, r[1], r[2])
            && Exec(c, r[2], r[3], fs[1], env) && Exec(c, r[3], r[4], fs[2], env)
            && Fork(c, r[4], r[5], keys) && Finish(r[5], r[6], true)
  {
    var r := OvertakenRun(c, fs, keys, env);
    OvertakenValues(c, fs, x, y, keys, env);
    hide Exec, ExecMsg, Executed, Dump, Enumerates, CurPos;
    assert Cron(rotate, r[1], r[2]) by {
      assert Concat<byte>([]) == [];
      assert [fs[0]][..1] == [fs[0]] && [fs[0]][1..] == [];
      assert [[]][0 := [] + [fs[0]]] == [[fs[0]]];
    }
    assert r[4].n.db != map[] by {
      assert x in Values(r[4].n.db);
    }
  }

  lemma OvertakenIsRun(c: Codec, rotate: nat, fs: seq<Frame>, x: Addr, y: Addr, keys: seq<bytes>, env: Env)
    requires Overtaken(c, fs, x, y) && rotate > 0
    requires Enumerates(keys, OvertakenDb(c, fs, env)) && AllFit(c, OvertakenDb(c, fs, env), keys)
    ensures Run(c, rotate, OvertakenRun(c, fs, keys, env))
  {
    var r := OvertakenRun(c, fs, keys, env);
    OvertakenSteps(c, rotate, fs, x, y, keys, env);
    hide OvertakenRun, Overtaken, Exec, Cron, Fork, Finish, SaveConf, Restart, Enumerates;
    forall i | 0 <= i < |r| - 1
      ensures Next(c, rotate, r[i], r[i + 1])
    {
      assert i == 0 || i == 1 || i == 2 || i == 3 || i == 4 || i == 5;
    }
  }

  /** Without the first proviso recovery can yield a store that never existed: here one field is rolled back and the
      other is not. */
  lemma UndrainedRecoveryMixes(c: Codec, rotate: nat, fs: seq<Frame>, x: Addr, y: Addr, keys: seq<bytes>, env: Env,
                               clock: nat -> Env)
    requires Overtaken(c, fs, x, y) && rotate > 0
    requires Enumerates(keys, OvertakenDb(c, fs, env)) && AllFit(c, OvertakenDb(c, fs, env), keys)
    requires Readable(OvertakenRun(c, fs, keys, env)[6].n)
    ensures Run(c, rotate, OvertakenRun(c, fs, keys, env))
    ensures var s := OvertakenRun(c, fs, keys, env)[6];
            var db := Recover(c, s.n, clock);
            && db.Some? && Values(db.value) == map[x := Int(0), y := Int(1)]
            && forall i :: 0 <= i <= |s.h.log| ==> Values(db.value) != StateAt(c, s.h.log, i)
  {
    OvertakenIsRun(c, rotate, fs, x, y, keys, env);
    OvertakenDisk(c, fs, x, y, keys, env);
    OvertakenStates(c, fs, x, y);
    OvertakenReplay(c, fs, x, y);
    hide OvertakenRun, Overtaken, Recover, Run, StateAt, Readable, DumpVals, Accepts, Apply, Command, Enumerates;
    RecoverFirst(c, OvertakenRun(c, fs, keys, env)[6].n, fs[0], clock);
  }

  /** The first of the three commands, replayed over the store after all three. */
  lemma OvertakenReplay(c: Codec, fs: seq<Frame>, x: Addr, y: Addr)
    requires Overtaken(c, fs, x, y)
    ensures var vals: Vals := map[x := Int(1), y := Int(1)];
            && Accepts(vals, Command(c, fs[0]))
            && Apply(vals, Command(c, fs[0])) == map[x := Int(0), y := Int(1)]
  {
  }

  lemma OvertakenDisk(c: Codec, fs: seq<Frame>, x: Addr, y: Addr, keys: seq<bytes>, env: Env)
    requires Overtaken(c, fs, x, y)
    requires Enumerates(keys, OvertakenDb(c, fs, env)) && AllFit(c, OvertakenDb(c, fs, env), keys)
    ensures var s := OvertakenRun(c, fs, keys, env)[6];
            && s.n.files == [[fs[0]]] && s.n.torn == map[] && s.n.confDisk == None && s.h.log == fs
            && DumpVals(c, s.n.dump) == map[x := Int(1), y := Int(1)]
  {
    OvertakenValues(c, fs, x, y, keys, env);
    OvertakenStates(c, fs, x, y);
    hide ExecMsg, Executed, Dump, Enumerates, Replay, ParseAll, CurPos;
    assert fs[..3] == fs;
    DumpShowsStore(c, OvertakenDb(c, fs, env), Commands(c, fs), keys);
  }

  /** Recovery of a disk whose log is one frame, replayed from the start over the database file. */
  lemma RecoverFirst(c: Codec, n: Node, f: Frame, clock: nat -> Env)
    requires Readable(n) && n.files == [[f]] && n.torn == map[] && n.confDisk == None && Accepts(DumpVals(c, n.dump), Command(c, f))
    ensures var db := Recover(c, n, clock);
            db.Some? && Values(db.value) == Apply(DumpVals(c, n.dump), Command(c, f))
  {
    LoadDumpExact(c, n.dump);
    var p := Pos(0, 0);
    assert Concat(n.files) == [f] by { ConcatOne([f]); }
    assert Commands(c, [f]) == [Command(c, f)];
    assert Boundary(n.files, p) && Index(n.files, p) == 0 && Concat(n.files)[0..] == [f];
    ReadableFiles(n);
    hide ReplayFiles, LoadDump, Readable, ReadableFrom, Replay, AllAccepted;
    ReplayOne(DumpVals(c, n.dump), Command(c, f));
    ReplayFilesExact(c, LoadDump(c, n.dump).value, n.files, n.torn, p, clock);
  }

  lemma ReadableFiles(n: Node)
    requires Readable(n)
    ensures ReadableFrom(n.files, n.torn, StartPos(n.confDisk).file, StartPos(n.confDisk).off)
  {
  }

  lemma OvertakenStates(c: Codec, fs: seq<Frame>, x: Addr, y: Addr)
    requires Overtaken(c, fs, x, y)
    ensures forall i :: 0 <= i <= 3 ==> StateAt(c, fs, i) != map[x := Int(0), y := Int(1)]
    ensures StateAt(c, fs, 3) == map[x := Int(1), y := Int(1)]
  {
    var h := Commands(c, fs);
    forall i | 0 <= i <= 3
      ensures Commands(c, fs[..i]) == h[..i]
    {
    }
    var s1 := Apply(map[], h[0]);
    var s2 := Apply(s1, h[1]);
    var s3 := Apply(s2, h[2]);
    ReplaySteps(h);
    assert s1 == map[x := Int(0)] && s2 == map[x := Int(1)] && s3 == map[x := Int(1), y := Int(1)];
    hide Replay, Apply;
    assert x in s1 && y !in s1 && y !in s2 && s3[x] == Int(1);
  }

  lemma ReplaySteps(h: seq<Hset>)
    requires |h| == 3
    ensures Replay(map[], h[..0]) == map[] && Replay(map[], h[..1]) == Apply(map[], h[0])
    ensures Replay(map[], h[..2]) == Apply(Apply(map[], h[0]), h[1])
    ensures Replay(map[], h[..3]) == Apply(Apply(Apply(map[], h[0]), h[1]), h[2])
  {
    assert h[..1] == [] + [h[0]] && h[..2] == h[..1] + [h[1]] && h[..3] == h[..2] + [h[2]];
    ReplayConcat(map[], h[..1], [h[1]]);
    ReplayConcat(map[], h[..2], [h[2]]);
    assert [h[0]][1..] == [] && [h[1]][1..] == [] && [h[2]][1..] == [];
  }
}
