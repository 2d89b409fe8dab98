/** Workers feeding the double buffer concurrently with the cron that swaps and merges it.

    `backlogFeed` is four steps another thread can interleave with: load the active half, load the command counter,
    increment it, append the record. The cron is one step. */
module FeedRuns {
  import opened Seqs
  import opened Wire
  import opened Merge

  /** How far a worker's feed has got. `since` is the number of swaps when it loaded the half, `loaded` and
      `counted` the times of its load and increment of the counter. */
  datatype Phase =
    | Idle
    | Located(half: nat, since: nat)
    | Numbered(half: nat, since: nat, id: u64, loaded: nat)
    | Counted(half: nat, since: nat, id: u64, loaded: nat, counted: nat)

  /** A finished feed; `missed` is the number of swaps that happened while it was under way and `kept` says
      whether its record landed in the half that was active at that moment. */
  datatype Op = Op(entry: Entry, loaded: nat, counted: nat, missed: nat, kept: bool)

  /** `hist` is the value of the counter before each step so far; times are indices into it. */
  datatype State = State(
    pos: nat, halves: seq<seq<seq<Entry>>>, incr: u64, phase: seq<Phase>,
    ops: seq<seq<Op>>, out: seq<Fed>, swaps: nat, hist: seq<u64>)

  predicate Shape(s: State) {
    && s.pos < 2 && |s.halves| == 2 && |s.halves[0]| == |s.halves[1]| == |s.phase| == |s.ops|
  }

  function Tick(s: State): State {
    s.(hist := s.hist + [s.incr])
  }

  predicate Locate(s: State, s': State, w: nat) {
    Shape(s) && w < |s.phase| && s.phase[w].Idle? &&
    s' == Tick(s).(phase := s.phase[w := Located(s.pos, s.swaps)])
  }

  predicate Number(s: State, s': State, w: nat) {
    Shape(s) && w < |s.phase| && s.phase[w].Located? &&
    s' == Tick(s).(phase := s.phase[w := Numbered(s.phase[w].half, s.phase[w].since, s.incr, |s.hist|)])
  }

  predicate Count(s: State, s': State, w: nat) {
    Shape(s) && w < |s.phase| && s.phase[w].Numbered? && s.incr + 1 < 0x1_0000_0000_0000_0000 &&
    var p := s.phase[w];
    s' == Tick(s).(incr := s.incr + 1, phase := s.phase[w := Counted(p.half, p.since, p.id, p.loaded, |s.hist|)])
  }

  predicate Append(s: State, s': State, w: nat, frame: Frame) {
    Shape(s) && w < |s.phase| && s.phase[w].Counted? && s.phase[w].half < 2 && s.phase[w].since <= s.swaps &&
    var p := s.phase[w];
    var entry, half := Entry(p.id, frame), s.halves[p.half];
    s' == Tick(s).(
      halves := s.halves[p.half := half[w := half[w] + [entry]]],
      ops := s.ops[w := s.ops[w] + [Op(entry, p.loaded, p.counted, s.swaps - p.since, p.half == s.pos)]],
      phase := s.phase[w := Idle])
  }

  /** The inactive half is cleared and becomes active; the other one is merged. Which sorted interleaving the sort
      makes of records with equal ids is left open; `MergeRounds` shows that the merge loop makes one. */
  ghost predicate Cron(s: State, s': State, batch: seq<Fed>) {
    Shape(s) && Interleaves(s.halves[s.pos], batch) && Sorted(batch) && s' == AfterCron(s, batch)
  }

  function AfterCron(s: State, batch: seq<Fed>): State
    requires Shape(s)
  {
    Tick(s).(
      pos := 1 - s.pos, swaps := s.swaps + 1, out := s.out + batch,
      halves := s.halves[1 - s.pos := seq(|s.phase|, _ => [])])
  }

  ghost predicate Next(s: State, s': State) {
    || (exists w :: Locate(s, s', w))
    || (exists w :: Number(s, s', w))
    || (exists w :: Count(s, s', w))
    || (exists w, frame :: Append(s, s', w, frame))
    || (exists batch :: Cron(s, s', batch))
  }

  predicate Init(s: State) {
    && Shape(s) && s.pos == 0 && s.incr == 0 && s.out == [] && s.swaps == 0 && s.hist == []
    && (forall w :: 0 <= w < |s.phase| ==> s.phase[w] == Idle && s.ops[w] == [] && s.halves[0][w] == [])
  }

  ghost predicate Run(r: seq<State>) {
    r != [] && Init(r[0]) && forall i :: 0 <= i < |r| - 1 ==> Next(r[i], r[i + 1])
  }

  // ---- What every run keeps ----

  function Kept(ops: seq<Op>): seq<Entry> {
    if ops == [] then []
    else Kept(ops[..|ops| - 1]) + (if ops[|ops| - 1].kept then [ops[|ops| - 1].entry] else [])
  }

  function Entries(ops: seq<Op>): seq<Entry> {
    seq(|ops|, i requires 0 <= i < |ops| => ops[i].entry)
  }

  /** Exactly once: per worker, what was merged so far followed by what waits in the active half is exactly the
      sequence of records it appended to a half while that half was active. */
  ghost predicate Conserved(s: State)
    requires Shape(s)
  {
    && (forall x :: x in s.out ==> x.tid < |s.phase|)
    && (forall w :: 0 <= w < |s.phase| ==> Project(s.out, w) + s.halves[s.pos][w] == Kept(s.ops[w]))
  }

  /** A record is dropped exactly when an odd number of swaps overtook its feed. */
  ghost predicate Parity(s: State)
    requires Shape(s)
  {
    && s.pos == s.swaps % 2
    && (forall w :: 0 <= w < |s.phase| && !s.phase[w].Idle? ==>
          s.phase[w].since <= s.swaps && s.phase[w].half == s.phase[w].since % 2)
    && (forall w, i :: 0 <= w < |s.ops| && 0 <= i < |s.ops[w]| ==>
          (s.ops[w][i].kept <==> s.ops[w][i].missed % 2 == 0))
  }

  /** The counter just before step `t`. */
  function Counter(s: State, t: nat): u64 {
    if t < |s.hist| then s.hist[t] else s.incr
  }

  ghost predicate Monotone(s: State) {
    forall i, j :: 0 <= i <= j <= |s.hist| ==> Counter(s, i) <= Counter(s, j)
  }

  predicate LoadedAt(s: State, id: u64, loaded: nat) {
    loaded < |s.hist| && s.hist[loaded] == id
  }

  predicate CountedAt(s: State, id: u64, counted: nat) {
    counted < |s.hist| && id < Counter(s, counted + 1)
  }

  /** The time stamps say when the counter had which value, and a worker's feeds follow one another. */
  ghost predicate Stamped(s: State)
    requires Shape(s)
  {
    && Monotone(s)
    && (forall w, i :: 0 <= w < |s.ops| && 0 <= i < |s.ops[w]| ==>
          LoadedAt(s, s.ops[w][i].entry.id, s.ops[w][i].loaded) && CountedAt(s, s.ops[w][i].entry.id, s.ops[w][i].counted))
    && (forall w, i, j :: 0 <= w < |s.ops| && 0 <= i < j < |s.ops[w]| ==> s.ops[w][i].counted < s.ops[w][j].loaded)
    && (forall w :: 0 <= w < |s.phase| && (s.phase[w].Numbered? || s.phase[w].Counted?) ==>
          LoadedAt(s, s.phase[w].id, s.phase[w].loaded))
    && (forall w :: 0 <= w < |s.phase| && s.phase[w].Counted? ==> CountedAt(s, s.phase[w].id, s.phase[w].counted))
    && (forall w, i :: 0 <= w < |s.phase| && (s.phase[w].Numbered? || s.phase[w].Counted?) && 0 <= i < |s.ops[w]| ==>
          s.ops[w][i].counted < s.phase[w].loaded)
  }

  ghost predicate Inv(s: State) {
    Shape(s) && Conserved(s) && Parity(s) && Stamped(s)
  }

  lemma KeptAppend(ops: seq<Op>, op: Op)
    ensures Kept(ops + [op]) == Kept(ops) + (if op.kept then [op.entry] else [])
  {
    assert (ops + [op])[..|ops|] == ops;
  }

  lemma AppendKeeps(s: State, s': State, w: nat, frame: Frame)
    requires Inv(s) && Append(s, s', w, frame)
    ensures Shape(s') && Conserved(s')
  {
    hide Kept, Project;
    var p := s.phase[w];
    KeptAppend(s.ops[w], Op(Entry(p.id, frame), p.loaded, p.counted, s.swaps - p.since, p.half == s.pos));
    forall u | 0 <= u < |s'.phase|
      ensures Project(s'.out, u) + s'.halves[s'.pos][u] == Kept(s'.ops[u])
    {
      if u == w && p.half == s.pos {
        Assoc(Project(s.out, u), s.halves[s.pos][u], [Entry(p.id, frame)]);
      } else if u == w {
        assert Kept(s'.ops[w]) == Kept(s.ops[w]) + [];
      }
    }
  }

  lemma CronKeeps(s: State, s': State, batch: seq<Fed>)
    requires Inv(s) && Cron(s, s', batch)
    ensures Shape(s') && Conserved(s')
  {
    hide Kept, Project;
    forall w | 0 <= w < |s'.phase|
      ensures Project(s'.out, w) + s'.halves[s'.pos][w] == Kept(s'.ops[w])
    {
      ProjectConcat(s.out, batch, w);
      assert Project(s'.out, w) + [] == Project(s'.out, w);
    }
  }

  lemma TickMonotone(s: State, s': State)
    requires Monotone(s) && s'.hist == s.hist + [s.incr] && s'.incr >= s.incr
    ensures Monotone(s')
    ensures forall t :: 0 <= t <= |s.hist| ==> Counter(s', t) == Counter(s, t)
    ensures forall id, t :: LoadedAt(s, id, t) ==> LoadedAt(s', id, t)
    ensures forall id, t :: CountedAt(s, id, t) ==> CountedAt(s', id, t)
  {
    forall i, j | 0 <= i <= j <= |s'.hist|
      ensures Counter(s', i) <= Counter(s', j)
    {
      if j <= |s.hist| {
        assert Counter(s, i) <= Counter(s, j);
      } else if i <= |s.hist| {
        assert Counter(s, i) <= Counter(s, |s.hist|);
      }
    }
  }

  lemma LocateKeeps(s: State, s': State, w: nat)
    requires Inv(s) && Locate(s, s', w)
    ensures Inv(s')
  {
    hide Kept, Project, LoadedAt, CountedAt, Monotone;
    TickMonotone(s, s');
  }

  lemma NumberKeeps(s: State, s': State, w: nat)
    requires Inv(s) && Number(s, s', w)
    ensures Inv(s')
  {
    hide Kept, Project, CountedAt, Monotone;
    TickMonotone(s, s');
    forall i | 0 <= i < |s.ops[w]|
      ensures s.ops[w][i].counted < |s.hist|
    {
      CountedInPast(s, s.ops[w][i].entry.id, s.ops[w][i].counted);
    }
  }

  lemma CountedInPast(s: State, id: u64, counted: nat)
    requires CountedAt(s, id, counted)
    ensures counted < |s.hist|
  {
  }

  lemma CountKeeps(s: State, s': State, w: nat)
    requires Inv(s) && Count(s, s', w)
    ensures Inv(s')
  {
    hide Kept, Project;
    TickMonotone(s, s');
    assert CountedAt(s', s.phase[w].id, |s.hist|) by {
      assert Counter(s, s.phase[w].loaded) <= Counter(s, |s.hist|);
    }
    hide LoadedAt, CountedAt, Monotone;
  }

  lemma AppendStamped(s: State, s': State, w: nat, frame: Frame)
    requires Inv(s) && Append(s, s', w, frame)
    ensures Shape(s') && Parity(s') && Stamped(s')
  {
    hide Kept, Project, LoadedAt, CountedAt, Monotone;
    TickMonotone(s, s');
  }

  lemma CronStamped(s: State, s': State, batch: seq<Fed>)
    requires Inv(s) && Cron(s, s', batch)
    ensures Shape(s') && Parity(s') && Stamped(s')
  {
    hide Kept, Project, LoadedAt, CountedAt, Monotone, Interleaves;
    TickMonotone(s, s');
  }

  /** One step of any thread keeps all of it. */
  lemma NextKeeps(s: State, s': State)
    requires Inv(s) && Next(s, s')
    ensures Inv(s')
  {
    hide Locate, Number, Count, Append, Cron, Conserved, Parity, Stamped;
    if w: nat :| Locate(s, s', w) {
      LocateKeeps(s, s', w);
    } else if w: nat :| Number(s, s', w) {
      NumberKeeps(s, s', w);
    } else if w: nat :| Count(s, s', w) {
      CountKeeps(s, s', w);
    } else if w: nat, frame :| Append(s, s', w, frame) {
      AppendKeeps(s, s', w, frame);
      AppendStamped(s, s', w, frame);
    } else {
      var batch :| Cron(s, s', batch);
      CronKeeps(s, s', batch);
      CronStamped(s, s', batch);
    }
  }

  /** Main result on feeding, for every interleaving of every number of workers with the cron: what was merged and
      what waits in the active half is exactly what was appended to a half while it was active; a record misses that
      exactly if an odd number of swaps overtook its feed; and every id is the counter as its feed loaded it. */
  lemma {:induction false} RunKeeps(r: seq<State>)
    requires Run(r)
    ensures forall i :: 0 <= i < |r| ==> Inv(r[i])
    decreases |r|
  {
    if |r| > 1 {
      var q := r[..|r| - 1];
      forall i | 0 <= i < |q| - 1
        ensures Next(q[i], q[i + 1])
      {
        assert q[i] == r[i] && q[i + 1] == r[i + 1];
      }
      RunKeeps(q);
      assert r[|r| - 2] == q[|q| - 1];
      NextKeeps(r[|r| - 2], r[|r| - 1]);
    }
  }

  /** ids respect real time across workers, and are strictly increasing within one. */
  lemma RealTime(s: State, v: nat, i: nat, w: nat, j: nat)
    requires Inv(s) && v < |s.ops| && w < |s.ops| && i < |s.ops[v]| && j < |s.ops[w]|
    requires s.ops[v][i].counted < s.ops[w][j].loaded || (v == w && i < j)
    ensures s.ops[v][i].entry.id < s.ops[w][j].entry.id
  {
    var a, b := s.ops[v][i], s.ops[w][j];
    assert a.counted < b.loaded;
    assert CountedAt(s, a.entry.id, a.counted) && LoadedAt(s, b.entry.id, b.loaded);
    assert Counter(s, a.counted + 1) <= Counter(s, b.loaded);
  }

  // ---- Runs in which no feed straddles a swap ----

  /** A step in which the cron runs only between feeds. */
  ghost predicate QuietNext(s: State, s': State) {
    Next(s, s') && ((exists batch :: Cron(s, s', batch)) ==> forall w :: 0 <= w < |s.phase| ==> s.phase[w].Idle?)
  }

  ghost predicate QuietRun(r: seq<State>) {
    Run(r) && forall i :: 0 <= i < |r| - 1 ==> QuietNext(r[i], r[i + 1])
  }

  /** Nothing was dropped, the merged log is sorted by id across all rounds, and all that is still to come has a
      larger id than all of it. */
  ghost predicate Quiet(s: State)
    requires Shape(s)
  {
    && (forall w :: 0 <= w < |s.phase| && !s.phase[w].Idle? ==> s.phase[w].since == s.swaps)
    && (forall w, i :: 0 <= w < |s.ops| && 0 <= i < |s.ops[w]| ==> s.ops[w][i].missed == 0)
    && Sorted(s.out)
    && (forall x :: x in s.out ==> x.entry.id < s.incr)
    && (forall x, w :: x in s.out && 0 <= w < |s.phase| && (s.phase[w].Numbered? || s.phase[w].Counted?) ==>
          x.entry.id < s.phase[w].id)
    && (forall x, w, e :: x in s.out && 0 <= w < |s.phase| && e in s.halves[s.pos][w] ==> x.entry.id < e.id)
    && (forall w, e :: 0 <= w < |s.phase| && e in s.halves[s.pos][w] ==> e.id < s.incr)
    && (forall w :: 0 <= w < |s.phase| && s.phase[w].Counted? ==> s.phase[w].id < s.incr)
  }

  lemma QuietAppend(s: State, s': State, w: nat, frame: Frame)
    requires Inv(s) && Quiet(s) && Append(s, s', w, frame)
    ensures Shape(s') && Quiet(s')
  {
    hide Conserved, Parity, Stamped, Sorted;
    var e := Entry(s.phase[w].id, frame);
    forall u, x | 0 <= u < |s'.phase| && x in s'.halves[s'.pos][u]
      ensures x in s.halves[s.pos][u] || (u == w && x == e)
    {
    }
  }

  lemma QuietBatch(s: State, batch: seq<Fed>, x: Fed)
    requires Shape(s) && Quiet(s) && Interleaves(s.halves[s.pos], batch) && x in batch
    ensures x.entry.id < s.incr
    ensures forall y :: y in s.out ==> y.entry.id < x.entry.id
  {
    var k :| 0 <= k < |batch| && batch[k] == x;
    ProjectHas(batch, k);
    hide Project, Sorted;
    assert x.entry in s.halves[s.pos][x.tid];
  }

  lemma SortedConcat(a: seq<Fed>, b: seq<Fed>)
    requires Sorted(a) && Sorted(b) && forall x, y :: x in a && y in b ==> x.entry.id < y.entry.id
    ensures Sorted(a + b)
  {
  }

  lemma QuietCron(s: State, s': State, batch: seq<Fed>)
    requires Inv(s) && Quiet(s) && Cron(s, s', batch)
    requires forall w :: 0 <= w < |s.phase| ==> s.phase[w].Idle?
    ensures Shape(s') && Quiet(s')
  {
    hide Conserved, Parity, Stamped, Sorted, Interleaves;
    forall x | x in batch
      ensures x.entry.id < s.incr
      ensures forall y :: y in s.out ==> y.entry.id < x.entry.id
    {
      QuietBatch(s, batch, x);
    }
    SortedConcat(s.out, batch);
  }

  /** A feed that has not appended yet holds an id no smaller than the counter was at any earlier merge. */
  lemma QuietPhase(s: State, s': State, w: nat)
    requires Inv(s) && Quiet(s) && (Locate(s, s', w) || Number(s, s', w))
    ensures Quiet(s')
  {
    hide Conserved, Parity, Stamped, Sorted;
  }

  lemma QuietCount(s: State, s': State, w: nat)
    requires Inv(s) && Quiet(s) && Count(s, s', w)
    ensures Quiet(s')
  {
    StampedPhase(s, w);
    hide Conserved, Parity, Stamped, Sorted;
  }

  lemma QuietKeeps(s: State, s': State)
    requires Inv(s) && Quiet(s) && QuietNext(s, s')
    ensures Inv(s') && Quiet(s')
  {
    NextKeeps(s, s');
    hide Conserved, Parity, Stamped, Quiet, Locate, Number, Count, Append, Cron;
    if w: nat :| Locate(s, s', w) {
      QuietPhase(s, s', w);
    } else if w: nat :| Number(s, s', w) {
      QuietPhase(s, s', w);
    } else if w: nat :| Count(s, s', w) {
      QuietCount(s, s', w);
    } else if w: nat, frame :| Append(s, s', w, frame) {
      QuietAppend(s, s', w, frame);
    } else {
      var batch :| Cron(s, s', batch);
      QuietCron(s, s', batch);
    }
  }

  lemma StampedPhase(s: State, w: nat)
    requires Inv(s) && w < |s.phase| && s.phase[w].Numbered?
    ensures LoadedAt(s, s.phase[w].id, s.phase[w].loaded)
    ensures Counter(s, s.phase[w].loaded) <= Counter(s, |s.hist|)
  {
  }

  lemma {:induction false} AllKept(ops: seq<Op>)
    requires forall i :: 0 <= i < |ops| ==> ops[i].kept
    ensures Kept(ops) == Entries(ops)
    decreases |ops|
  {
    if ops != [] {
      AllKept(ops[..|ops| - 1]);
      assert Entries(ops) == Entries(ops[..|ops| - 1]) + [ops[|ops| - 1].entry];
    }
  }

  /** In a quiet state nothing was dropped. */
  lemma QuietKeepsAll(s: State)
    requires Inv(s) && Quiet(s)
    ensures Sorted(s.out)
    ensures forall w :: 0 <= w < |s.phase| ==> Project(s.out, w) + s.halves[s.pos][w] == Entries(s.ops[w])
  {
    hide Kept, Project, Stamped, Sorted;
    forall w | 0 <= w < |s.phase|
      ensures Kept(s.ops[w]) == Entries(s.ops[w])
    {
      AllKept(s.ops[w]);
    }
  }

  lemma InitQuiet(s: State)
    requires Init(s)
    ensures Inv(s) && Quiet(s)
  {
  }

  /** If the cron runs only between feeds, every command fed is merged exactly once over all rounds, in worker order
      and in non-decreasing id order overall. */
  lemma {:induction false} QuietRunMergesAll(r: seq<State>)
    requires QuietRun(r)
    ensures var s := r[|r| - 1];
            && Inv(s) && Quiet(s) && Sorted(s.out)
            && forall w :: 0 <= w < |s.phase| ==> Project(s.out, w) + s.halves[s.pos][w] == Entries(s.ops[w])
    decreases |r|
  {
    hide Kept, Project, Conserved, Parity, Stamped, Quiet, Sorted, Next, Init;
    var s := r[|r| - 1];
    if |r| == 1 {
      InitQuiet(s);
    } else {
      var q := r[..|r| - 1];
      forall i | 0 <= i < |q| - 1
        ensures Next(q[i], q[i + 1]) && QuietNext(q[i], q[i + 1])
      {
        assert q[i] == r[i] && q[i + 1] == r[i + 1];
        assert QuietNext(r[i], r[i + 1]);
      }
      QuietRunMergesAll(q);
      assert r[|r| - 2] == q[|q| - 1];
      assert QuietNext(r[|r| - 2], r[|r| - 2 + 1]);
      QuietKeeps(r[|r| - 2], s);
    }
    QuietKeepsAll(s);
  }

  lemma InFirstPart(x: seq<Entry>, y: seq<Entry>, i: nat)
    requires i < |x + y| && (x + y)[i] !in y
    ensures i < |x| && (x + y)[i] == x[i]
  {
  }

  /** The merged log respects real time: if a command is in it, then so is, before it, every command whose feed had
      drawn its id when the other's feed looked at the counter, and every earlier command of the same worker. */
  lemma LogOrder(r: seq<State>, v: nat, i: nat, w: nat, j: nat, b: nat) returns (a: nat)
    requires QuietRun(r)
    requires var s := r[|r| - 1];
             && v < |s.ops| && w < |s.ops| && i < |s.ops[v]| && j < |s.ops[w]|
             && (s.ops[v][i].counted < s.ops[w][j].loaded || (v == w && i < j))
             && b < |s.out| && s.out[b] == Fed(w, s.ops[w][j].entry)
    ensures var s := r[|r| - 1];
            a < b && s.out[a] == Fed(v, s.ops[v][i].entry)
  {
    var s := r[|r| - 1];
    QuietRunMergesAll(r);
    RealTime(s, v, i, w, j);
    hide Run, QuietRun, Project, Conserved, Parity, Stamped;
    var e, merged, waiting := s.ops[v][i].entry, Project(s.out, v), s.halves[s.pos][v];
    assert s.out[b] in s.out;
    assert (merged + waiting)[i] == e && e !in waiting;
    InFirstPart(merged, waiting, i);
    a := ProjectFrom(s.out, v, i);
  }

  /** One worker, one feed, one swap in the middle of it and one after it. */
  function Straddled(frame: Frame): (r: seq<State>)
    ensures |r| == 7
  {
    var e := Entry(0, frame);
    var op := Op(e, 1, 2, 1, false);
    [State(0, [[[]], [[]]], 0, [Idle], [[]], [], 0, []),
     State(0, [[[]], [[]]], 0, [Located(0, 0)], [[]], [], 0, [0]),
     State(0, [[[]], [[]]], 0, [Numbered(0, 0, 0, 1)], [[]], [], 0, [0, 0]),
     State(0, [[[]], [[]]], 1, [Counted(0, 0, 0, 1, 2)], [[]], [], 0, [0, 0, 0]),
     State(1, [[[]], [[]]], 1, [Counted(0, 0, 0, 1, 2)], [[]], [], 1, [0, 0, 0, 1]),
     State(1, [[[e]], [[]]], 1, [Idle], [[op]], [], 1, [0, 0, 0, 1, 1]),
     State(0, [[[]], [[]]], 1, [Idle], [[op]], [], 2, [0, 0, 0, 1, 1, 1])]
  }

  lemma StraddledFeeds(frame: Frame)
    ensures var r := Straddled(frame); Next(r[0], r[1]) && Next(r[1], r[2]) && Next(r[2], r[3])
  {
    var r := Straddled(frame);
    assert Locate(r[0], r[1], 0);
    assert Number(r[1], r[2], 0);
    assert Count(r[2], r[3], 0);
  }

  lemma StraddledAppends(frame: Frame)
    ensures var r := Straddled(frame); Next(r[4], r[5])
  {
    var s, s' := Straddled(frame)[4], Straddled(frame)[5];
    var e := Entry(0, frame);
    var op := Op(e, 1, 2, 1, false);
    assert s.halves[0][0] + [e] == [e] && s.ops[0] + [op] == [op];
    assert s.halves[0][0 := [e]] == [[e]] && s.ops[0 := [op]] == [[op]];
    assert s.halves[0 := [[e]]] == [[[e]], [[]]] && s.phase[0 := Idle] == [Idle];
    assert Append(s, s', 0, frame);
  }

  lemma StraddledSwaps(frame: Frame)
    ensures var r := Straddled(frame); Next(r[3], r[4]) && Next(r[5], r[6])
  {
    var r := Straddled(frame);
    var cleared: seq<seq<Entry>> := seq(1, _ => []);
    assert cleared == [[]];
    assert Cron(r[3], r[4], []);
    assert Cron(r[5], r[6], []);
    hide Cron, Locate, Number, Count, Append;
  }

  /** A feed overtaken by one swap is lost: its record is never emitted, because the half it sits in is cleared
      before it is merged again. */
  lemma StraddlingFeedIsLost(frame: Frame)
    ensures var r := Straddled(frame);
            && Run(r) && |r[6].ops[0]| == 1 && r[6].ops[0][0].entry.frame == frame
            && r[6].out == [] && r[6].halves == [[[]], [[]]]
  {
    var r := Straddled(frame);
    StraddledFeeds(frame);
    StraddledAppends(frame);
    StraddledSwaps(frame);
    hide Next;
    forall i | 0 <= i < |r| - 1
      ensures Next(r[i], r[i + 1])
    {
      assert i == 0 || i == 1 || i == 2 || i == 3 || i == 4 || i == 5;
    }
  }
}
