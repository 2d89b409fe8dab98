/** The store as a flat map, the HSET transition, and what replaying a command log over a store gives. */
module Store {
  import opened Wire
  import opened Messages

  datatype Value =
    | Int(i: int)
    | Float(f: u32)
    | Str(b: bytes)
    | IntList(ints: seq<int>)
    | FloatList(floats: seq<u32>)
    | StrList(strings: seq<bytes>)
    | Dict(entries: map<bytes, bytes>)
  {
    function TypeOf(): FeatureType {
      match this
      case Int(_) => INT
      case Float(_) => FLOAT
      case Str(_) => BYTES
      case IntList(_) => INT_LIST
      case FloatList(_) => FLOAT_LIST
      case StrList(_) => BYTES_LIST
      case Dict(_) => MAP
    }
  }

  /** Times are in milliseconds. */
  datatype Element = Element(encoding: nat, create: int, lru: int, expire: int, value: Value)

  datatype Addr = Addr(key: bytes, field: bytes)

  type Db = map<Addr, Element>

  /** What the command reads from its environment: two clock readings and the encoding field, which a new
      element leaves uninitialised. */
  datatype Env = Env(created: int, touched: int, encoding: nat)

  /** `Crash` is the dereference of a null object pointer. */
  datatype Reply = Accepted | Rejected(found: FeatureType) | Crash

  function ScalarType(v: Scalar): FeatureType {
    match v
    case IntV(_) => INT
    case FloatV(_) => FLOAT
    case BytesV(_) => BYTES
  }

  function Blank(v: Scalar): Value {
    match v
    case IntV(_) => Int(0)
    case FloatV(_) => Float(0)
    case BytesV(_) => Str([])
  }

  function ToValue(v: Scalar): Value {
    match v
    case IntV(i) => Int(i)
    case FloatV(f) => Float(f)
    case BytesV(b) => Str(b)
  }

  /** HSET: a missing field is created with the type of the value given; the value is then set only if the
      types agree. A message without a value crashes the server on a missing field. */
  function ExecMsg(db: Db, h: Hset, env: Env): (Db, Reply) {
    var a := Addr(h.key, h.field);
    if a !in db && h.value.None? then (db, Crash)
    else
      var data :=
        if a in db then db[a]
        else Element(env.encoding, env.created, 0, if h.ttl > 0 then env.created + 1000 * h.ttl else 0, Blank(h.value.value));
      if h.value.Some? && data.value.TypeOf() == ScalarType(h.value.value) then
        (db[a := data.(value := ToValue(h.value.value), lru := env.touched)], Accepted)
      else
        (db[a := data.(lru := env.touched)], Rejected(data.value.TypeOf()))
  }

  // ---- The store up to time stamps ----

  type Vals = map<Addr, Value>

  function Values(db: Db): Vals {
    map a | a in db :: db[a].value
  }

  function At(h: Hset): Addr {
    Addr(h.key, h.field)
  }

  predicate Accepts(vals: Vals, h: Hset) {
    h.value.Some? && (At(h) in vals ==> vals[At(h)].TypeOf() == ScalarType(h.value.value))
  }

  function Apply(vals: Vals, h: Hset): Vals {
    if Accepts(vals, h) then vals[At(h) := ToValue(h.value.value)] else vals
  }

  /** HSET on values: it is last-writer-wins when accepted, and a rejection changes no value. */
  lemma ExecMsgMeaning(db: Db, h: Hset, env: Env)
    ensures var (db', reply) := ExecMsg(db, h, env);
            && Values(db') == Apply(Values(db), h)
            && (reply.Accepted? <==> Accepts(Values(db), h))
            && (reply.Crash? <==> At(h) !in db && h.value.None?)
            && (reply.Rejected? ==> At(h) in db && reply.found == db[At(h)].value.TypeOf())
            && (forall a :: a in db && a != At(h) ==> a in db' && db'[a] == db[a])
  {
    var (db', _) := ExecMsg(db, h, env);
    assert Values(db').Keys == Apply(Values(db), h).Keys;
  }

  /** The element HSET leaves, field by field: value, access time, and what only the creation of a field sets. */
  lemma ExecMsgElement(db: Db, h: Hset, env: Env)
    ensures var (db', reply) := ExecMsg(db, h, env);
            if reply.Crash? then db' == db
            else
              var a := At(h);
              && db'.Keys == db.Keys + {a}
              && db'[a].lru == env.touched
              && (a in db ==>
                    && db'[a].encoding == db[a].encoding && db'[a].create == db[a].create && db'[a].expire == db[a].expire)
              && (a !in db ==>
                    && db'[a].encoding == env.encoding && db'[a].create == env.created
                    && db'[a].expire == if h.ttl > 0 then env.created + 1000 * h.ttl else 0)
              && (reply.Rejected? ==> db'[a].value == db[a].value)
              && (reply.Accepted? ==>
                    match h.value.value
                    case IntV(i) => db'[a].value == Int(i)
                    case FloatV(f) => db'[a].value == Float(f)
                    case BytesV(b) => db'[a].value == Str(b))
    ensures var (_, reply) := ExecMsg(db, h, env);
            && (reply.Crash? <==> h.value.None? && At(h) !in db)
            && (reply.Accepted? <==>
                  h.value.Some? &&
                  (At(h) in db ==>
                     match h.value.value
                     case IntV(_) => db[At(h)].value.Int?
                     case FloatV(_) => db[At(h)].value.Float?
                     case BytesV(_) => db[At(h)].value.Str?))
  {
  }

  function Replay(vals: Vals, log: seq<Hset>): Vals
    decreases |log|
  {
    if log == [] then vals else Replay(Apply(vals, log[0]), log[1..])
  }

  /** Every command of the log is accepted when the log is run from `vals`: only such commands are logged. */
  ghost predicate AllAccepted(vals: Vals, log: seq<Hset>)
    decreases |log|
  {
    log == [] || (Accepts(vals, log[0]) && AllAccepted(Apply(vals, log[0]), log[1..]))
  }

  lemma {:induction false} ReplayConcat(vals: Vals, a: seq<Hset>, b: seq<Hset>)
    ensures Replay(vals, a + b) == Replay(Replay(vals, a), b)
    ensures AllAccepted(vals, a + b) <==> AllAccepted(vals, a) && AllAccepted(Replay(vals, a), b)
    decreases |a|
  {
    if a == [] {
      assert a + b == b;
    } else {
      ReplayConcat(Apply(vals, a[0]), a[1..], b);
      assert (a + b)[1..] == a[1..] + b;
    }
  }

  // ---- Replay as an overlay of last writes ----

  function Writes(log: seq<Hset>): Vals
    decreases |log|
  {
    if log == [] then map[]
    else if log[0].value.None? then Writes(log[1..])
    else map[At(log[0]) := ToValue(log[0].value.value)] + Writes(log[1..])
  }

  lemma {:induction false} WritesConcat(a: seq<Hset>, b: seq<Hset>)
    ensures Writes(a + b) == Writes(a) + Writes(b)
    decreases |a|
  {
    if a == [] {
      assert a + b == b;
    } else {
      WritesConcat(a[1..], b);
      assert (a + b)[1..] == a[1..] + b;
    }
  }

  lemma {:induction false} ReplayIsOverlay(vals: Vals, log: seq<Hset>)
    requires AllAccepted(vals, log)
    ensures Replay(vals, log) == vals + Writes(log)
    decreases |log|
  {
    if log != [] {
      ReplayIsOverlay(Apply(vals, log[0]), log[1..]);
    }
  }

  // ---- Types never change once a field exists ----

  type Types = map<Addr, FeatureType>

  function TypesOf(vals: Vals): Types {
    map a | a in vals :: vals[a].TypeOf()
  }

  ghost predicate Typed(types: Types, vals: Vals) {
    forall a :: a in vals ==> a in types && types[a] == vals[a].TypeOf()
  }

  ghost predicate LogTyped(types: Types, log: seq<Hset>) {
    forall h :: h in log ==> h.value.Some? && At(h) in types && types[At(h)] == ScalarType(h.value.value)
  }

  lemma {:induction false} TypedIsAccepted(types: Types, vals: Vals, log: seq<Hset>)
    requires Typed(types, vals) && LogTyped(types, log)
    ensures AllAccepted(vals, log) && Typed(types, Replay(vals, log))
    decreases |log|
  {
    if log != [] {
      assert log[0] in log;
      TypedIsAccepted(types, Apply(vals, log[0]), log[1..]);
    }
  }

  lemma {:induction false} AcceptedIsTyped(vals: Vals, log: seq<Hset>)
    requires AllAccepted(vals, log)
    ensures var types := TypesOf(Replay(vals, log));
            Typed(types, vals) && LogTyped(types, log)
    decreases |log|
  {
    if log != [] {
      var types, next := TypesOf(Replay(vals, log)), Apply(vals, log[0]);
      AcceptedIsTyped(next, log[1..]);
      assert At(log[0]) in next;
      assert forall a :: a in vals ==> a in next && next[a].TypeOf() == vals[a].TypeOf();
      forall h | h in log
        ensures h.value.Some? && At(h) in types && types[At(h)] == ScalarType(h.value.value)
      {
        assert h == log[0] || h in log[1..];
      }
    }
  }

  /** Main result on the store: a fuzzy checkpoint absorbs the log. Replaying commands `k..n` over the store as it
      was after `s` commands, for any `k <= s <= n`, gives the store after `n` commands, although commands `k..s`
      run twice and the second time over later values; and none of them is rejected or crashes. */
  lemma Absorption(base: Vals, log: seq<Hset>, k: nat, s: nat)
    requires AllAccepted(base, log) && k <= s <= |log|
    ensures AllAccepted(Replay(base, log[..s]), log[k..])
    ensures Replay(Replay(base, log[..s]), log[k..]) == Replay(base, log)
  {
    hide Replay, AllAccepted, Writes;
    var types, mid := TypesOf(Replay(base, log)), Replay(base, log[..s]);
    var x, y, z := log[..k], log[k..s], log[s..];
    AcceptedIsTyped(base, log);
    assert log[..s] == x + y && log[k..] == y + z && log == x + (y + z);
    TypedIsAccepted(types, base, x + y);
    TypedIsAccepted(types, mid, y + z);
    ReplayIsOverlay(base, log);
    ReplayIsOverlay(base, x + y);
    ReplayIsOverlay(mid, y + z);
    WritesConcat(x, y + z);
    WritesConcat(x, y);
    WritesConcat(y, z);
    OverlayAbsorbs(base, Writes(x), Writes(y), Writes(z));
  }

  lemma OverlayAbsorbs(base: Vals, x: Vals, y: Vals, z: Vals)
    ensures base + (x + y) + (y + z) == base + (x + (y + z))
  {
  }

  // ---- Exactly when a replay that stops before the checkpoint is harmless ----

  /** Recovery from a checkpoint taken after `s` commands by replaying commands `k..f`. */
  function Recovered(log: seq<Hset>, k: nat, f: nat, s: nat): Vals
    requires k <= f <= |log| && s <= |log|
  {
    Replay(Replay(map[], log[..s]), log[k..f])
  }

  /** Recovery is exact for every accepted log if and only if it replays nothing or replays past the checkpoint. */
  lemma RecoveredExactly(k: nat, f: nat, s: nat)
    requires k <= f && k <= s
    ensures (forall log: seq<Hset> {:trigger Recovered(log, k, f, s)} ::
               f <= |log| && s <= |log| && AllAccepted(map[], log) ==>
               Recovered(log, k, f, s) == Replay(map[], log[..if f < s then s else f]))
            <==> (k == f || f >= s)
  {
    if k == f || f >= s {
      forall log: seq<Hset> {:trigger Recovered(log, k, f, s)} | f <= |log| && s <= |log| && AllAccepted(map[], log)
        ensures Recovered(log, k, f, s) == Replay(map[], log[..if f < s then s else f])
      {
        if k == f && f < s {
          assert log[k..f] == [];
        } else {
          assert log == log[..f] + log[f..];
          ReplayConcat(map[], log[..f], log[f..]);
          Absorption(map[], log[..f], k, s);
          assert log[..f][..s] == log[..s] && log[..f][k..] == log[k..f];
        }
      }
    } else {
      var log := Overwritten(f, s);
      OverwrittenReplay(f, s, k);
      assert Recovered(log, k, f, s) != Replay(map[], log[..s]);
    }
  }

  const CELL := Hset([], [], 0, Some(IntV(0)))

  /** A log that writes 0 to one field `f` times and then 1 up to length `s`. */
  function Overwritten(f: nat, s: nat): seq<Hset> {
    seq(f, _ => CELL) + seq(if s < f then 0 else s - f, _ => CELL.(value := Some(IntV(1))))
  }

  lemma OverwrittenReplay(f: nat, s: nat, k: nat)
    requires k < f < s
    ensures var log := Overwritten(f, s);
            |log| == s && AllAccepted(map[], log) && Recovered(log, k, f, s) != Replay(map[], log[..s])
  {
    var log := Overwritten(f, s);
    var a := At(CELL);
    var types: Types := map[a := INT];
    TypedIsAccepted(types, map[], log);
    assert log[..s] == log;
    var mid := Replay(map[], log);
    TypedIsAccepted(types, mid, log[k..f]);
    ReplayIsOverlay(map[], log);
    ReplayIsOverlay(mid, log[k..f]);
    LastWrite(log);
    LastWrite(log[k..f]);
  }

  lemma {:induction false} LastWrite(log: seq<Hset>)
    requires log != [] && log[|log| - 1].value.Some?
    ensures var h := log[|log| - 1];
            At(h) in Writes(log) && Writes(log)[At(h)] == ToValue(h.value.value)
  {
    var n := |log| - 1;
    assert log == log[..n] + [log[n]] && [log[n]][1..] == [];
    WritesConcat(log[..n], [log[n]]);
  }

  // ---- Frames as commands ----

  /** The command a logged frame stands for; a frame of another type of the protocol executes nothing. */
  function Command(c: Codec, f: Frame): Hset {
    if Type(f) == CLIENT_HSET then c.hset(Body(f)) else Hset([], [], 0, None)
  }

  function Commands(c: Codec, fs: seq<Frame>): (r: seq<Hset>)
    ensures |r| == |fs|
  {
    seq(|fs|, i requires 0 <= i < |fs| => Command(c, fs[i]))
  }

  lemma CommandsConcat(c: Codec, x: seq<Frame>, y: seq<Frame>)
    ensures Commands(c, x + y) == Commands(c, x) + Commands(c, y)
  {
    hide Command;
  }

  /** Executing logged frames one after the other; `None` once a command crashes the server. */
  function ExecFrames(c: Codec, db: Db, fs: seq<Frame>, env: nat -> Env): Option<Db>
    decreases |fs|
  {
    if fs == [] then Some(db)
    else if !Registered(Type(fs[0])) then None
    else if Type(fs[0]) != CLIENT_HSET then ExecFrames(c, db, fs[1..], env)
    else
      var (db', reply) := ExecMsg(db, c.hset(Body(fs[0])), env(|fs|));
      if reply.Crash? then None else ExecFrames(c, db', fs[1..], env)
  }

  /** Executing an accepted log never crashes and gives the replayed values, whatever the clock. */
  lemma {:induction false} ExecFramesReplay(c: Codec, db: Db, fs: seq<Frame>, env: nat -> Env)
    requires AllAccepted(Values(db), Commands(c, fs))
    ensures var r := ExecFrames(c, db, fs, env);
            r.Some? && Values(r.value) == Replay(Values(db), Commands(c, fs))
    decreases |fs|
  {
    if fs != [] {
      assert Commands(c, fs)[1..] == Commands(c, fs[1..]);
      assert Type(fs[0]) == CLIENT_HSET;
      ExecMsgMeaning(db, c.hset(Body(fs[0])), env(|fs|));
      ExecFramesReplay(c, ExecMsg(db, c.hset(Body(fs[0])), env(|fs|)).0, fs[1..], env);
    }
  }

  /** A frame crashes the server if its type is not of the protocol, or if it is a HSET without a value on a missing
      field. */
  predicate Crashes(c: Codec, vals: Vals, f: Frame) {
    !Registered(Type(f)) || (Type(f) == CLIENT_HSET && c.hset(Body(f)).value.None? && At(c.hset(Body(f))) !in vals)
  }

  /** Executing any frames, accepted or not: it crashes exactly when one of them does in its turn, and otherwise the values
      are those of the replayed commands; what is rejected or is no HSET changes none. */
  lemma {:induction false} ExecFramesExact(c: Codec, db: Db, fs: seq<Frame>, env: nat -> Env)
    ensures var r, cmds := ExecFrames(c, db, fs, env), Commands(c, fs);
            && (r.Some? ==> Values(r.value) == Replay(Values(db), cmds))
            && (r.None? <==> exists i: nat :: CrashAt(c, Values(db), fs, cmds, i))
    decreases |fs|
  {
    if fs != [] {
      var f, cmds := fs[0], Commands(c, fs);
      assert cmds[1..] == Commands(c, fs[1..]) && cmds[0] == Command(c, f);
      ExecFrameOne(c, db, f, env(|fs|));
      if !Crashes(c, Values(db), f) {
        var db' := if Type(f) == CLIENT_HSET then ExecMsg(db, c.hset(Body(f)), env(|fs|)).0 else db;
        hide ExecMsg, Crashes, Commands;
        ExecFramesExact(c, db', fs[1..], env);
        CrashLater(c, Values(db), fs, cmds);
      } else {
        assert cmds[..0] == [];
        assert CrashAt(c, Values(db), fs, cmds, 0);
      }
    }
  }

  /** A frame of the log crashes in its turn: the first, or one of the rest. */
  ghost predicate CrashAt(c: Codec, vals: Vals, fs: seq<Frame>, cmds: seq<Hset>, i: nat)
    requires |fs| == |cmds|
  {
    i < |fs| && Crashes(c, Replay(vals, cmds[..i]), fs[i])
  }

  lemma CrashLater(c: Codec, vals: Vals, fs: seq<Frame>, cmds: seq<Hset>)
    requires |fs| == |cmds| > 0 && !Crashes(c, vals, fs[0])
    ensures (exists i: nat :: CrashAt(c, vals, fs, cmds, i)) <==>
            (exists i: nat :: CrashAt(c, Apply(vals, cmds[0]), fs[1..], cmds[1..], i))
  {
    forall i: nat
      ensures CrashAt(c, vals, fs, cmds, i + 1) <==> CrashAt(c, Apply(vals, cmds[0]), fs[1..], cmds[1..], i)
    {
      if i + 1 < |fs| {
        assert cmds[..i + 1][1..] == cmds[1..][..i];
      }
    }
    assert !CrashAt(c, vals, fs, cmds, 0) by {
      assert cmds[..0] == [];
    }
    hide CrashAt;
    if i: nat :| CrashAt(c, vals, fs, cmds, i) {
      var j: nat := i - 1;
      assert CrashAt(c, vals, fs, cmds, j + 1);
      assert CrashAt(c, Apply(vals, cmds[0]), fs[1..], cmds[1..], j);
    }
    if i: nat :| CrashAt(c, Apply(vals, cmds[0]), fs[1..], cmds[1..], i) {
      assert CrashAt(c, vals, fs, cmds, i + 1);
    }
  }

  lemma ExecFrameOne(c: Codec, db: Db, f: Frame, env: Env)
    ensures var h := c.hset(Body(f));
            && (Type(f) == CLIENT_HSET ==>
                  && (Crashes(c, Values(db), f) <==> ExecMsg(db, h, env).1.Crash?)
                  && Values(ExecMsg(db, h, env).0) == Apply(Values(db), Command(c, f)))
            && (Type(f) != CLIENT_HSET ==>
                  && (Crashes(c, Values(db), f) <==> !Registered(Type(f)))
                  && Apply(Values(db), Command(c, f)) == Values(db))
  {
    if Type(f) == CLIENT_HSET {
      ExecMsgMeaning(db, c.hset(Body(f)), env);
    }
  }

  // ---- States along a log ----

  /** The store after the first `i` commands. */
  function StateAt(c: Codec, log: seq<Frame>, i: nat): Vals
    requires i <= |log|
  {
    Replay(map[], Commands(c, log[..i]))
  }

  lemma ReplayNothing(vals: Vals)
    ensures Replay(vals, []) == vals
  {
  }

  lemma NothingAccepted(vals: Vals)
    ensures AllAccepted(vals, [])
  {
  }

  lemma Truncate(c: Codec, log: seq<Frame>, n: nat)
    requires AllAccepted(map[], Commands(c, log)) && n <= |log|
    ensures AllAccepted(map[], Commands(c, log[..n]))
    ensures forall i :: 0 <= i <= n ==> StateAt(c, log[..n], i) == StateAt(c, log, i)
    ensures StateAt(c, log, n) == Replay(map[], Commands(c, log[..n]))
  {
    assert Commands(c, log) == Commands(c, log[..n]) + Commands(c, log[n..]);
    ReplayConcat(map[], Commands(c, log[..n]), Commands(c, log[n..]));
    hide Replay, AllAccepted;
    assert forall i :: 0 <= i <= n ==> log[..n][..i] == log[..i];
  }

  lemma ReplayOne(vals: Vals, h: Hset)
    requires Accepts(vals, h)
    ensures AllAccepted(vals, [h]) && Replay(vals, [h]) == Apply(vals, h)
  {
    assert [h][1..] == [];
  }

  /** The absorption theorem at the positions a recovery uses. */
  lemma ReplayTail(c: Codec, log: seq<Frame>, k: nat, seen: nat, f: nat)
    requires AllAccepted(map[], Commands(c, log)) && k <= f <= |log| && k <= seen <= |log|
    requires seen <= f || k == f
    ensures var tail, base := Commands(c, log[k..f]), StateAt(c, log, seen);
            AllAccepted(base, tail) && Replay(base, tail) == StateAt(c, log, if seen <= f then f else seen)
  {
    hide Replay, AllAccepted;
    if seen <= f {
      var cmds := Commands(c, log[..f]);
      assert Commands(c, log) == cmds + Commands(c, log[f..]);
      ReplayConcat(map[], cmds, Commands(c, log[f..]));
      Absorption(map[], cmds, k, seen);
      assert cmds[..seen] == Commands(c, log[..seen]) && cmds[k..] == Commands(c, log[k..f]);
    } else {
      assert Commands(c, log[k..f]) == [];
      ReplayNothing(StateAt(c, log, seen));
      NothingAccepted(StateAt(c, log, seen));
    }
  }
}
