/** The sharded store: an array of buckets indexed by the hash of the key, each a two-level map. It behaves as one flat
    map from key and field to element. */
module Sharded {
  import opened Seqs
  import opened Wire
  import opened Messages
  import opened Store
  import opened Snapshot
  import opened Objects
  import opened Crc

  type Columns = map<bytes, Element>
  type Bucket = map<bytes, Columns>

  /** Every key is in the bucket its hash selects. */
  ghost predicate Placed(bs: seq<Bucket>) {
    |bs| == SLOTS_SIZE && forall i, k :: 0 <= i < |bs| && k in bs[i] ==> Slot(k) == i
  }

  predicate Has(bs: seq<Bucket>, a: Addr)
    requires |bs| == SLOTS_SIZE
  {
    a.key in bs[Slot(a.key)] && a.field in bs[Slot(a.key)][a.key]
  }

  ghost function Addrs(bs: seq<Bucket>): set<Addr> {
    set i, k, f | 0 <= i < |bs| && k in bs[i] && f in bs[i][k] :: Addr(k, f)
  }

  /** The flat map a sharded store stands for. */
  ghost function Flat(bs: seq<Bucket>): Db
    requires Placed(bs)
  {
    map a | a in Addrs(bs) && Has(bs, a) :: bs[Slot(a.key)][a.key][a.field]
  }

  lemma FlatAt(bs: seq<Bucket>, a: Addr)
    requires Placed(bs)
    ensures a in Flat(bs) <==> Has(bs, a)
    ensures Has(bs, a) ==> Flat(bs)[a] == bs[Slot(a.key)][a.key][a.field]
  {
    if Has(bs, a) {
      assert Addr(a.key, a.field) == a;
    }
  }

  /** The columns of a key; a missing key has none. */
  function ColumnsOf(bs: seq<Bucket>, key: bytes): Columns
    requires |bs| == SLOTS_SIZE
  {
    if key in bs[Slot(key)] then bs[Slot(key)][key] else map[]
  }

  lemma FlatColumns(bs: seq<Bucket>, a: Addr)
    requires Placed(bs)
    ensures a in Flat(bs) <==> a.field in ColumnsOf(bs, a.key)
    ensures a in Flat(bs) ==> Flat(bs)[a] == ColumnsOf(bs, a.key)[a.field]
  {
    FlatAt(bs, a);
    hide Flat, Slot;
  }

  function WithColumns(bs: seq<Bucket>, key: bytes, cols: Columns): seq<Bucket>
    requires |bs| == SLOTS_SIZE
  {
    bs[Slot(key) := bs[Slot(key)][key := cols]]
  }

  /** Replacing the columns of one key changes those of no other, in the same bucket or not. */
  lemma WithColumnsAt(bs: seq<Bucket>, key: bytes, cols: Columns, k: bytes)
    requires Placed(bs)
    ensures Placed(WithColumns(bs, key, cols))
    ensures ColumnsOf(WithColumns(bs, key, cols), k) == if k == key then cols else ColumnsOf(bs, k)
  {
    hide Slot;
  }

  lemma FlatWith(bs: seq<Bucket>, key: bytes, cols: Columns, b: Addr)
    requires Placed(bs)
    ensures var bs' := WithColumns(bs, key, cols);
            && Placed(bs')
            && (b in Flat(bs') <==> if b.key == key then b.field in cols else b in Flat(bs))
            && (b in Flat(bs') ==> Flat(bs')[b] == if b.key == key then cols[b.field] else Flat(bs)[b])
  {
    WithColumnsAt(bs, key, cols, b.key);
    FlatColumns(bs, b);
    FlatColumns(WithColumns(bs, key, cols), b);
    hide Flat, Slot, WithColumns;
  }

  lemma MapUpdateIs(m: Db, m': Db, a: Addr, e: Element)
    requires forall b :: b in m' <==> b == a || b in m
    requires forall b :: b in m' ==> m'[b] == if b == a then e else m[b]
    ensures m' == m[a := e]
  {
  }

  lemma MapRemoveIs(m: Db, m': Db, a: Addr)
    requires forall b :: b in m' <==> b != a && b in m
    requires forall b :: b in m' ==> m'[b] == m[b]
    ensures m' == m - {a}
  {
  }

  lemma FlatSet(bs: seq<Bucket>, a: Addr, e: Element)
    requires Placed(bs)
    ensures var bs' := WithColumns(bs, a.key, ColumnsOf(bs, a.key)[a.field := e]);
            Placed(bs') && Flat(bs') == Flat(bs)[a := e]
  {
    var cols := ColumnsOf(bs, a.key)[a.field := e];
    var bs' := WithColumns(bs, a.key, cols);
    WithColumnsAt(bs, a.key, cols, a.key);
    hide Flat, Slot, ColumnsOf, WithColumns, Placed;
    forall b
      ensures b in Flat(bs') <==> b == a || b in Flat(bs)
      ensures b in Flat(bs') ==> Flat(bs')[b] == if b == a then e else Flat(bs)[b]
    {
      FlatWith(bs, a.key, cols, b);
      FlatColumns(bs, b);
      assert b == a <==> b.key == a.key && b.field == a.field;
    }
    MapUpdateIs(Flat(bs), Flat(bs'), a, e);
  }

  lemma FlatRemove(bs: seq<Bucket>, a: Addr)
    requires Placed(bs)
    ensures var bs' := WithColumns(bs, a.key, ColumnsOf(bs, a.key) - {a.field});
            Placed(bs') && Flat(bs') == Flat(bs) - {a}
  {
    var cols := ColumnsOf(bs, a.key) - {a.field};
    var bs' := WithColumns(bs, a.key, cols);
    WithColumnsAt(bs, a.key, cols, a.key);
    hide Flat, Slot, ColumnsOf, WithColumns, Placed;
    forall b
      ensures b in Flat(bs') <==> b != a && b in Flat(bs)
      ensures b in Flat(bs') ==> Flat(bs')[b] == Flat(bs)[b]
    {
      FlatWith(bs, a.key, cols, b);
      FlatColumns(bs, b);
      assert b == a <==> b.key == a.key && b.field == a.field;
    }
    MapRemoveIs(Flat(bs), Flat(bs'), a);
  }

  class Buckets {
    var buckets: seq<Bucket>

    ghost predicate Valid()
      reads this
    {
      Placed(buckets)
    }

    ghost function View(): Db
      requires Valid()
      reads this
    {
      Flat(buckets)
    }

    constructor ()
      ensures Valid() && View() == map[]
    {
      buckets := seq(SLOTS_SIZE, _ => map[]);
      new;
      EmptyFlat(buckets);
    }

    method Get(key: bytes, field: bytes) returns (e: Option<Element>)
      requires Valid()
      ensures var a := Addr(key, field);
              e == if a in View() then Some(View()[a]) else None
    {
      FlatAt(buckets, Addr(key, field));
      hide Slot, Flat;
      var i := Hash(key);
      var objs := buckets[i];
      if key !in objs {
        return None;
      }
      if field !in objs[key] {
        return None;
      }
      return Some(objs[key][field]);
    }

    /** Inserts only where absent. */
    method Put(key: bytes, field: bytes, e: Element)
      requires Valid()
      modifies this
      ensures Valid()
      ensures var a := Addr(key, field);
              View() == if a in old(View()) then old(View()) else old(View())[a := e]
    {
      FlatSet(buckets, Addr(key, field), e);
      FlatAt(buckets, Addr(key, field));
      hide Slot, Flat;
      var i := Hash(key);
      var objs := buckets[i];
      if key !in objs {
        buckets := buckets[i := objs[key := map[field := e]]];
        assert map[][field := e] == map[field := e];
      } else if field !in objs[key] {
        buckets := buckets[i := objs[key := objs[key][field := e]]];
      }
    }

    /** Writing to the element `get` returned. */
    method Set(key: bytes, field: bytes, e: Element)
      requires Valid() && Addr(key, field) in View()
      modifies this
      ensures Valid() && View() == old(View())[Addr(key, field) := e]
    {
      FlatSet(buckets, Addr(key, field), e);
      FlatAt(buckets, Addr(key, field));
      hide Slot, Flat;
      var i := Hash(key);
      var objs := buckets[i];
      buckets := buckets[i := objs[key := objs[key][field := e]]];
    }

    method Del(key: bytes, field: bytes)
      requires Valid()
      modifies this
      ensures Valid() && View() == old(View()) - {Addr(key, field)}
    {
      FlatRemove(buckets, Addr(key, field));
      FlatColumns(buckets, Addr(key, field));
      hide Slot, Flat;
      var i := Hash(key);
      var objs := buckets[i];
      if key !in objs {
        return;
      }
      buckets := buckets[i := objs[key := objs[key] - {field}]];
    }

    method Flush()
      requires Valid()
      modifies this
      ensures Valid() && View() == map[]
    {
      for i := 0 to |buckets|
        invariant |buckets| == SLOTS_SIZE && forall j :: 0 <= j < i ==> buckets[j] == map[]
      {
        buckets := buckets[i := map[]];
      }
      EmptyFlat(buckets);
    }

    /** The number of keys, also of keys whose last field was deleted. */
    method Size() returns (n: nat)
      requires Valid()
      ensures n == |KeysOf(buckets, |buckets|)|
      ensures n == 0 ==> View() == map[]
    {
      n := 0;
      KeysStart(buckets);
      hide Flat, Slot, Placed, KeysOf;
      for i := 0 to |buckets|
        invariant n == |KeysOf(buckets, i)|
      {
        KeysNext(buckets, i);
        n := n + |buckets[i]|;
      }
      NoKeys(buckets);
    }

    /** HSET on the sharded store does to the flat map what `Store.ExecMsg` says. */
    method ExecMsg(h: Hset, env: Env) returns (reply: Reply)
      requires Valid()
      modifies this
      ensures Valid() && (View(), reply) == Store.ExecMsg(old(View()), h, env)
    {
      hide Flat, Placed;
      ghost var a, before := Addr(h.key, h.field), View();
      var data := Get(h.key, h.field);
      var elem: Element;
      if data.None? {
        if h.value.None? {
          return Crash;
        }
        elem := Element(env.encoding, env.created, 0, if h.ttl > 0 then env.created + 1000 * h.ttl else 0, Blank(h.value.value));
        Put(h.key, h.field, elem);
      } else {
        elem := data.value;
      }
      if h.value.Some? && elem.value.TypeOf() == ScalarType(h.value.value) {
        elem := elem.(value := ToValue(h.value.value));
        reply := Accepted;
      } else {
        reply := Rejected(elem.value.TypeOf());
      }
      ghost var final := elem.(lru := env.touched);
      assert a in View() && View()[a := final] == before[a := final];
      Set(h.key, h.field, elem.(lru := env.touched));
    }

    /** One field of a parsed row; a feature without a kind is passed over. */
    method PutFeature(key: bytes, field: bytes, f: Feature)
      requires Valid()
      modifies this
      ensures Valid()
      ensures var e, a := FromFeature(f), Addr(key, field);
              View() == if e.None? || a in old(View()) then old(View()) else old(View())[a := e.value]
    {
      hide Flat, Placed;
      if f.kind.Some? {
        var value := ParseObject(f);
        Put(key, field, Element(f.encoding, f.create, f.lru, f.expire, value));
      }
    }

    /** The object of a parsed feature. */
    method ParseObject(f: Feature) returns (value: Value)
      requires f.kind.Some?
      ensures value == FromKind(f.typ, f.kind.value)
    {
      var ptr := new Object(Created(f.kind.value));
      ptr.DeSeralize(f);
      ParsedIsFilled(f, ptr.value);
      value := ptr.value;
    }

    /** The message written for one key. */
    method DumpRow(key: bytes, cols: Columns) returns (row: Features)
      ensures row == ColumnsRow(key, cols)
    {
      hide ToKind;
      var features: map<bytes, Feature> := map[];
      var todo := cols.Keys;
      while todo != {}
        invariant todo <= cols.Keys && features.Keys == cols.Keys - todo
        invariant forall field :: field in features ==> features[field] == ToFeature(cols[field])
        decreases todo
      {
        var field :| field in todo;
        todo := todo - {field};
        var e := cols[field];
        var ptr := new Object(e.value);
        var feature := ptr.Serialize(Feature(UNKNOW, e.encoding, e.create, e.lru, e.lru, None));
        features := features[field := feature];
      }
      row := Features(key, features);
    }

    /** One frame of a database file. */
    method Parse(c: Codec, f: Frame)
      requires Valid()
      modifies this
      ensures Valid() && View() == Snapshot.Parse(c, old(View()), f)
    {
      if Type(f) != REPL_OBJECT {
        return;
      }
      hide Flat, Placed, FromFeature, Merged;
      var m := c.features(Body(f));
      var todo := m.feature.Keys;
      ghost var done: set<bytes> := {};
      MergedNothing(m, View());
      while todo != {}
        invariant Valid() && todo !! done && todo + done == m.feature.Keys
        invariant View() == Merged(m, done, old(View()))
        decreases todo
      {
        var field :| field in todo;
        todo := todo - {field};
        MergedStep(m, done, old(View()), field);
        PutFeature(m.id, field, m.feature[field]);
        done := done + {field};
      }
      MergedAll(c, f, old(View()));
    }

    ghost predicate RowsFit(c: Codec)
      requires Valid()
      reads this
    {
      forall i, key :: 0 <= i < |buckets| && key in buckets[i] ==> Fits(c, View(), key)
    }

    /** The frames of the database file: buckets in order, the keys of each in any order. */
    method Dump(c: Codec) returns (fs: seq<Frame>)
      requires Valid() && RowsFit(c)
      ensures IsDump(c, View(), fs)
    {
      hide Slot, Flat, RowFrame, Fits;
      fs := [];
      ghost var keys: seq<bytes>, db := [], View();
      for i := 0 to |buckets|
        invariant AllFit(c, db, keys) && fs == Snapshot.Dump(c, db, keys)
        invariant Walked(buckets, i, {}, keys)
      {
        var todo := buckets[i].Keys;
        WalkedNext(buckets, i, keys);
        while todo != {}
          invariant AllFit(c, db, keys) && fs == Snapshot.Dump(c, db, keys) && todo <= buckets[i].Keys
          invariant Walked(buckets, i + 1, todo, keys)
          decreases todo
        {
          var key :| key in todo;
          todo := todo - {key};
          RowOfColumns(c, buckets, key);
          var row := DumpRow(key, buckets[i][key]);
          fs := fs + [Pack(0, REPL_OBJECT, c.encode(row))];
          keys := keys + [key];
        }
      }
      WalkedAll(buckets, keys);
    }
  }

  /** A database file of a store: one row per key, the keys in some order. */
  ghost predicate IsDump(c: Codec, db: Db, fs: seq<Frame>) {
    exists keys :: Enumerates(keys, db) && AllFit(c, db, keys) && fs == Snapshot.Dump(c, db, keys)
  }

  /** Whatever the order, parsing the file into an empty store gives back what a dump preserves. */
  lemma DumpIsRestored(c: Codec, db: Db, fs: seq<Frame>)
    requires c.Lossless() && IsDump(c, db, fs)
    ensures ParseAll(c, map[], fs) == Restored(db)
  {
    var keys :| Enumerates(keys, db) && AllFit(c, db, keys) && fs == Snapshot.Dump(c, db, keys);
    DumpParse(c, db, keys);
  }

  /** The keys of the first `n` buckets. */
  ghost function KeysOf(bs: seq<Bucket>, n: nat): (keys: set<bytes>)
    requires Placed(bs) && n <= |bs|
    ensures forall k :: k in keys <==> Slot(k) < n && k in bs[Slot(k)]
  {
    if n == 0 then {} else KeysOf(bs, n - 1) + bs[n - 1].Keys
  }

  lemma KeysStart(bs: seq<Bucket>)
    requires Placed(bs)
    ensures KeysOf(bs, 0) == {}
  {
  }

  lemma KeysNext(bs: seq<Bucket>, n: nat)
    requires Placed(bs) && n < |bs|
    ensures |KeysOf(bs, n + 1)| == |KeysOf(bs, n)| + |bs[n]|
  {
    assert KeysOf(bs, n) !! bs[n].Keys by { hide Slot; }
    assert KeysOf(bs, n + 1) == KeysOf(bs, n) + bs[n].Keys;
    assert |bs[n].Keys| == |bs[n]|;
  }

  lemma NoKeys(bs: seq<Bucket>)
    requires Placed(bs)
    ensures |KeysOf(bs, |bs|)| == 0 ==> Flat(bs) == map[]
  {
    if KeysOf(bs, |bs|) == {} {
      forall a
        ensures a !in Flat(bs)
      {
        FlatAt(bs, a);
        assert a.key !in KeysOf(bs, |bs|);
      }
    }
  }

  lemma EmptyFlat(bs: seq<Bucket>)
    requires |bs| == SLOTS_SIZE && forall i :: 0 <= i < |bs| ==> bs[i] == map[]
    ensures Placed(bs) && Flat(bs) == map[]
  {
    assert Addrs(bs) == {};
  }

  // ---- Parsing ----

  /** A store after the fields `done` of a row were inserted where absent. */
  function Merged(m: Features, done: set<bytes>, db: Db): Db {
    var added := set field | field in done && field in m.feature && FromFeature(m.feature[field]).Some? :: Addr(m.id, field);
    (map a | a in added :: FromFeature(m.feature[a.field]).value) + db
  }

  lemma MergedNothing(m: Features, db: Db)
    ensures Merged(m, {}, db) == db
  {
  }

  lemma MergedStep(m: Features, done: set<bytes>, db: Db, field: bytes)
    requires field in m.feature && field !in done
    ensures var e, a, merged := FromFeature(m.feature[field]), Addr(m.id, field), Merged(m, done, db);
            Merged(m, done + {field}, db) ==
            if e.None? || a in merged then merged else merged[a := e.value]
  {
    hide FromFeature;
    var merged, next := Merged(m, done, db), Merged(m, done + {field}, db);
    forall a
      ensures a in next <==> a in merged || (a == Addr(m.id, field) && FromFeature(m.feature[field]).Some?)
    {
      if a.field in done {
        assert a.key == m.id && a.field in m.feature && FromFeature(m.feature[a.field]).Some? ==> a == Addr(m.id, a.field);
      }
    }
  }

  lemma MergedAll(c: Codec, f: Frame, db: Db)
    requires Type(f) == REPL_OBJECT
    ensures var m := c.features(Body(f)); Merged(m, m.feature.Keys, db) == Snapshot.Parse(c, db, f)
  {
    hide FromFeature;
    var m := c.features(Body(f));
    assert (set field | field in m.feature.Keys && field in m.feature && FromFeature(m.feature[field]).Some? :: Addr(m.id, field))
           == Parsed(m);
  }

  // ---- Dumping ----

  /** The keys visited once the first `n` buckets are walked, except the keys `todo` of the last one. */
  ghost predicate Walked(bs: seq<Bucket>, n: nat, todo: set<bytes>, keys: seq<bytes>) {
    && n <= |bs|
    && (forall k :: k in keys <==> (exists i :: 0 <= i < n && k in bs[i]) && k !in todo)
    && (forall i, j :: 0 <= i < j < |keys| ==> keys[i] != keys[j])
  }

  lemma WalkedNext(bs: seq<Bucket>, n: nat, keys: seq<bytes>)
    requires Placed(bs) && n < |bs| && Walked(bs, n, {}, keys)
    ensures Walked(bs, n + 1, bs[n].Keys, keys)
  {
    hide Slot;
    forall k
      ensures k in keys <==> (exists i :: 0 <= i < n + 1 && k in bs[i]) && k !in bs[n].Keys
    {
      if k in keys {
        var i :| 0 <= i < n && k in bs[i];
        assert Slot(k) == i;
      }
    }
  }

  lemma WalkedAll(bs: seq<Bucket>, keys: seq<bytes>)
    requires Placed(bs) && Walked(bs, |bs|, {}, keys)
    ensures Enumerates(keys, Flat(bs))
  {
    forall k | k in Keys(Flat(bs))
      ensures k in keys
    {
      var a :| a in Flat(bs) && a.key == k;
      FlatAt(bs, a);
    }
  }

  function ColumnsRow(key: bytes, cols: Columns): Features {
    Features(key, map field | field in cols :: ToFeature(cols[field]))
  }

  lemma FieldsOfColumns(bs: seq<Bucket>, key: bytes)
    requires Placed(bs) && key in bs[Slot(key)]
    ensures Fields(Flat(bs), key) == bs[Slot(key)][key].Keys
    ensures forall field :: field in bs[Slot(key)][key] ==> Flat(bs)[Addr(key, field)] == bs[Slot(key)][key][field]
  {
    var cols := bs[Slot(key)][key];
    forall field
      ensures field in Fields(Flat(bs), key) <==> field in cols
      ensures field in cols ==> Flat(bs)[Addr(key, field)] == cols[field]
    {
      FlatAt(bs, Addr(key, field));
      hide Flat, Placed, Slot;
      if field in cols {
        assert Addr(key, field) in Flat(bs) && Addr(key, field).field == field;
      }
    }
  }

  lemma RowIsColumns(bs: seq<Bucket>, key: bytes)
    requires Placed(bs) && key in bs[Slot(key)]
    ensures Row(Flat(bs), key) == ColumnsRow(key, bs[Slot(key)][key])
  {
    FieldsOfColumns(bs, key);
    hide Flat, Placed, Slot, Fields, ToFeature;
  }

  lemma RowOfColumns(c: Codec, bs: seq<Bucket>, key: bytes)
    requires Placed(bs) && key in bs[Slot(key)] && Fits(c, Flat(bs), key)
    ensures var row := c.encode(ColumnsRow(key, bs[Slot(key)][key]));
            PACK_HEAD_LEN + |row| < U32_RANGE && Pack(0, REPL_OBJECT, row) == RowFrame(c, Flat(bs), key)
  {
    RowIsColumns(bs, key);
    hide Flat, Placed, Slot, Fields, Row, ColumnsRow;
  }
}
