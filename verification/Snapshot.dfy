/** The database file: one frame per key, written by `bucket::dump` and read back by `Buckets::parse`. */
module Snapshot {
  import opened Wire
  import opened Messages
  import opened Store

  // ---- One element ----

  /** Serialising a list or a map adds its items one by one, so an empty one leaves the `kind` field unset. */
  function ToKind(v: Value): Option<Kind> {
    match v
    case Int(i) => Some(Int64Value(i))
    case Float(f) => Some(FloatValue(f))
    case Str(b) => Some(BytesValue(b))
    case IntList(s) => if s == [] then None else Some(Int64List(s))
    case FloatList(s) => if s == [] then None else Some(Kind.FloatList(s))
    case StrList(s) => if s == [] then None else Some(BytesList(s))
    case Dict(m) => if m == map[] then None else Some(BytesMap(m))
  }

  /** The expiry written is the time of last access. */
  function ToFeature(e: Element): Feature {
    Feature(e.value.TypeOf(), e.encoding, e.create, e.lru, e.lru, ToKind(e.value))
  }

  /** The object is created from the `kind` field and then filled only if the `type` field agrees. */
  function FromKind(typ: FeatureType, k: Kind): Value {
    match k
    case Int64Value(i) => Int(if typ == INT then i else 0)
    case FloatValue(f) => Float(if typ == FLOAT then f else 0)
    case BytesValue(b) => Str(if typ == BYTES then b else [])
    case Int64List(s) => IntList(if typ == INT_LIST then s else [])
    case FloatList(s) => Value.FloatList(if typ == FLOAT_LIST then s else [])
    case BytesList(s) => StrList(if typ == BYTES_LIST then s else [])
    case BytesMap(m) => Dict(if typ == MAP then m else map[])
  }

  function FromFeature(f: Feature): Option<Element> {
    if f.kind.None? then None
    else Some(Element(f.encoding, f.create, f.lru, f.expire, FromKind(f.typ, f.kind.value)))
  }

  predicate Empty(v: Value) {
    match v
    case IntList(s) => s == []
    case FloatList(s) => s == []
    case StrList(s) => s == []
    case Dict(m) => m == map[]
    case _ => false
  }

  /** Which field of a feature holds what. */
  lemma FeatureFields(e: Element, f: Feature)
    ensures var g := ToFeature(e);
            && g.typ == e.value.TypeOf() && g.encoding == e.encoding
            && g.create == e.create && g.lru == e.lru && g.expire == e.lru
    ensures FromFeature(f).None? <==> f.kind.None?
    ensures FromFeature(f).Some? ==>
              var g := FromFeature(f).value;
              g.encoding == f.encoding && g.create == f.create && g.lru == f.lru && g.expire == f.expire
  {
  }

  /** An element survives a dump unless it is an empty list or map; only its expiry changes. */
  lemma FeatureRoundTrip(e: Element)
    ensures FromFeature(ToFeature(e)) == if Empty(e.value) then None else Some(e.(expire := e.lru))
  {
    match e.value
    case Int(_) =>
    case Float(_) =>
    case Str(_) =>
    case IntList(_) =>
    case FloatList(_) =>
    case StrList(_) =>
    case Dict(_) =>
  }

  // ---- The file ----

  function Keys(db: Db): set<bytes> {
    set a | a in db :: a.key
  }

  function Fields(db: Db, key: bytes): set<bytes> {
    set a | a in db && a.key == key :: a.field
  }

  function Row(db: Db, key: bytes): Features {
    Features(key, map field | field in Fields(db, key) :: ToFeature(db[Addr(key, field)]))
  }

  /** The row of a key is small enough for the 32-bit length of a frame. */
  predicate Fits(c: Codec, db: Db, key: bytes) {
    PACK_HEAD_LEN + |c.encode(Row(db, key))| < U32_RANGE
  }

  predicate AllFit(c: Codec, db: Db, keys: seq<bytes>) {
    forall key :: key in keys ==> Fits(c, db, key)
  }

  function RowFrame(c: Codec, db: Db, key: bytes): Frame
    requires Fits(c, db, key)
  {
    Pack(0, REPL_OBJECT, c.encode(Row(db, key)))
  }

  /** The frames written when the keys are visited in the given order. */
  function Dump(c: Codec, db: Db, keys: seq<bytes>): (fs: seq<Frame>)
    requires AllFit(c, db, keys)
    ensures |fs| == |keys|
  {
    seq(|keys|, i requires 0 <= i < |keys| => RowFrame(c, db, keys[i]))
  }

  /** The order in which hash tables are walked is not specified: any enumeration of the keys may occur, and a key
      whose last field was deleted is still walked. */
  ghost predicate Enumerates(keys: seq<bytes>, db: Db) {
    && (forall k :: k in Keys(db) ==> k in keys)
    && (forall i, j :: 0 <= i < j < |keys| ==> keys[i] != keys[j])
  }

  function Parsed(m: Features): set<Addr> {
    set field | field in m.feature && FromFeature(m.feature[field]).Some? :: Addr(m.id, field)
  }

  /** Fields of a parsed row are inserted only where absent. */
  function Parse(c: Codec, db: Db, f: Frame): Db {
    if Type(f) != REPL_OBJECT then db
    else
      var m := c.features(Body(f));
      (map a | a in Parsed(m) :: FromFeature(m.feature[a.field]).value) + db
  }

  /** A row adds the elements of its features that have a kind, where the field is absent, and changes nothing else; a
      frame of another type adds nothing. */
  lemma ParseAdds(c: Codec, db: Db, f: Frame)
    ensures var m, db' := c.features(Body(f)), Parse(c, db, f);
            && (Type(f) != REPL_OBJECT ==> db' == db)
            && (forall a :: a in db ==> a in db' && db'[a] == db[a])
            && (Type(f) == REPL_OBJECT ==>
                  forall a :: a !in db ==>
                    && (a in db' <==> a.key == m.id && a.field in m.feature && m.feature[a.field].kind.Some?)
                    && (a in db' ==> FromFeature(m.feature[a.field]) == Some(db'[a])))
  {
    if Type(f) == REPL_OBJECT {
      var m := c.features(Body(f));
      forall a | a !in db
        ensures a in Parsed(m) <==> a.key == m.id && a.field in m.feature && m.feature[a.field].kind.Some?
      {
        assert a.key == m.id ==> a == Addr(m.id, a.field);
      }
    }
  }

  function ParseAll(c: Codec, db: Db, fs: seq<Frame>): Db
    decreases |fs|
  {
    if fs == [] then db else ParseAll(c, Parse(c, db, fs[0]), fs[1..])
  }

  /** What a dump preserves of a store. */
  function Restored(db: Db): Db {
    map a | a in db && !Empty(db[a].value) :: db[a].(expire := db[a].lru)
  }

  function Restrict(db: Db, keys: seq<bytes>): Db {
    map a | a in db && a.key in keys :: db[a]
  }

  lemma ParsedRow(db: Db, key: bytes, a: Addr)
    ensures var row := Row(db, key);
            && (a in Parsed(row) <==> a in db && a.key == key && !Empty(db[a].value))
            && (a in Parsed(row) ==> FromFeature(row.feature[a.field]) == Some(db[a].(expire := db[a].lru)))
  {
    hide ToFeature, FromFeature, Empty;
    if a.key == key {
      assert a == Addr(key, a.field) && (a in db <==> a.field in Row(db, key).feature);
      if a in db {
        FeatureRoundTrip(db[a]);
      }
    }
  }

  lemma ParseRow(c: Codec, db: Db, done: Db, key: bytes)
    requires c.Lossless() && Fits(c, db, key)
    requires forall a :: a in done ==> a.key != key
    ensures Parse(c, done, RowFrame(c, db, key)) == done + Restored(Restrict(db, [key]))
  {
    hide FromFeature, Empty, Row;
    var row, f := Row(db, key), RowFrame(c, db, key);
    assert c.features(Body(f)) == row && Type(f) == REPL_OBJECT by {
      assert c.features(c.encode(row)) == row;
      UnpackPack(0, REPL_OBJECT, c.encode(row));
    }
    forall a
      ensures a in Parsed(row) <==> a in Restored(Restrict(db, [key]))
      ensures a in Parsed(row) ==> FromFeature(row.feature[a.field]).value == Restored(Restrict(db, [key]))[a]
    {
      ParsedRow(db, key, a);
    }
  }

  lemma RestrictStep(db: Db, keys: seq<bytes>, i: nat)
    requires i < |keys|
    ensures Restored(Restrict(db, keys[..i])) + Restored(Restrict(db, [keys[i]])) == Restored(Restrict(db, keys[..i + 1]))
  {
    hide Empty;
    assert keys[..i + 1] == keys[..i] + [keys[i]];
  }

  lemma {:induction false} ParseFrom(c: Codec, db: Db, keys: seq<bytes>, i: nat)
    requires c.Lossless() && AllFit(c, db, keys) && i <= |keys|
    requires forall i, j :: 0 <= i < j < |keys| ==> keys[i] != keys[j]
    ensures ParseAll(c, Restored(Restrict(db, keys[..i])), Dump(c, db, keys)[i..]) == Restored(Restrict(db, keys))
    decreases |keys| - i
  {
    if i == |keys| {
      assert keys[..i] == keys;
    } else {
      var done := Restored(Restrict(db, keys[..i]));
      assert forall a :: a in done ==> a.key != keys[i];
      hide Parse, RowFrame, Restored, Restrict;
      ParseRow(c, db, done, keys[i]);
      RestrictStep(db, keys, i);
      assert Dump(c, db, keys)[i..][1..] == Dump(c, db, keys)[i + 1..];
      ParseFrom(c, db, keys, i + 1);
    }
  }

  /** Dumping a store and parsing the file into an empty one gives back every element but the empty lists and
      maps, in whatever order the keys were written. */
  lemma DumpParse(c: Codec, db: Db, keys: seq<bytes>)
    requires c.Lossless() && AllFit(c, db, keys) && Enumerates(keys, db)
    ensures ParseAll(c, map[], Dump(c, db, keys)) == Restored(db)
    ensures Values(Restored(db)) == Values(db) <==> forall a :: a in db ==> !Empty(db[a].value)
  {
    ParseFrom(c, db, keys, 0);
    assert Dump(c, db, keys)[0..] == Dump(c, db, keys);
    hide Dump, ToFeature, FromFeature, AllFit, ParseAll;
    assert Restored(Restrict(db, keys[..0])) == map[];
    forall a | a in db
      ensures a.key in keys
    {
      assert a.key in Keys(db);
    }
    assert Restrict(db, keys) == db;
    hide Restrict;
    RestoredValues(db);
  }

  lemma RestoredValues(db: Db)
    ensures Values(Restored(db)) == Values(db) <==> forall a :: a in db ==> !Empty(db[a].value)
  {
    hide Empty;
    if Values(Restored(db)) == Values(db) {
      assert forall a :: a in db ==> a in Values(db);
    }
  }
}
