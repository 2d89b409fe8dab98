/** The objects behind the elements of the store: the cells and containers of `database/`, changed in place by
    `set` and `deSeralize`, and what they write into a feature and take from one. */
module Objects {
  import opened Wire
  import opened Messages
  import opened Store
  import opened Snapshot

  /** The object created for a feature, before it is filled. */
  function Created(k: Kind): Value {
    match k
    case Int64Value(_) => Int(0)
    case FloatValue(_) => Float(0)
    case BytesValue(_) => Str([])
    case Int64List(_) => IntList([])
    case FloatList(_) => Value.FloatList([])
    case BytesList(_) => StrList([])
    case BytesMap(_) => Dict(map[])
  }

  /** Filling an object from a feature of its type: a cell takes the value, a list appends the items, a map adds the
      fields it lacks. What the feature does not have reads as zero or empty. */
  function Filled(v: Value, f: Feature): Value {
    if f.typ != v.TypeOf() then v
    else
      match v
      case Int(_) => Int(if f.kind.Some? && f.kind.value.Int64Value? then f.kind.value.i else 0)
      case Float(_) => Float(if f.kind.Some? && f.kind.value.FloatValue? then f.kind.value.f else 0)
      case Str(_) => Str(if f.kind.Some? && f.kind.value.BytesValue? then f.kind.value.b else [])
      case IntList(s) => IntList(s + Ints(f.kind))
      case FloatList(s) => Value.FloatList(s + Floats(f.kind))
      case StrList(s) => StrList(s + Strings(f.kind))
      case Dict(m) => Dict(Entries(f.kind) + m)
  }

  function Ints(k: Option<Kind>): seq<int> {
    if k.Some? && k.value.Int64List? then k.value.ints else []
  }

  function Floats(k: Option<Kind>): seq<u32> {
    if k.Some? && k.value.FloatList? then k.value.floats else []
  }

  function Strings(k: Option<Kind>): seq<bytes> {
    if k.Some? && k.value.BytesList? then k.value.strings else []
  }

  function Entries(k: Option<Kind>): map<bytes, bytes> {
    if k.Some? && k.value.BytesMap? then k.value.entries else map[]
  }

  /** The kind of a feature an object has been written into: a cell replaces it, a list or map adds to a container of its
      own kind and replaces any other, and an empty one leaves it alone. */
  function Written(v: Value, k: Option<Kind>): (r: Option<Kind>)
    ensures k.None? ==> r == ToKind(v)
  {
    match v
    case Int(i) => Some(Int64Value(i))
    case Float(x) => Some(FloatValue(x))
    case Str(b) => Some(BytesValue(b))
    case IntList(s) => assert [] + s == s; if s == [] then k else Some(Int64List(Ints(k) + s))
    case FloatList(s) => assert [] + s == s; if s == [] then k else Some(Kind.FloatList(Floats(k) + s))
    case StrList(s) => assert [] + s == s; if s == [] then k else Some(BytesList(Strings(k) + s))
    case Dict(m) => assert map[] + m == m; if m == map[] then k else Some(BytesMap(Entries(k) + m))
  }

  /** Items added to a repeated field one by one. */
  method PushAll<T>(data: seq<T>, items: seq<T>) returns (r: seq<T>)
    ensures r == data + items
  {
    r := data;
    for i := 0 to |items|
      invariant r == data + items[..i]
    {
      r := r + [items[i]];
    }
    assert items[..|items|] == items;
  }

  /** Entries assigned to a map field one by one. */
  method AssignAll(data: map<bytes, bytes>, entries: map<bytes, bytes>) returns (r: map<bytes, bytes>)
    ensures r == data + entries
  {
    r := data;
    var todo := entries.Keys;
    while todo != {}
      invariant todo <= entries.Keys && r == data + (entries - todo)
      decreases todo
    {
      var k :| k in todo;
      assert (entries - todo)[k := entries[k]] == entries - (todo - {k});
      todo := todo - {k};
      r := r[k := entries[k]];
    }
    assert entries - {} == entries;
  }

  class Object {
    var value: Value

    constructor (v: Value)
      ensures value == v
    {
      value := v;
    }

    method Set(v: Scalar)
      requires value.TypeOf() == ScalarType(v)
      modifies this
      ensures value == ToValue(v)
    {
      match v {
        case IntV(i) => value := Int(i);
        case FloatV(f) => value := Float(f);
        case BytesV(b) => value := Str(b);
      }
    }

    /** Writes the object into a feature. A container of the feature comes into being with the first item of a list or
        map, so an empty one writes no kind. */
    method Serialize(f: Feature) returns (r: Feature)
      ensures r == f.(typ := value.TypeOf(), kind := Written(value, f.kind))
    {
      var kind := f.kind;
      match value {
        case Int(i) => kind := Some(Int64Value(i));
        case Float(x) => kind := Some(FloatValue(x));
        case Str(b) => kind := Some(BytesValue(b));
        case IntList(s) =>
          if s != [] {
            var data := PushAll(Ints(f.kind), s);
            kind := Some(Int64List(data));
          }
        case FloatList(s) =>
          if s != [] {
            var data := PushAll(Floats(f.kind), s);
            kind := Some(Kind.FloatList(data));
          }
        case StrList(s) =>
          if s != [] {
            var data := PushAll(Strings(f.kind), s);
            kind := Some(BytesList(data));
          }
        case Dict(m) =>
          if m != map[] {
            var data := AssignAll(Entries(f.kind), m);
            kind := Some(BytesMap(data));
          }
      }
      r := f.(typ := value.TypeOf(), kind := kind);
    }

    /** Fills the object from a feature, if the types agree. */
    method DeSeralize(f: Feature)
      modifies this
      ensures value == Filled(old(value), f)
    {
      if f.typ != value.TypeOf() {
        return;
      }
      match value {
        case Int(_) => value := Int(if f.kind.Some? && f.kind.value.Int64Value? then f.kind.value.i else 0);
        case Float(_) => value := Float(if f.kind.Some? && f.kind.value.FloatValue? then f.kind.value.f else 0);
        case Str(_) => value := Str(if f.kind.Some? && f.kind.value.BytesValue? then f.kind.value.b else []);
        case IntList(s) =>
          var data := PushAll(s, Ints(f.kind));
          value := IntList(data);
        case FloatList(s) =>
          var data := PushAll(s, Floats(f.kind));
          value := Value.FloatList(data);
        case StrList(s) =>
          var data := PushAll(s, Strings(f.kind));
          value := StrList(data);
        case Dict(m) =>
          var data := EmplaceAll(m, Entries(f.kind));
          value := Dict(data);
      }
    }
  }

  /** Entries added to a map where their key is absent. */
  method EmplaceAll(data: map<bytes, bytes>, entries: map<bytes, bytes>) returns (r: map<bytes, bytes>)
    ensures r == entries + data
  {
    r := data;
    var todo := entries.Keys;
    while todo != {}
      invariant todo <= entries.Keys && r == (entries - todo) + data
      decreases todo
    {
      var k :| k in todo;
      assert (entries - todo)[k := entries[k]] == entries - (todo - {k});
      todo := todo - {k};
      if k !in r {
        r := r[k := entries[k]];
      }
    }
    assert entries - {} == entries;
  }

  /** Writing one container after another into a feature collects both, and so does filling an object twice: lists are
      appended in order; a field of a map is overwritten by a later write, but kept by a later fill. */
  lemma ContainersAdd(f: Feature, a: Value, b: Value)
    ensures var k := Written(b, Written(a, None));
            match (a, b)
            case (IntList(s), IntList(t)) => k == ToKind(IntList(s + t))
            case (FloatList(s), FloatList(t)) => k == ToKind(Value.FloatList(s + t))
            case (StrList(s), StrList(t)) => k == ToKind(StrList(s + t))
            case (Dict(m), Dict(n)) => k == ToKind(Dict(m + n))
            case _ => true
    ensures var g := f.(typ := b.TypeOf(), kind := ToKind(b));
            match (a, b)
            case (IntList(s), IntList(t)) => Filled(a, g) == IntList(s + t)
            case (FloatList(s), FloatList(t)) => Filled(a, g) == Value.FloatList(s + t)
            case (StrList(s), StrList(t)) => Filled(a, g) == StrList(s + t)
            case (Dict(m), Dict(n)) => Filled(a, g) == Dict(n + m)
            case _ => a.TypeOf() != b.TypeOf() ==> Filled(a, g) == a
  {
    match (a, b)
    case (IntList(s), IntList(t)) => assert s + [] == s && [] + t == t;
    case (FloatList(s), FloatList(t)) => assert s + [] == s && [] + t == t;
    case (StrList(s), StrList(t)) => assert s + [] == s && [] + t == t;
    case (Dict(m), Dict(n)) => assert m + map[] == m && map[] + n == n && map[] + m == m;
    case _ =>
  }

  /** What a feature parses to is the object created for its kind and filled from it; and an object written out and
      filled into a new one of its kind is unchanged, unless it is empty and so has no kind. */
  lemma ParsedIsFilled(f: Feature, v: Value)
    ensures f.kind.Some? ==> FromKind(f.typ, f.kind.value) == Filled(Created(f.kind.value), f)
    ensures var g := f.(typ := v.TypeOf(), kind := ToKind(v));
            && (g.kind.None? <==> Empty(v))
            && (g.kind.Some? ==> Filled(Created(g.kind.value), g) == v)
  {
    if f.kind.Some? {
      match f.kind.value {
        case Int64List(s) => assert [] + s == s;
        case FloatList(s) => assert [] + s == s;
        case BytesList(s) => assert [] + s == s;
        case BytesMap(m) => assert m + map[] == m;
        case _ =>
      }
    }
    match v {
      case IntList(s) => assert [] + s == s;
      case FloatList(s) => assert [] + s == s;
      case StrList(s) => assert [] + s == s;
      case Dict(m) => assert m + map[] == m;
      case _ =>
    }
  }
}
