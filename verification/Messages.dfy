/** The protobuf messages the store reads and writes, as values, and the abstract view of their encoding. */
module Messages {
  import opened Wire

  datatype Option<+T> = None | Some(value: T)

  const REPL_OBJECT: u16 := 1
  const CLIENT_HSET: u16 := 2000

  /** The type numbers of the protocol. Looking up a command of any other number dereferences a null descriptor. */
  predicate Registered(typ: u16) {
    typ <= 7 || 1001 <= typ <= 1021 || 2000 <= typ <= 2002
  }

  /** The three kinds of value a client can set. A float is its 32-bit pattern: the server only copies it. */
  datatype Scalar = IntV(i: int) | FloatV(f: u32) | BytesV(b: bytes)

  datatype Hset = Hset(key: bytes, field: bytes, ttl: int, value: Option<Scalar>)

  datatype FeatureType = UNKNOW | INT | INT_LIST | FLOAT | FLOAT_LIST | BYTES | BYTES_LIST | MAP

  /** The `kind` oneof of a feature; an absent one is `None`. */
  datatype Kind =
    | Int64Value(i: int)
    | FloatValue(f: u32)
    | BytesValue(b: bytes)
    | Int64List(ints: seq<int>)
    | FloatList(floats: seq<u32>)
    | BytesList(strings: seq<bytes>)
    | BytesMap(entries: map<bytes, bytes>)

  datatype Feature = Feature(typ: FeatureType, encoding: nat, create: int, lru: int, expire: int, kind: Option<Kind>)

  datatype Features = Features(id: bytes, feature: map<bytes, Feature>)

  /** Protobuf encoding is not modelled: a body is opaque and a codec says what it means. */
  datatype Codec = Codec(hset: bytes -> Hset, features: bytes -> Features, encode: Features -> bytes)
  {
    /** What protobuf promises: a message is read back as it was written. */
    ghost predicate Lossless() {
      forall m: Features :: features(encode(m)) == m
    }
  }
}
