/** Little-endian integers and the frames `[u32 total length][u16 flag][u16 type][body]`
    that every layer of the server exchanges or logs. */
module Wire {
  import opened Seqs

  type byte = x: nat | x < 0x100
  type u16 = x: nat | x < 0x1_0000
  type u32 = x: nat | x < 0x1_0000_0000
  type u64 = x: nat | x < 0x1_0000_0000_0000_0000
  type bytes = seq<byte>

  const U32_RANGE: nat := 0x1_0000_0000
  const PACK_SIZE_LEN: nat := 4
  const PACK_HEAD_LEN: nat := 8

  /** The `n` low bytes of `v`, least significant first: what copying an integer of `n` bytes leaves in memory. */
  function Le(v: nat, n: nat): (s: bytes)
    ensures |s| == n
    decreases n
  {
    if n == 0 then [] else [v % 256] + Le(v / 256, n - 1)
  }

  /** The integer whose little-endian bytes are `s`. */
  function Un(s: bytes): nat {
    if s == [] then 0 else s[0] + 256 * Un(s[1..])
  }

  /** Number of values an integer of `n` bytes can hold. */
  function Range(n: nat): (r: nat)
    ensures r > 0
  {
    if n == 0 then 1 else 256 * Range(n - 1)
  }

  /** Writing then reading an integer that fits gives it back. */
  lemma {:induction false} UnLe(v: nat, n: nat)
    ensures v < Range(n) ==> Un(Le(v, n)) == v
    decreases n
  {
    if n > 0 {
      assert Le(v, n)[1..] == Le(v / 256, n - 1);
      UnLe(v / 256, n - 1);
    }
  }

  /** Reading then writing gives back the bytes: the encoding is onto. */
  lemma {:induction false} LeUn(s: bytes)
    ensures Le(Un(s), |s|) == s && Un(s) < Range(|s|)
  {
    if s != [] {
      LeUn(s[1..]);
      assert Un(s) / 256 == Un(s[1..]) && Un(s) % 256 == s[0];
    }
  }

  lemma Ranges()
    ensures Range(2) == 0x1_0000 && Range(4) == 0x1_0000_0000 && Range(8) == 0x1_0000_0000_0000_0000
  {
    assert Range(1) == 256;
    assert Range(2) == 0x1_0000;
    assert Range(3) == 0x100_0000;
    assert Range(4) == 0x1_0000_0000;
    assert Range(5) == 0x100_0000_0000;
    assert Range(6) == 0x1_0000_0000_0000;
    assert Range(7) == 0x100_0000_0000_0000;
  }

  /** A frame is a byte string with room for a header whose length field is its own length. */
  predicate IsFrame(s: bytes) {
    PACK_HEAD_LEN <= |s| && Un(s[..4]) == |s|
  }

  type Frame = s: bytes | IsFrame(s) witness Pack(0, 0, [])

  function Flag(f: Frame): u16 {
    Field(f[4..6]);
    Un(f[4..6])
  }

  function Type(f: Frame): u16 {
    Field(f[6..8]);
    Un(f[6..8])
  }

  function Body(f: Frame): bytes {
    f[PACK_HEAD_LEN..]
  }

  lemma Field(s: bytes)
    requires |s| == 2
    ensures Un(s) < 0x1_0000
  {
    Ranges();
    LeUn(s);
  }

  function Pack(flag: u16, typ: u16, body: bytes): (f: bytes)
    ensures |f| == PACK_HEAD_LEN + |body|
    ensures |f| < U32_RANGE ==> IsFrame(f)
  {
    var size := PACK_HEAD_LEN + |body|;
    var f := Le(size, 4) + Le(flag, 2) + Le(typ, 2) + body;
    assert f[..4] == Le(size, 4);
    Ranges();
    UnLe(size, 4);
    f
  }

  /** Packing and unpacking are inverse: from fields to frame and back, ... */
  lemma UnpackPack(flag: u16, typ: u16, body: bytes)
    requires PACK_HEAD_LEN + |body| < U32_RANGE
    ensures var f := Pack(flag, typ, body);
            Flag(f) == flag && Type(f) == typ && Body(f) == body
  {
    Ranges();
    UnLe(flag, 2);
    UnLe(typ, 2);
    var f := Pack(flag, typ, body);
    assert f[4..6] == Le(flag, 2) && f[6..8] == Le(typ, 2) && f[8..] == body;
  }

  /** ... and from frame to fields and back. */
  lemma PackUnpack(f: Frame)
    ensures Pack(Flag(f), Type(f), Body(f)) == f && |f| < U32_RANGE
  {
    Ranges();
    LeUn(f[..4]);
    LeUn(f[4..6]);
    LeUn(f[6..8]);
    assert f == f[..4] + f[4..6] + f[6..8] + f[8..];
  }

  lemma Un2(s: bytes)
    requires |s| == 2
    ensures Un(s) == s[0] as int + 0x100 * (s[1] as int)
  {
    assert s[1..][1..] == [] && Un([]) == 0;
    assert Un(s[1..]) == s[1];
  }

  lemma Un4(s: bytes)
    requires |s| == 4
    ensures Un(s) == s[0] as int + 0x100 * (s[1] as int) + 0x1_0000 * (s[2] as int) + 0x100_0000 * (s[3] as int)
  {
    Un2(s[2..]);
    assert s[1..][1..] == s[2..];
  }

  /** Where everything is in a frame, byte by byte: length, flag and type with the least significant byte first, and the
      body. */
  lemma FrameLayout(f: Frame)
    ensures |f| == f[0] as int + 0x100 * (f[1] as int) + 0x1_0000 * (f[2] as int) + 0x100_0000 * (f[3] as int)
    ensures Flag(f) == f[4] as int + 0x100 * (f[5] as int)
    ensures Type(f) == f[6] as int + 0x100 * (f[7] as int) && Body(f) == f[8..]
  {
    Un4(f[..4]);
    Un2(f[4..6]);
    Un2(f[6..8]);
  }

  /** Two logs with the same bytes are the same log. */
  lemma {:induction false} FramesInjective(a: seq<Frame>, b: seq<Frame>)
    requires Concat(a) == Concat(b)
    ensures a == b
  {
    if a != [] && b != [] {
      var s := Concat(a);
      assert s[..4] == a[0][..4] == b[0][..4];
      assert s[..|a[0]|] == a[0] && s[..|b[0]|] == b[0];
      assert s[|a[0]|..] == Concat(a[1..]) && s[|b[0]|..] == Concat(b[1..]);
      FramesInjective(a[1..], b[1..]);
    }
  }
}
