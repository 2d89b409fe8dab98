/** The growable byte buffer with separate read and write cursors, and frame packing into it. */
module Buffer {
  import opened Wire

  function Zeros(n: nat): bytes {
    seq(n, _ => 0)
  }

  /** `buf` grown with zeros to hold `s` at index `at`, then overwritten there. */
  function Overlay(buf: bytes, at: nat, s: bytes): (r: bytes)
    ensures |r| == if |buf| < at + |s| then at + |s| else |buf|
    ensures r[at..at + |s|] == s
    ensures forall i :: 0 <= i < |r| && !(at <= i < at + |s|) ==> r[i] == if i < |buf| then buf[i] else 0
    ensures at == |buf| ==> r == buf + s
  {
    var grown := if |buf| < at + |s| then buf + Zeros(at + |s| - |buf|) else buf;
    grown[..at] + s + grown[at + |s|..]
  }

  /** What writing some bytes one by one makes of a buffer; none leave it alone. */
  function Laid(buf: bytes, at: nat, s: bytes): (r: bytes)
    ensures at == |buf| ==> r == buf + s
  {
    if s == [] then buf else Overlay(buf, at, s)
  }

  lemma LaidAppend(buf: bytes, at: nat, s: bytes, t: bytes)
    ensures Laid(Laid(buf, at, s), at + |s|, t) == Laid(buf, at, s + t)
  {
    if s == [] {
      assert s + t == t;
    } else if t == [] {
      assert s + t == s;
    }
  }

  /** Writing behind a prefix keeps it. */
  lemma LaidKeeps(buf: bytes, at: nat, s: bytes, n: nat)
    requires n <= |buf| && n <= at
    ensures n <= |Overlay(buf, at, s)| && Overlay(buf, at, s)[..n] == buf[..n]
  {
  }

  lemma UnOne(x: byte)
    ensures Un([x]) == x
  {
    assert [x][1..] == [];
  }

  class Bytes {
    var buf: bytes
    var rpos: nat
    var wpos: nat

    constructor ()
      ensures buf == [] && rpos == 0 && wpos == 0
    {
      buf, rpos, wpos := [], 0, 0;
    }

    method Clear()
      modifies this
      ensures buf == [] && rpos == 0 && wpos == 0
    {
      rpos := 0;
      wpos := 0;
      buf := [];
    }

    /** `size() - rpos` in unsigned 32-bit arithmetic: it wraps once the read cursor passes the end. */
    method BytesRemaining() returns (n: nat)
      ensures rpos <= |buf| < U32_RANGE ==> n == |buf| - rpos
      ensures |buf| < rpos < U32_RANGE ==> n == U32_RANGE + |buf| - rpos
    {
      n := (|buf| - rpos) % U32_RANGE;
    }

    /** The `n`-byte integer at `index`; a read that would pass the end yields 0. */
    function At(index: nat, n: nat): nat
      reads this
    {
      if index + n <= |buf| then Un(buf[index..index + n]) else 0
    }

    /** Relative read: the cursor advances by `n` even when the read is out of range. */
    method Read(n: nat) returns (v: nat)
      modifies this`rpos
      ensures v == old(At(rpos, n)) && rpos == old(rpos) + n
    {
      v := At(rpos, n);
      rpos := rpos + n;
    }

    method GetBytes(len: nat) returns (s: bytes)
      modifies this`rpos
      ensures rpos == old(rpos) + len && |s| == len
      ensures old(rpos) + len <= |buf| ==> s == buf[old(rpos)..old(rpos) + len]
      ensures forall i :: 0 <= i < len && old(rpos) + i >= |buf| ==> s[i] == 0
    {
      s := [];
      for i := 0 to len
        invariant rpos == old(rpos) + i && |s| == i
        invariant forall k :: 0 <= k < i ==> s[k] == if old(rpos) + k < |buf| then buf[old(rpos) + k] else 0
      {
        assert rpos < |buf| ==> Un(buf[rpos..rpos + 1]) == buf[rpos] by {
          if rpos < |buf| {
            assert buf[rpos..rpos + 1][1..] == [];
          }
        }
        var b := Read(1);
        s := s + [b];
      }
    }

    /** Relative write of an `n`-byte integer. */
    method Append(v: nat, n: nat)
      modifies this`buf, this`wpos
      ensures buf == Overlay(old(buf), old(wpos), Le(v, n)) && wpos == old(wpos) + n
    {
      buf := Overlay(buf, wpos, Le(v, n));
      wpos := wpos + n;
    }

    /** Absolute write: ignored unless it falls inside the buffer; it also moves the write cursor. */
    method Insert(v: nat, n: nat, index: nat)
      modifies this`buf, this`wpos
      ensures index + n > old(|buf|) ==> buf == old(buf) && wpos == old(wpos)
      ensures index + n <= old(|buf|) ==>
                buf == old(buf)[..index] + Le(v, n) + old(buf)[index + n..] && wpos == index + n
    {
      if index + n > |buf| {
        return;
      }
      buf := buf[..index] + Le(v, n) + buf[index + n..];
      wpos := index + n;
    }

    method PutBytes(b: bytes)
      modifies this`buf, this`wpos
      ensures buf == Laid(old(buf), old(wpos), b) && wpos == old(wpos) + |b|
    {
      hide Overlay;
      for i := 0 to |b|
        invariant buf == Laid(old(buf), old(wpos), b[..i]) && wpos == old(wpos) + i
      {
        assert Le(b[i], 1) == [b[i]] && b[..i + 1] == b[..i] + [b[i]];
        LaidAppend(old(buf), old(wpos), b[..i], [b[i]]);
        Append(b[i], 1);
      }
      assert b[..|b|] == b;
    }

    /** Writes the whole contents of a buffer, whatever its cursors, at the write cursor of this one. */
    method Put(src: Bytes)
      requires src != this || |buf| <= wpos
      modifies this`buf, this`wpos
      ensures buf == Laid(old(buf), old(wpos), old(src.buf)) && wpos == old(wpos) + |old(src.buf)|
    {
      hide Overlay;
      ghost var s := src.buf;
      var len := |src.buf|;
      for i := 0 to len
        invariant buf == Laid(old(buf), old(wpos), s[..i]) && wpos == old(wpos) + i
        invariant len == |s| <= |src.buf| && src.buf[..len] == s && (src == this ==> |s| <= wpos)
      {
        var v := src.At(i, 1);
        assert v == s[i] by {
          assert src.buf[i] == src.buf[..len][i] == s[i];
          assert src.buf[i..i + 1] == [s[i]];
          UnOne(s[i]);
        }
        assert Le(s[i], 1) == [s[i]] && s[..i + 1] == s[..i] + [s[i]];
        LaidAppend(old(buf), old(wpos), s[..i], [s[i]]);
        if src == this {
          LaidKeeps(buf, wpos, [s[i]], len);
        }
        Append(v, 1);
      }
      assert s[..|s|] == s;
    }
  }

  /** Packs a body as a frame of flag 0 at the write cursor of `pack`. */
  method Serialize(msg: bytes, typ: u16, pack: Bytes)
    modifies pack`buf, pack`wpos
    ensures pack.buf == Overlay(old(pack.buf), old(pack.wpos), Pack(0, typ, msg))
    ensures pack.wpos == old(pack.wpos) + PACK_HEAD_LEN + |msg|
  {
    hide Overlay;
    ghost var b, at := pack.buf, pack.wpos;
    var size, flag, kind := Le(PACK_HEAD_LEN + |msg|, 4), Le(0, 2), Le(typ, 2);
    LaidAppend(b, at, size, flag);
    LaidAppend(b, at, size + flag, kind);
    LaidAppend(b, at, size + flag + kind, msg);
    pack.Append(PACK_HEAD_LEN + |msg|, 4);
    pack.Append(0, 2);
    pack.Append(typ, 2);
    pack.PutBytes(msg);
  }
}
