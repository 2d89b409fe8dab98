/** Bit-serial cyclic redundancy checks on integers, in `/` and `%` alone: what the checksums of the program mean. */
module Division {
  import opened Wire

  /** Exclusive or, bit by bit. */
  function XorInt(a: nat, b: nat): nat
    decreases a + b
  {
    if a == 0 && b == 0 then 0
    else (if a % 2 != b % 2 then 1 else 0) + 2 * XorInt(a / 2, b / 2)
  }

  lemma XorInt2(a: nat, b: nat, x: nat, y: nat)
    requires x < 2 && y < 2
    ensures XorInt(2 * a + x, 2 * b + y) == 2 * XorInt(a, b) + (if x != y then 1 else 0)
  {
  }

  /** Four bits at once: `a` followed by the digits `x`, `b` by the digits `y`. */
  lemma XorInt16(a: nat, b: nat, x3: nat, x2: nat, x1: nat, x0: nat, y3: nat, y2: nat, y1: nat, y0: nat)
    requires x3 < 2 && x2 < 2 && x1 < 2 && x0 < 2 && y3 < 2 && y2 < 2 && y1 < 2 && y0 < 2
    ensures XorInt(16 * a + 8 * x3 + 4 * x2 + 2 * x1 + x0, 16 * b + 8 * y3 + 4 * y2 + 2 * y1 + y0) ==
            16 * XorInt(a, b) + 8 * (if x3 != y3 then 1 else 0) + 4 * (if x2 != y2 then 1 else 0)
            + 2 * (if x1 != y1 then 1 else 0) + (if x0 != y0 then 1 else 0)
  {
    hide XorInt;
    var a3, b3 := 2 * a + x3, 2 * b + y3;
    var a2, b2 := 2 * a3 + x2, 2 * b3 + y2;
    var a1, b1 := 2 * a2 + x1, 2 * b2 + y1;
    XorInt2(a, b, x3, y3);
    XorInt2(a3, b3, x2, y2);
    XorInt2(a2, b2, x1, y1);
    XorInt2(a1, b1, x0, y0);
    assert 16 * a + 8 * x3 + 4 * x2 + 2 * x1 + x0 == 2 * a1 + x0;
    assert 16 * b + 8 * y3 + 4 * y2 + 2 * y1 + y0 == 2 * b1 + y0;
  }

  /** Doubling modulo a power of two drops the top bit. */
  lemma Double16(n: nat, top: nat, rest: nat)
    requires n < 0x1_0000 && top < 2 && rest < 0x1_0000 && 2 * n == 0x1_0000 * top + rest
    ensures 2 * n % 0x1_0000 == rest && (n / 0x8000 % 2 == 1 <==> top == 1)
  {
  }

  lemma Double8(n: nat, top: nat, rest: nat)
    requires n < 256 && top < 2 && rest < 256 && 2 * n == 256 * top + rest
    ensures 2 * n % 256 == rest && (n / 128 % 2 == 1 <==> top == 1)
  {
  }

  // ---- Most significant bit first, 16 bits, polynomial 0x1021 ----

  /** One message bit: the register doubles, and the polynomial is subtracted if its top bit differs from the bit. */
  function Divide16(r: nat, bit: bool): nat {
    var doubled := 2 * r % 0x1_0000;
    if (r / 0x8000 % 2 == 1) != bit then XorInt(doubled, 0x1021) else doubled
  }

  /** The first `n` bits of a byte. */
  function Divide16Bits(r: nat, v: nat, n: nat): nat
    decreases n
  {
    if n == 0 then r else Divide16Bits(Divide16(r, v / 128 % 2 == 1), 2 * v % 256, n - 1)
  }

  function Crc16Of(r: nat, s: bytes): nat
    decreases |s|
  {
    if s == [] then r else Crc16Of(Divide16Bits(r, s[0], 8), s[1..])
  }

  // ---- Least significant bit first, 64 bits, polynomial 0xad93d23594c935a9 with its bits reversed ----

  function Divide64(r: nat, bit: bool): nat {
    if (r % 2 == 1) != bit then XorInt(r / 2, 0x95ac9329ac4bc9b5) else r / 2
  }

  function Divide64Bits(r: nat, v: nat, n: nat): nat
    decreases n
  {
    if n == 0 then r else Divide64Bits(Divide64(r, v % 2 == 1), v / 2, n - 1)
  }

  function Crc64Of(r: nat, s: bytes): nat
    decreases |s|
  {
    if s == [] then r else Crc64Of(Divide64Bits(r, s[0], 8), s[1..])
  }
}
