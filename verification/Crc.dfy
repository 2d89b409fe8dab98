/** The key hash: the table-driven CRC-16 of the program, proved against bit-serial long division. Registers are
    written as hexadecimal digits and each digit is a record of bits, so that the proof is propositional. */
module Crc {
  import opened Division
  import opened Wire

  datatype Nibble = Nibble(b3: bool, b2: bool, b1: bool, b0: bool)

  const H0 := Nibble(false, false, false, false)
  const H1 := Nibble(false, false, false, true)
  const H2 := Nibble(false, false, true, false)
  const H3 := Nibble(false, false, true, true)
  const H4 := Nibble(false, true, false, false)
  const H5 := Nibble(false, true, false, true)
  const H6 := Nibble(false, true, true, false)
  const H7 := Nibble(false, true, true, true)
  const H8 := Nibble(true, false, false, false)
  const H9 := Nibble(true, false, false, true)
  const HA := Nibble(true, false, true, false)
  const HB := Nibble(true, false, true, true)
  const HC := Nibble(true, true, false, false)
  const HD := Nibble(true, true, false, true)
  const HE := Nibble(true, true, true, false)
  const HF := Nibble(true, true, true, true)

  /** A 16-bit register and a byte, most significant digit first. */
  datatype Reg = Reg(n3: Nibble, n2: Nibble, n1: Nibble, n0: Nibble)

  datatype Octet = Octet(hi: Nibble, lo: Nibble)

  const ZERO := Reg(H0, H0, H0, H0)

  function XorNibble(a: Nibble, b: Nibble): Nibble {
    Nibble(a.b3 != b.b3, a.b2 != b.b2, a.b1 != b.b1, a.b0 != b.b0)
  }

  function Xor(a: Reg, b: Reg): Reg {
    Reg(XorNibble(a.n3, b.n3), XorNibble(a.n2, b.n2), XorNibble(a.n1, b.n1), XorNibble(a.n0, b.n0))
  }

  function XorOctet(a: Octet, b: Octet): Octet {
    Octet(XorNibble(a.hi, b.hi), XorNibble(a.lo, b.lo))
  }

  /** A digit shifted left, with the bit that comes in from the right. */
  function Left(n: Nibble, bit: bool): Nibble {
    Nibble(n.b2, n.b1, n.b0, bit)
  }

  function Upper(c: Reg): Octet {
    Octet(c.n3, c.n2)
  }

  function Lower(c: Reg): Octet {
    Octet(c.n1, c.n0)
  }

  /** `o << 8` as a register. */
  function High(o: Octet): Reg {
    Reg(o.hi, o.lo, H0, H0)
  }

  function Low(o: Octet): Reg {
    Reg(H0, H0, o.hi, o.lo)
  }

  // ---- The reference: long division over GF(2), one message bit at a time ----

  function Shifted(c: Reg): Reg {
    Reg(Left(c.n3, c.n2.b3), Left(c.n2, c.n1.b3), Left(c.n1, c.n0.b3), Left(c.n0, false))
  }

  const POLY := Reg(H1, H0, H2, H1)

  /** A message bit enters at the top; if that makes the leading bit one, the polynomial 0x1021 is subtracted from
      the shifted register. */
  function ShiftIn(c: Reg, bit: bool): Reg {
    if c.n3.b3 != bit then Xor(Shifted(c), POLY) else Shifted(c)
  }

  function Top(o: Octet): bool {
    o.hi.b3
  }

  function Up(o: Octet): Octet {
    Octet(Left(o.hi, o.lo.b3), Left(o.lo, false))
  }

  /** The first `n` bits of a byte enter, most significant first. */
  function ShiftBits(c: Reg, o: Octet, n: nat): Reg
    decreases n
  {
    if n == 0 then c else ShiftBits(ShiftIn(c, Top(o)), Up(o), n - 1)
  }

  /** The remainder of a message started from register `c`: from 0, CRC-16/XMODEM. */
  function Remainder(c: Reg, s: seq<Octet>): Reg
    decreases |s|
  {
    if s == [] then c else Remainder(ShiftBits(c, s[0], 8), s[1..])
  }

  // ---- The table of the program ----

  function Pick(n: Nibble, a0: Reg, a1: Reg, a2: Reg, a3: Reg, a4: Reg, a5: Reg, a6: Reg, a7: Reg,
                a8: Reg, a9: Reg, a10: Reg, a11: Reg, a12: Reg, a13: Reg, a14: Reg, a15: Reg): Reg
  {
    if n.b3 then
      if n.b2 then (if n.b1 then (if n.b0 then a15 else a14) else if n.b0 then a13 else a12)
      else if n.b1 then (if n.b0 then a11 else a10) else if n.b0 then a9 else a8
    else if n.b2 then (if n.b1 then (if n.b0 then a7 else a6) else if n.b0 then a5 else a4)
    else if n.b1 then (if n.b0 then a3 else a2) else if n.b0 then a1 else a0
  }

  function Tab(o: Octet): Reg {
    if o.hi == H0 then Pick(o.lo,
      Reg(H0, H0, H0, H0), Reg(H1, H0, H2, H1), Reg(H2, H0, H4, H2), Reg(H3, H0, H6, H3),
      Reg(H4, H0, H8, H4), Reg(H5, H0, HA, H5), Reg(H6, H0, HC, H6), Reg(H7, H0, HE, H7),
      Reg(H8, H1, H0, H8), Reg(H9, H1, H2, H9), Reg(HA, H1, H4, HA), Reg(HB, H1, H6, HB),
      Reg(HC, H1, H8, HC), Reg(HD, H1, HA, HD), Reg(HE, H1, HC, HE), Reg(HF, H1, HE, HF))
    else if o.hi == H1 then Pick(o.lo,
      Reg(H1, H2, H3, H1), Reg(H0, H2, H1, H0), Reg(H3, H2, H7, H3), Reg(H2, H2, H5, H2),
      Reg(H5, H2, HB, H5), Reg(H4, H2, H9, H4), Reg(H7, H2, HF, H7), Reg(H6, H2, HD, H6),
      Reg(H9, H3, H3, H9), Reg(H8, H3, H1, H8), Reg(HB, H3, H7, HB), Reg(HA, H3, H5, HA),
      Reg(HD, H3, HB, HD), Reg(HC, H3, H9, HC), Reg(HF, H3, HF, HF), Reg(HE, H3, HD, HE))
    else if o.hi == H2 then Pick(o.lo,
      Reg(H2, H4, H6, H2), Reg(H3, H4, H4, H3), Reg(H0, H4, H2, H0), Reg(H1, H4, H0, H1),
      Reg(H6, H4, HE, H6), Reg(H7, H4, HC, H7), Reg(H4, H4, HA, H4), Reg(H5, H4, H8, H5),
      Reg(HA, H5, H6, HA), Reg(HB, H5, H4, HB), Reg(H8, H5, H2, H8), Reg(H9, H5, H0, H9),
      Reg(HE, H5, HE, HE), Reg(HF, H5, HC, HF), Reg(HC, H5, HA, HC), Reg(HD, H5, H8, HD))
    else if o.hi == H3 then Pick(o.lo,
      Reg(H3, H6, H5, H3), Reg(H2, H6, H7, H2), Reg(H1, H6, H1, H1), Reg(H0, H6, H3, H0),
      Reg(H7, H6, HD, H7), Reg(H6, H6, HF, H6), Reg(H5, H6, H9, H5), Reg(H4, H6, HB, H4),
      Reg(HB, H7, H5, HB), Reg(HA, H7, H7, HA), Reg(H9, H7, H1, H9), Reg(H8, H7, H3, H8),
      Reg(HF, H7, HD, HF), Reg(HE, H7, HF, HE), Reg(HD, H7, H9, HD), Reg(HC, H7, HB, HC))
    else if o.hi == H4 then Pick(o.lo,
      Reg(H4, H8, HC, H4), Reg(H5, H8, HE, H5), Reg(H6, H8, H8, H6), Reg(H7, H8, HA, H7),
      Reg(H0, H8, H4, H0), Reg(H1, H8, H6, H1), Reg(H2, H8, H0, H2), Reg(H3, H8, H2, H3),
      Reg(HC, H9, HC, HC), Reg(HD, H9, HE, HD), Reg(HE, H9, H8, HE), Reg(HF, H9, HA, HF),
      Reg(H8, H9, H4, H8), Reg(H9, H9, H6, H9), Reg(HA, H9, H0, HA), Reg(HB, H9, H2, HB))
    else if o.hi == H5 then Pick(o.lo,
      Reg(H5, HA, HF, H5), Reg(H4, HA, HD, H4), Reg(H7, HA, HB, H7), Reg(H6, HA, H9, H6),
      Reg(H1, HA, H7, H1), Reg(H0, HA, H5, H0), Reg(H3, HA, H3, H3), Reg(H2, HA, H1, H2),
      Reg(HD, HB, HF, HD), Reg(HC, HB, HD, HC), Reg(HF, HB, HB, HF), Reg(HE, HB, H9, HE),
      Reg(H9, HB, H7, H9), Reg(H8, HB, H5, H8), Reg(HB, HB, H3, HB), Reg(HA, HB, H1, HA))
    else if o.hi == H6 then Pick(o.lo,
      Reg(H6, HC, HA, H6), Reg(H7, HC, H8, H7), Reg(H4, HC, HE, H4), Reg(H5, HC, HC, H5),
      Reg(H2, HC, H2, H2), Reg(H3, HC, H0, H3), Reg(H0, HC, H6, H0), Reg(H1, HC, H4, H1),
      Reg(HE, HD, HA, HE), Reg(HF, HD, H8, HF), Reg(HC, HD, HE, HC), Reg(HD, HD, HC, HD),
      Reg(HA, HD, H2, HA), Reg(HB, HD, H0, HB), Reg(H8, HD, H6, H8), Reg(H9, HD, H4, H9))
    else if o.hi == H7 then Pick(o.lo,
      Reg(H7, HE, H9, H7), Reg(H6, HE, HB, H6), Reg(H5, HE, HD, H5), Reg(H4, HE, HF, H4),
      Reg(H3, HE, H1, H3), Reg(H2, HE, H3, H2), Reg(H1, HE, H5, H1), Reg(H0, HE, H7, H0),
      Reg(HF, HF, H9, HF), Reg(HE, HF, HB, HE), Reg(HD, HF, HD, HD), Reg(HC, HF, HF, HC),
      Reg(HB, HF, H1, HB), Reg(HA, HF, H3, HA), Reg(H9, HF, H5, H9), Reg(H8, HF, H7, H8))
    else if o.hi == H8 then Pick(o.lo,
      Reg(H9, H1, H8, H8), Reg(H8, H1, HA, H9), Reg(HB, H1, HC, HA), Reg(HA, H1, HE, HB),
      Reg(HD, H1, H0, HC), Reg(HC, H1, H2, HD), Reg(HF, H1, H4, HE), Reg(HE, H1, H6, HF),
      Reg(H1, H0, H8, H0), Reg(H0, H0, HA, H1), Reg(H3, H0, HC, H2), Reg(H2, H0, HE, H3),
      Reg(H5, H0, H0, H4), Reg(H4, H0, H2, H5), Reg(H7, H0, H4, H6), Reg(H6, H0, H6, H7))
    else if o.hi == H9 then Pick(o.lo,
      Reg(H8, H3, HB, H9), Reg(H9, H3, H9, H8), Reg(HA, H3, HF, HB), Reg(HB, H3, HD, HA),
      Reg(HC, H3, H3, HD), Reg(HD, H3, H1, HC), Reg(HE, H3, H7, HF), Reg(HF, H3, H5, HE),
      Reg(H0, H2, HB, H1), Reg(H1, H2, H9, H0), Reg(H2, H2, HF, H3), Reg(H3, H2, HD, H2),
      Reg(H4, H2, H3, H5), Reg(H5, H2, H1, H4), Reg(H6, H2, H7, H7), Reg(H7, H2, H5, H6))
    else if o.hi == HA then Pick(o.lo,
      Reg(HB, H5, HE, HA), Reg(HA, H5, HC, HB), Reg(H9, H5, HA, H8), Reg(H8, H5, H8, H9),
      Reg(HF, H5, H6, HE), Reg(HE, H5, H4, HF), Reg(HD, H5, H2, HC), Reg(HC, H5, H0, HD),
      Reg(H3, H4, HE, H2), Reg(H2, H4, HC, H3), Reg(H1, H4, HA, H0), Reg(H0, H4, H8, H1),
      Reg(H7, H4, H6, H6), Reg(H6, H4, H4, H7), Reg(H5, H4, H2, H4), Reg(H4, H4, H0, H5))
    else if o.hi == HB then Pick(o.lo,
      Reg(HA, H7, HD, HB), Reg(HB, H7, HF, HA), Reg(H8, H7, H9, H9), Reg(H9, H7, HB, H8),
      Reg(HE, H7, H5, HF), Reg(HF, H7, H7, HE), Reg(HC, H7, H1, HD), Reg(HD, H7, H3, HC),
      Reg(H2, H6, HD, H3), Reg(H3, H6, HF, H2), Reg(H0, H6, H9, H1), Reg(H1, H6, HB, H0),
      Reg(H6, H6, H5, H7), Reg(H7, H6, H7, H6), Reg(H4, H6, H1, H5), Reg(H5, H6, H3, H4))
    else if o.hi == HC then Pick(o.lo,
      Reg(HD, H9, H4, HC), Reg(HC, H9, H6, HD), Reg(HF, H9, H0, HE), Reg(HE, H9, H2, HF),
      Reg(H9, H9, HC, H8), Reg(H8, H9, HE, H9), Reg(HB, H9, H8, HA), Reg(HA, H9, HA, HB),
      Reg(H5, H8, H4, H4), Reg(H4, H8, H6, H5), Reg(H7, H8, H0, H6), Reg(H6, H8, H2, H7),
      Reg(H1, H8, HC, H0), Reg(H0, H8, HE, H1), Reg(H3, H8, H8, H2), Reg(H2, H8, HA, H3))
    else if o.hi == HD then Pick(o.lo,
      Reg(HC, HB, H7, HD), Reg(HD, HB, H5, HC), Reg(HE, HB, H3, HF), Reg(HF, HB, H1, HE),
      Reg(H8, HB, HF, H9), Reg(H9, HB, HD, H8), Reg(HA, HB, HB, HB), Reg(HB, HB, H9, HA),
      Reg(H4, HA, H7, H5), Reg(H5, HA, H5, H4), Reg(H6, HA, H3, H7), Reg(H7, HA, H1, H6),
      Reg(H0, HA, HF, H1), Reg(H1, HA, HD, H0), Reg(H2, HA, HB, H3), Reg(H3, HA, H9, H2))
    else if o.hi == HE then Pick(o.lo,
      Reg(HF, HD, H2, HE), Reg(HE, HD, H0, HF), Reg(HD, HD, H6, HC), Reg(HC, HD, H4, HD),
      Reg(HB, HD, HA, HA), Reg(HA, HD, H8, HB), Reg(H9, HD, HE, H8), Reg(H8, HD, HC, H9),
      Reg(H7, HC, H2, H6), Reg(H6, HC, H0, H7), Reg(H5, HC, H6, H4), Reg(H4, HC, H4, H5),
      Reg(H3, HC, HA, H2), Reg(H2, HC, H8, H3), Reg(H1, HC, HE, H0), Reg(H0, HC, HC, H1))
    else Pick(o.lo,
      Reg(HE, HF, H1, HF), Reg(HF, HF, H3, HE), Reg(HC, HF, H5, HD), Reg(HD, HF, H7, HC),
      Reg(HA, HF, H9, HB), Reg(HB, HF, HB, HA), Reg(H8, HF, HD, H9), Reg(H9, HF, HF, H8),
      Reg(H6, HE, H1, H7), Reg(H7, HE, H3, H6), Reg(H4, HE, H5, H5), Reg(H5, HE, H7, H4),
      Reg(H2, HE, H9, H3), Reg(H3, HE, HB, H2), Reg(H0, HE, HD, H1), Reg(H1, HE, HF, H0))
  }

  /** One round of the loop: `crc = (crc << 8) ^ tab[((crc >> 8) ^ byte) & 0xff]`. */
  function Lookup(c: Reg, o: Octet): Reg {
    Xor(High(Lower(c)), Tab(XorOctet(Upper(c), o)))
  }

  // ---- Steps of a register without message bits ----

  function Step(c: Reg): Reg {
    ShiftIn(c, false)
  }

  function Steps(c: Reg, n: nat): Reg
    decreases n
  {
    if n == 0 then c else Steps(Step(c), n - 1)
  }

  function StepsFour(c: Reg): Reg {
    Step(Step(Step(Step(c))))
  }

  lemma StepsEight(c: Reg)
    ensures Steps(c, 8) == StepsFour(StepsFour(c))
  {
    hide Step;
    var d := StepsFour(c);
    assert Steps(c, 8) == Steps(Step(c), 7) == Steps(Step(Step(c)), 6) == Steps(Step(Step(Step(c))), 5) == Steps(d, 4);
    assert Steps(d, 4) == Steps(Step(d), 3) == Steps(Step(Step(d)), 2) == Steps(Step(Step(Step(d))), 1) == StepsFour(d);
  }

  lemma StepXor(a: Reg, b: Reg)
    ensures Step(Xor(a, b)) == Xor(Step(a), Step(b))
  {
    assert Xor(a, b).n3.b3 == (a.n3.b3 != b.n3.b3);
    ShiftedXor(a, b);
    PolyOnce(Shifted(a), Shifted(b));
    PolyTwice(Shifted(a), Shifted(b));
    hide Xor, Shifted;
  }

  lemma ShiftedXor(a: Reg, b: Reg)
    ensures Shifted(Xor(a, b)) == Xor(Shifted(a), Shifted(b))
  {
  }

  lemma PolyOnce(p: Reg, q: Reg)
    ensures Xor(Xor(p, q), POLY) == Xor(Xor(p, POLY), q) == Xor(p, Xor(q, POLY))
  {
  }

  lemma PolyTwice(p: Reg, q: Reg)
    ensures Xor(Xor(p, POLY), Xor(q, POLY)) == Xor(p, q)
  {
  }

  lemma {:induction false} StepsXor(a: Reg, b: Reg, n: nat)
    ensures Steps(Xor(a, b), n) == Xor(Steps(a, n), Steps(b, n))
    decreases n
  {
    hide Step, Xor;
    if n > 0 {
      StepXor(a, b);
      StepsXor(Step(a), Step(b), n - 1);
    }
  }

  /** A message bit may be added to the register before the step; the rest of its byte moves up. */
  lemma ShiftInXor(c: Reg, o: Octet)
    ensures Step(Xor(c, High(o))) == Xor(ShiftIn(c, Top(o)), High(Up(o)))
  {
  }

  function UpBy(o: Octet, n: nat): Octet
    decreases n
  {
    if n == 0 then o else UpBy(Up(o), n - 1)
  }

  lemma {:induction false} ShiftBitsXor(c: Reg, o: Octet, n: nat)
    ensures Steps(Xor(c, High(o)), n) == Xor(ShiftBits(c, o, n), High(UpBy(o, n)))
    decreases n
  {
    hide Step, Xor, High, ShiftIn, Top, Up;
    if n > 0 {
      ShiftInXor(c, o);
      ShiftBitsXor(ShiftIn(c, Top(o)), Up(o), n - 1);
    }
  }

  lemma UpEight(o: Octet)
    ensures UpBy(o, 8) == Octet(H0, H0)
  {
    var p := Up(Up(Up(Up(o))));
    assert UpBy(o, 8) == UpBy(Up(o), 7) == UpBy(Up(Up(o)), 6) == UpBy(Up(Up(Up(o))), 5) == UpBy(p, 4);
    assert UpBy(p, 4) == UpBy(Up(p), 3) == UpBy(Up(Up(p)), 2) == UpBy(Up(Up(Up(p))), 1) == Up(Up(Up(Up(p))));
  }

  lemma XorZero(c: Reg)
    ensures Xor(c, High(Octet(H0, H0))) == c
  {
  }

  /** A byte entering bit by bit is eight plain steps of the register with the byte added at its top. */
  lemma ShiftByte(c: Reg, o: Octet)
    ensures ShiftBits(c, o, 8) == Steps(Xor(c, High(o)), 8)
  {
    hide Xor, High, ShiftBits, Steps, UpBy;
    ShiftBitsXor(c, o, 8);
    UpEight(o);
    XorZero(ShiftBits(c, o, 8));
  }

  // ---- The table is what division makes of a byte ----

  predicate Tabulated(o: Octet) {
    Tab(o) == StepsFour(StepsFour(High(o)))
  }

  lemma Row0(lo: Nibble)
    ensures Tabulated(Octet(H0, lo))
  {
  }

  lemma Row1(lo: Nibble)
    ensures Tabulated(Octet(H1, lo))
  {
  }

  lemma Row2(lo: Nibble)
    ensures Tabulated(Octet(H2, lo))
  {
  }

  lemma Row3(lo: Nibble)
    ensures Tabulated(Octet(H3, lo))
  {
  }

  lemma Row4(lo: Nibble)
    ensures Tabulated(Octet(H4, lo))
  {
  }

  lemma Row5(lo: Nibble)
    ensures Tabulated(Octet(H5, lo))
  {
  }

  lemma Row6(lo: Nibble)
    ensures Tabulated(Octet(H6, lo))
  {
  }

  lemma Row7(lo: Nibble)
    ensures Tabulated(Octet(H7, lo))
  {
  }

  lemma Row8(lo: Nibble)
    ensures Tabulated(Octet(H8, lo))
  {
  }

  lemma Row9(lo: Nibble)
    ensures Tabulated(Octet(H9, lo))
  {
  }

  lemma RowA(lo: Nibble)
    ensures Tabulated(Octet(HA, lo))
  {
  }

  lemma RowB(lo: Nibble)
    ensures Tabulated(Octet(HB, lo))
  {
  }

  lemma RowC(lo: Nibble)
    ensures Tabulated(Octet(HC, lo))
  {
  }

  lemma RowD(lo: Nibble)
    ensures Tabulated(Octet(HD, lo))
  {
  }

  lemma RowE(lo: Nibble)
    ensures Tabulated(Octet(HE, lo))
  {
  }

  lemma RowF(lo: Nibble)
    ensures Tabulated(Octet(HF, lo))
  {
  }

  lemma TableSteps(o: Octet)
    ensures Steps(High(o), 8) == Tab(o)
  {
    AllTabulated(o);
    StepsEight(High(o));
  }

  lemma AllTabulated(o: Octet)
    ensures Tabulated(o)
  {
    hide Tabulated;
    if o.hi == H0 {
      Row0(o.lo);
    } else if o.hi == H1 {
      Row1(o.lo);
    } else if o.hi == H2 {
      Row2(o.lo);
    } else if o.hi == H3 {
      Row3(o.lo);
    } else if o.hi == H4 {
      Row4(o.lo);
    } else if o.hi == H5 {
      Row5(o.lo);
    } else if o.hi == H6 {
      Row6(o.lo);
    } else if o.hi == H7 {
      Row7(o.lo);
    } else if o.hi == H8 {
      Row8(o.lo);
    } else if o.hi == H9 {
      Row9(o.lo);
    } else if o.hi == HA {
      RowA(o.lo);
    } else if o.hi == HB {
      RowB(o.lo);
    } else if o.hi == HC {
      RowC(o.lo);
    } else if o.hi == HD {
      RowD(o.lo);
    } else if o.hi == HE {
      RowE(o.lo);
    } else {
      RowF(o.lo);
    }
  }

  /** The register splits into the byte the table is asked for and the byte that just moves up. */
  lemma Halves(c: Reg, o: Octet)
    ensures Xor(c, High(o)) == Xor(High(XorOctet(Upper(c), o)), Low(Lower(c)))
  {
  }

  lemma LowSteps(o: Octet)
    ensures Steps(Low(o), 8) == High(o)
  {
    StepsEight(Low(o));
  }

  lemma XorCommutes(a: Reg, b: Reg)
    ensures Xor(a, b) == Xor(b, a)
  {
  }

  /** One table lookup is eight steps of long division. */
  lemma LookupIsDivision(c: Reg, o: Octet)
    ensures Lookup(c, o) == ShiftBits(c, o, 8)
  {
    hide Xor, High, Steps, Low, Upper, Lower, XorOctet, ShiftBits, Tab;
    var hi, lo := XorOctet(Upper(c), o), Lower(c);
    ShiftByte(c, o);
    Halves(c, o);
    StepsXor(High(hi), Low(lo), 8);
    TableSteps(hi);
    LowSteps(lo);
    XorCommutes(High(lo), Tab(hi));
  }

  // ---- Byte strings ----

  function NibbleOf(v: nat): Nibble {
    Nibble(v / 8 % 2 == 1, v / 4 % 2 == 1, v / 2 % 2 == 1, v % 2 == 1)
  }

  function OctetOf(v: byte): Octet {
    Octet(NibbleOf(v / 16), NibbleOf(v % 16))
  }

  function Octets(s: bytes): (r: seq<Octet>)
    ensures |r| == |s|
  {
    seq(|s|, i requires 0 <= i < |s| => OctetOf(s[i]))
  }

  function One(b: bool): nat {
    if b then 1 else 0
  }

  function Digit(n: Nibble): (d: nat)
    ensures d < 16
  {
    8 * One(n.b3) + 4 * One(n.b2) + 2 * One(n.b1) + One(n.b0)
  }

  /** The number a register stands for. */
  function Number(c: Reg): u16 {
    4096 * Digit(c.n3) + 256 * Digit(c.n2) + 16 * Digit(c.n1) + Digit(c.n0)
  }

  /** Main result: the table-driven loop computes the remainder of bit-serial division, for every byte string, on
      registers and on the integers they stand for. */
  method Crc16(s: bytes) returns (crc: Reg)
    ensures crc == Remainder(ZERO, Octets(s)) && Number(crc) == Crc16Of(0, s)
  {
    assert Number(ZERO) == 0;
    RemainderNumber(ZERO, s);
    hide Lookup, ShiftBits, OctetOf, Number, Crc16Of;
    crc := ZERO;
    ghost var os := Octets(s);
    assert os[0..] == os;
    for counter := 0 to |s|
      invariant Remainder(crc, os[counter..]) == Remainder(ZERO, os)
    {
      LookupIsDivision(crc, os[counter]);
      assert os[counter..][0] == os[counter] && os[counter..][1..] == os[counter + 1..];
      crc := Lookup(crc, OctetOf(s[counter]));
    }
  }

  // ---- Linearity ----

  function XorAll(a: seq<Octet>, b: seq<Octet>): (r: seq<Octet>)
    requires |a| == |b|
    ensures |r| == |a|
  {
    seq(|a|, i requires 0 <= i < |a| => XorOctet(a[i], b[i]))
  }

  lemma Regroup(c: Reg, d: Reg, a: Octet, b: Octet)
    ensures Xor(Xor(c, d), High(XorOctet(a, b))) == Xor(Xor(c, High(a)), Xor(d, High(b)))
  {
  }

  /** The checksum is linear over xor of strings of equal length. */
  lemma {:induction false} RemainderXor(c: Reg, d: Reg, a: seq<Octet>, b: seq<Octet>)
    requires |a| == |b|
    ensures Remainder(Xor(c, d), XorAll(a, b)) == Xor(Remainder(c, a), Remainder(d, b))
    decreases |a|
  {
    hide Xor, High, Steps, ShiftBits, XorOctet;
    if a != [] {
      ShiftByte(Xor(c, d), XorOctet(a[0], b[0]));
      ShiftByte(c, a[0]);
      ShiftByte(d, b[0]);
      Regroup(c, d, a[0], b[0]);
      StepsXor(Xor(c, High(a[0])), Xor(d, High(b[0])), 8);
      assert XorAll(a, b)[1..] == XorAll(a[1..], b[1..]);
      RemainderXor(ShiftBits(c, a[0], 8), ShiftBits(d, b[0], 8), a[1..], b[1..]);
    }
  }

  // ---- The checksum on integers ----

  function OctetNumber(o: Octet): byte {
    16 * Digit(o.hi) + Digit(o.lo)
  }

  lemma OctetValue(v: byte)
    ensures OctetNumber(OctetOf(v)) == v
  {
    NibbleDigit(v / 16);
    NibbleDigit(v % 16);
  }

  lemma NibbleDigit(d: nat)
    requires d < 16
    ensures Digit(NibbleOf(d)) == d
  {
  }

  /** Doubling a digit, and the parts it falls into. */
  lemma LeftDigit(n: Nibble, bit: bool)
    ensures 16 * One(n.b3) + Digit(Left(n, bit)) == 2 * Digit(n) + One(bit)
    ensures n.b3 <==> Digit(n) >= 8
  {
  }

  /** Shifting a register left doubles its number modulo 2^16. */
  lemma ShiftedNumber(c: Reg)
    ensures Number(Shifted(c)) == 2 * Number(c) % 0x1_0000
    ensures c.n3.b3 <==> Number(c) / 0x8000 % 2 == 1
  {
    LeftDigit(c.n3, c.n2.b3);
    LeftDigit(c.n2, c.n1.b3);
    LeftDigit(c.n1, c.n0.b3);
    LeftDigit(c.n0, false);
    hide Left, Digit;
    assert 2 * Number(c) == 0x1_0000 * One(c.n3.b3) + Number(Shifted(c));
    hide Number, Shifted;
    Double16(Number(c), One(c.n3.b3), Number(Shifted(c)));
  }

  lemma UpValue(o: Octet)
    ensures OctetNumber(Up(o)) == 2 * OctetNumber(o) % 256
    ensures Top(o) <==> OctetNumber(o) / 128 % 2 == 1
  {
    LeftDigit(o.hi, o.lo.b3);
    LeftDigit(o.lo, false);
    hide Left, Digit;
    assert 2 * OctetNumber(o) == 256 * One(o.hi.b3) + OctetNumber(Up(o));
    hide OctetNumber, Up;
    Double8(OctetNumber(o), One(o.hi.b3), OctetNumber(Up(o)));
  }

  /** The number `a` followed by a digit. */
  function Push(a: nat, n: Nibble): nat {
    16 * a + Digit(n)
  }

  lemma XorPush(a: nat, b: nat, n: Nibble, m: Nibble)
    ensures XorInt(Push(a, n), Push(b, m)) == Push(XorInt(a, b), XorNibble(n, m))
  {
    hide XorInt;
    XorInt16(a, b, One(n.b3), One(n.b2), One(n.b1), One(n.b0), One(m.b3), One(m.b2), One(m.b1), One(m.b0));
    assert Push(a, n) == 16 * a + 8 * One(n.b3) + 4 * One(n.b2) + 2 * One(n.b1) + One(n.b0);
    assert Push(b, m) == 16 * b + 8 * One(m.b3) + 4 * One(m.b2) + 2 * One(m.b1) + One(m.b0);
    XorDigit(n, m);
    hide Digit, One;
  }

  lemma XorDigit(n: Nibble, m: Nibble)
    ensures Digit(XorNibble(n, m)) ==
            8 * (if One(n.b3) != One(m.b3) then 1 else 0) + 4 * (if One(n.b2) != One(m.b2) then 1 else 0)
            + 2 * (if One(n.b1) != One(m.b1) then 1 else 0) + (if One(n.b0) != One(m.b0) then 1 else 0)
  {
  }

  /** The number `a` followed by the digits of a register. */
  function After(a: nat, c: Reg): nat {
    Push(Push(Push(Push(a, c.n3), c.n2), c.n1), c.n0)
  }

  lemma AfterNumber(a: nat, c: Reg)
    ensures After(a, c) == 0x1_0000 * a + Number(c)
  {
    hide Digit;
  }

  lemma XorAfter(a: nat, b: nat, c: Reg, d: Reg)
    ensures XorInt(After(a, c), After(b, d)) == After(XorInt(a, b), Xor(c, d))
  {
    hide XorInt, Digit, XorNibble, Push;
    XorPush(a, b, c.n3, d.n3);
    XorPush(Push(a, c.n3), Push(b, d.n3), c.n2, d.n2);
    XorPush(Push(Push(a, c.n3), c.n2), Push(Push(b, d.n3), d.n2), c.n1, d.n1);
    XorPush(Push(Push(Push(a, c.n3), c.n2), c.n1), Push(Push(Push(b, d.n3), d.n2), d.n1), c.n0, d.n0);
  }

  lemma XorNumber(c: Reg, d: Reg)
    ensures Number(Xor(c, d)) == XorInt(Number(c), Number(d))
  {
    assert XorInt(0, 0) == 0;
    hide XorInt, After, Number, Xor;
    XorAfter(0, 0, c, d);
    AfterNumber(0, c);
    AfterNumber(0, d);
    AfterNumber(0, Xor(c, d));
  }

  lemma ShiftInNumber(c: Reg, bit: bool)
    ensures Number(ShiftIn(c, bit)) == Divide16(Number(c), bit)
  {
    assert Number(POLY) == 0x1021;
    ShiftedNumber(c);
    XorNumber(Shifted(c), POLY);
    hide Xor, XorInt, Shifted, Number;
  }

  lemma {:induction false} ShiftBitsNumber(c: Reg, o: Octet, n: nat)
    ensures Number(ShiftBits(c, o, n)) == Divide16Bits(Number(c), OctetNumber(o), n)
    decreases n
  {
    hide Number, OctetNumber, ShiftIn, Divide16, Top, Up;
    if n > 0 {
      ShiftInNumber(c, Top(o));
      UpValue(o);
      ShiftBitsNumber(ShiftIn(c, Top(o)), Up(o), n - 1);
    }
  }

  /** The registers compute the checksum of the integers. */
  lemma {:induction false} RemainderNumber(c: Reg, s: bytes)
    ensures Number(Remainder(c, Octets(s))) == Crc16Of(Number(c), s)
    decreases |s|
  {
    hide Number, ShiftBits, Divide16Bits, OctetOf, OctetNumber;
    if s != [] {
      OctetValue(s[0]);
      ShiftBitsNumber(c, OctetOf(s[0]), 8);
      assert Octets(s)[0] == OctetOf(s[0]) && Octets(s)[1..] == Octets(s[1..]);
      RemainderNumber(ShiftBits(c, OctetOf(s[0]), 8), s[1..]);
    }
  }

  // ---- The slot of a key ----

  const SLOTS_SIZE: nat := 16384

  function Slot(key: bytes): (i: nat)
    ensures i < SLOTS_SIZE
  {
    Number(Remainder(ZERO, Octets(key))) % SLOTS_SIZE
  }

  lemma SlotNumber(key: bytes)
    ensures Slot(key) == Crc16Of(0, key) % 16384
  {
    assert Number(ZERO) == 0;
    hide Number, Remainder;
    RemainderNumber(ZERO, key);
  }

  /** The slot of a key is its CRC-16 as an integer, modulo 16384. */
  method Hash(key: bytes) returns (i: nat)
    ensures i == Slot(key) == Crc16Of(0, key) % 16384
  {
    SlotNumber(key);
    var crc := Crc16(key);
    i := Number(crc) % SLOTS_SIZE;
  }
}
