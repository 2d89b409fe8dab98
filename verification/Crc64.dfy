/** The table-driven CRC-64 of the program, proved against bit-serial division. It is the reflected form: message bits
    enter at the bottom, least significant first. Registers are made of the 16-bit ones of `Crc`. */
module Crc64 {
  import opened Division
  import opened Wire
  import opened Crc

  /** A 64-bit register, most significant part first. */
  datatype Wide = Wide(r3: Reg, r2: Reg, r1: Reg, r0: Reg)

  const ZERO64 := Wide(ZERO, ZERO, ZERO, ZERO)

  function Xor64(a: Wide, b: Wide): Wide {
    Wide(Xor(a.r3, b.r3), Xor(a.r2, b.r2), Xor(a.r1, b.r1), Xor(a.r0, b.r0))
  }

  /** A digit or register shifted right, with the bit that comes in from the left. */
  function Right(n: Nibble, bit: bool): Nibble {
    Nibble(bit, n.b3, n.b2, n.b1)
  }

  function RightReg(c: Reg, bit: bool): Reg {
    Reg(Right(c.n3, bit), Right(c.n2, c.n3.b0), Right(c.n1, c.n2.b0), Right(c.n0, c.n1.b0))
  }

  function Shifted64(c: Wide): Wide {
    Wide(RightReg(c.r3, false), RightReg(c.r2, c.r3.n0.b0), RightReg(c.r1, c.r2.n0.b0), RightReg(c.r0, c.r1.n0.b0))
  }

  function LowByte(c: Wide): Octet {
    Octet(c.r0.n1, c.r0.n0)
  }

  /** A byte as a register. */
  function FromByte(o: Octet): Wide {
    Wide(ZERO, ZERO, ZERO, Low(o))
  }

  // ---- The reference: division, one message bit at a time ----

  /** The polynomial 0xad93d23594c935a9, bits reversed. */
  const POLY64 := Wide(Reg(H9, H5, HA, HC), Reg(H9, H3, H2, H9), Reg(HA, HC, H4, HB), Reg(HC, H9, HB, H5))

  function Bit(c: Wide): bool {
    c.r0.n0.b0
  }

  function ShiftIn64(c: Wide, bit: bool): Wide {
    if Bit(c) != bit then Xor64(Shifted64(c), POLY64) else Shifted64(c)
  }

  function Bottom(o: Octet): bool {
    o.lo.b0
  }

  function Down(o: Octet): Octet {
    Octet(Right(o.hi, false), Right(o.lo, o.hi.b0))
  }

  function ShiftBits64(c: Wide, o: Octet, n: nat): Wide
    decreases n
  {
    if n == 0 then c else ShiftBits64(ShiftIn64(c, Bottom(o)), Down(o), n - 1)
  }

  /** The remainder of a message, starting from register `c`. */
  function Remainder64(c: Wide, s: seq<Octet>): Wide
    decreases |s|
  {
    if s == [] then c else Remainder64(ShiftBits64(c, s[0], 8), s[1..])
  }

  // ---- The table of the program ----

  function Pick(n: Nibble, a0: Wide, a1: Wide, a2: Wide, a3: Wide, a4: Wide, a5: Wide, a6: Wide, a7: Wide,
                a8: Wide, a9: Wide, a10: Wide, a11: Wide, a12: Wide, a13: Wide, a14: Wide, a15: Wide): Wide
  {
    if n.b3 then
      if n.b2 then (if n.b1 then (if n.b0 then a15 else a14) else if n.b0 then a13 else a12)
      else if n.b1 then (if n.b0 then a11 else a10) else if n.b0 then a9 else a8
    else if n.b2 then (if n.b1 then (if n.b0 then a7 else a6) else if n.b0 then a5 else a4)
    else if n.b1 then (if n.b0 then a3 else a2) else if n.b0 then a1 else a0
  }

  function Tab(o: Octet): Wide {
    if o.hi == H0 then Pick(o.lo,
      Wide(Reg(H0, H0, H0, H0), Reg(H0, H0, H0, H0), Reg(H0, H0, H0, H0), Reg(H0, H0, H0, H0)),
      Wide(Reg(H7, HA, HD, H8), Reg(H7, H0, HC, H8), Reg(H3, H0, H3, H5), Reg(H8, H9, H7, H9)),
      Wide(Reg(HF, H5, HB, H0), Reg(HE, H1, H9, H0), Reg(H6, H0, H6, HB), Reg(H1, H2, HF, H2)),
      Wide(Reg(H8, HF, H6, H8), Reg(H9, H1, H5, H8), Reg(H5, H0, H5, HE), Reg(H9, HB, H8, HB)),
      Wide(Reg(HC, H0, H3, H8), Reg(HE, H5, H7, H3), Reg(H9, H8, H4, H1), Reg(HB, H6, H8, HF)),
      Wide(Reg(HB, HA, HE, H0), Reg(H9, H5, HB, HB), Reg(HA, H8, H7, H4), Reg(H3, HF, HF, H6)),
      Wide(Reg(H3, H5, H8, H8), Reg(H0, H4, HE, H3), Reg(HF, H8, H2, HA), Reg(HA, H4, H7, HD)),
      Wide(Reg(H4, HF, H5, H0), Reg(H7, H4, H2, HB), Reg(HC, H8, H1, HF), Reg(H2, HD, H0, H4)),
      Wide(Reg(HA, HB, H2, H8), Reg(HE, HC, HB, H4), Reg(H6, H8, H1, H4), Reg(HF, HE, H7, H5)),
      Wide(Reg(HD, H1, HF, H0), Reg(H9, HC, H7, HC), Reg(H5, H8, H2, H1), Reg(H7, H7, H0, HC)),
      Wide(Reg(H5, HE, H9, H8), Reg(H0, HD, H2, H4), Reg(H0, H8, H7, HF), Reg(HE, HC, H8, H7)),
      Wide(Reg(H2, H4, H4, H0), Reg(H7, HD, HE, HC), Reg(H3, H8, H4, HA), Reg(H6, H5, HF, HE)),
      Wide(Reg(H6, HB, H1, H0), Reg(H0, H9, HC, H7), Reg(HF, H0, H5, H5), Reg(H4, H8, HF, HA)),
      Wide(Reg(H1, H1, HC, H8), Reg(H7, H9, H0, HF), Reg(HC, H0, H6, H0), Reg(HC, H1, H8, H3)),
      Wide(Reg(H9, HE, HA, H0), Reg(HE, H8, H5, H7), Reg(H9, H0, H3, HE), Reg(H5, HA, H0, H8)),
      Wide(Reg(HE, H4, H7, H8), Reg(H9, H8, H9, HF), Reg(HA, H0, H0, HB), Reg(HD, H3, H7, H1)))
    else if o.hi == H1 then Pick(o.lo,
      Wide(Reg(H7, HD, H0, H8), Reg(HF, HF, H3, HB), Reg(H8, H8, HB, HE), Reg(H6, HF, H8, H1)),
      Wide(Reg(H0, H7, HD, H0), Reg(H8, HF, HF, H3), Reg(HB, H8, H8, HB), Reg(HE, H6, HF, H8)),
      Wide(Reg(H8, H8, HB, H8), Reg(H1, HE, HA, HB), Reg(HE, H8, HD, H5), Reg(H7, HD, H7, H3)),
      Wide(Reg(HF, H2, H6, H0), Reg(H6, HE, H6, H3), Reg(HD, H8, HE, H0), Reg(HF, H4, H0, HA)),
      Wide(Reg(HB, HD, H3, H0), Reg(H1, HA, H4, H8), Reg(H1, H0, HF, HF), Reg(HD, H9, H0, HE)),
      Wide(Reg(HC, H7, HE, H8), Reg(H6, HA, H8, H0), Reg(H2, H0, HC, HA), Reg(H5, H0, H7, H7)),
      Wide(Reg(H4, H8, H8, H0), Reg(HF, HB, HD, H8), Reg(H7, H0, H9, H4), Reg(HC, HB, HF, HC)),
      Wide(Reg(H3, H2, H5, H8), Reg(H8, HB, H1, H0), Reg(H4, H0, HA, H1), Reg(H4, H2, H8, H5)),
      Wide(Reg(HD, H6, H2, H0), Reg(H1, H3, H8, HF), Reg(HE, H0, HA, HA), Reg(H9, H1, HF, H4)),
      Wide(Reg(HA, HC, HF, H8), Reg(H6, H3, H4, H7), Reg(HD, H0, H9, HF), Reg(H1, H8, H8, HD)),
      Wide(Reg(H2, H3, H9, H0), Reg(HF, H2, H1, HF), Reg(H8, H0, HC, H1), Reg(H8, H3, H0, H6)),
      Wide(Reg(H5, H9, H4, H8), Reg(H8, H2, HD, H7), Reg(HB, H0, HF, H4), Reg(H0, HA, H7, HF)),
      Wide(Reg(H1, H6, H1, H8), Reg(HF, H6, HF, HC), Reg(H7, H8, HE, HB), Reg(H2, H7, H7, HB)),
      Wide(Reg(H6, HC, HC, H0), Reg(H8, H6, H3, H4), Reg(H4, H8, HD, HE), Reg(HA, HE, H0, H2)),
      Wide(Reg(HE, H3, HA, H8), Reg(H1, H7, H6, HC), Reg(H1, H8, H8, H0), Reg(H3, H5, H8, H9)),
      Wide(Reg(H9, H9, H7, H0), Reg(H6, H7, HA, H4), Reg(H2, H8, HB, H5), Reg(HB, HC, HF, H0)))
    else if o.hi == H2 then Pick(o.lo,
      Wide(Reg(HF, HA, H1, H1), Reg(HF, HE, H7, H7), Reg(H1, H1, H7, HC), Reg(HD, HF, H0, H2)),
      Wide(Reg(H8, H0, HC, H9), Reg(H8, HE, HB, HF), Reg(H2, H1, H4, H9), Reg(H5, H6, H7, HB)),
      Wide(Reg(H0, HF, HA, H1), Reg(H1, HF, HE, H7), Reg(H7, H1, H1, H7), Reg(HC, HD, HF, H0)),
      Wide(Reg(H7, H5, H7, H9), Reg(H6, HF, H2, HF), Reg(H4, H1, H2, H2), Reg(H4, H4, H8, H9)),
      Wide(Reg(H3, HA, H2, H9), Reg(H1, HB, H0, H4), Reg(H8, H9, H3, HD), Reg(H6, H9, H8, HD)),
      Wide(Reg(H4, H0, HF, H1), Reg(H6, HB, HC, HC), Reg(HB, H9, H0, H8), Reg(HE, H0, HF, H4)),
      Wide(Reg(HC, HF, H9, H9), Reg(HF, HA, H9, H4), Reg(HE, H9, H5, H6), Reg(H7, HB, H7, HF)),
      Wide(Reg(HB, H5, H4, H1), Reg(H8, HA, H5, HC), Reg(HD, H9, H6, H3), Reg(HF, H2, H0, H6)),
      Wide(Reg(H5, H1, H3, H9), Reg(H1, H2, HC, H3), Reg(H7, H9, H6, H8), Reg(H2, H1, H7, H7)),
      Wide(Reg(H2, HB, HE, H1), Reg(H6, H2, H0, HB), Reg(H4, H9, H5, HD), Reg(HA, H8, H0, HE)),
      Wide(Reg(HA, H4, H8, H9), Reg(HF, H3, H5, H3), Reg(H1, H9, H0, H3), Reg(H3, H3, H8, H5)),
      Wide(Reg(HD, HE, H5, H1), Reg(H8, H3, H9, HB), Reg(H2, H9, H3, H6), Reg(HB, HA, HF, HC)),
      Wide(Reg(H9, H1, H0, H1), Reg(HF, H7, HB, H0), Reg(HE, H1, H2, H9), Reg(H9, H7, HF, H8)),
      Wide(Reg(HE, HB, HD, H9), Reg(H8, H7, H7, H8), Reg(HD, H1, H1, HC), Reg(H1, HE, H8, H1)),
      Wide(Reg(H6, H4, HB, H1), Reg(H1, H6, H2, H0), Reg(H8, H1, H4, H2), Reg(H8, H5, H0, HA)),
      Wide(Reg(H1, HE, H6, H9), Reg(H6, H6, HE, H8), Reg(HB, H1, H7, H7), Reg(H0, HC, H7, H3)))
    else if o.hi == H3 then Pick(o.lo,
      Wide(Reg(H8, H7, H1, H9), Reg(H0, H1, H4, HC), Reg(H9, H9, HC, H2), Reg(HB, H0, H8, H3)),
      Wide(Reg(HF, HD, HC, H1), Reg(H7, H1, H8, H4), Reg(HA, H9, HF, H7), Reg(H3, H9, HF, HA)),
      Wide(Reg(H7, H2, HA, H9), Reg(HE, H0, HD, HC), Reg(HF, H9, HA, H9), Reg(HA, H2, H7, H1)),
      Wide(Reg(H0, H8, H7, H1), Reg(H9, H0, H1, H4), Reg(HC, H9, H9, HC), Reg(H2, HB, H0, H8)),
      Wide(Reg(H4, H7, H2, H1), Reg(HE, H4, H3, HF), Reg(H0, H1, H8, H3), Reg(H0, H6, H0, HC)),
      Wide(Reg(H3, HD, HF, H9), Reg(H9, H4, HF, H7), Reg(H3, H1, HB, H6), Reg(H8, HF, H7, H5)),
      Wide(Reg(HB, H2, H9, H1), Reg(H0, H5, HA, HF), Reg(H6, H1, HE, H8), Reg(H1, H4, HF, HE)),
      Wide(Reg(HC, H8, H4, H9), Reg(H7, H5, H6, H7), Reg(H5, H1, HD, HD), Reg(H9, HD, H8, H7)),
      Wide(Reg(H2, HC, H3, H1), Reg(HE, HD, HF, H8), Reg(HF, H1, HD, H6), Reg(H4, HE, HF, H6)),
      Wide(Reg(H5, H6, HE, H9), Reg(H9, HD, H3, H0), Reg(HC, H1, HE, H3), Reg(HC, H7, H8, HF)),
      Wide(Reg(HD, H9, H8, H1), Reg(H0, HC, H6, H8), Reg(H9, H1, HB, HD), Reg(H5, HC, H0, H4)),
      Wide(Reg(HA, H3, H5, H9), Reg(H7, HC, HA, H0), Reg(HA, H1, H8, H8), Reg(HD, H5, H7, HD)),
      Wide(Reg(HE, HC, H0, H9), Reg(H0, H8, H8, HB), Reg(H6, H9, H9, H7), Reg(HF, H8, H7, H9)),
      Wide(Reg(H9, H6, HD, H1), Reg(H7, H8, H4, H3), Reg(H5, H9, HA, H2), Reg(H7, H1, H0, H0)),
      Wide(Reg(H1, H9, HB, H9), Reg(HE, H9, H1, HB), Reg(H0, H9, HF, HC), Reg(HE, HA, H8, HB)),
      Wide(Reg(H6, H3, H6, H1), Reg(H9, H9, HD, H3), Reg(H3, H9, HC, H9), Reg(H6, H3, HF, H2)))
    else if o.hi == H4 then Pick(o.lo,
      Wide(Reg(HD, HF, H7, HA), Reg(HD, HA, HB, HD), Reg(H7, HA, H6, HE), Reg(H2, HD, H6, HF)),
      Wide(Reg(HA, H5, HA, H2), Reg(HA, HA, H7, H5), Reg(H4, HA, H5, HB), Reg(HA, H4, H1, H6)),
      Wide(Reg(H2, HA, HC, HA), Reg(H3, HB, H2, HD), Reg(H1, HA, H0, H5), Reg(H3, HF, H9, HD)),
      Wide(Reg(H5, H0, H1, H2), Reg(H4, HB, HE, H5), Reg(H2, HA, H3, H0), Reg(HB, H6, HE, H4)),
      Wide(Reg(H1, HF, H4, H2), Reg(H3, HF, HC, HE), Reg(HE, H2, H2, HF), Reg(H9, HB, HE, H0)),
      Wide(Reg(H6, H5, H9, HA), Reg(H4, HF, H0, H6), Reg(HD, H2, H1, HA), Reg(H1, H2, H9, H9)),
      Wide(Reg(HE, HA, HF, H2), Reg(HD, HE, H5, HE), Reg(H8, H2, H4, H4), Reg(H8, H9, H1, H2)),
      Wide(Reg(H9, H0, H2, HA), Reg(HA, HE, H9, H6), Reg(HB, H2, H7, H1), Reg(H0, H0, H6, HB)),
      Wide(Reg(H7, H4, H5, H2), Reg(H3, H6, H0, H9), Reg(H1, H2, H7, HA), Reg(HD, H3, H1, HA)),
      Wide(Reg(H0, HE, H8, HA), Reg(H4, H6, HC, H1), Reg(H2, H2, H4, HF), Reg(H5, HA, H6, H3)),
      Wide(Reg(H8, H1, HE, H2), Reg(HD, H7, H9, H9), Reg(H7, H2, H1, H1), Reg(HC, H1, HE, H8)),
      Wide(Reg(HF, HB, H3, HA), Reg(HA, H7, H5, H1), Reg(H4, H2, H2, H4), Reg(H4, H8, H9, H1)),
      Wide(Reg(HB, H4, H6, HA), Reg(HD, H3, H7, HA), Reg(H8, HA, H3, HB), Reg(H6, H5, H9, H5)),
      Wide(Reg(HC, HE, HB, H2), Reg(HA, H3, HB, H2), Reg(HB, HA, H0, HE), Reg(HE, HC, HE, HC)),
      Wide(Reg(H4, H1, HD, HA), Reg(H3, H2, HE, HA), Reg(HE, HA, H5, H0), Reg(H7, H7, H6, H7)),
      Wide(Reg(H3, HB, H0, H2), Reg(H4, H2, H2, H2), Reg(HD, HA, H6, H5), Reg(HF, HE, H1, HE)))
    else if o.hi == H5 then Pick(o.lo,
      Wide(Reg(HA, H2, H7, H2), Reg(H2, H5, H8, H6), Reg(HF, H2, HD, H0), Reg(H4, H2, HE, HE)),
      Wide(Reg(HD, H8, HA, HA), Reg(H5, H5, H4, HE), Reg(HC, H2, HE, H5), Reg(HC, HB, H9, H7)),
      Wide(Reg(H5, H7, HC, H2), Reg(HC, H4, H1, H6), Reg(H9, H2, HB, HB), Reg(H5, H0, H1, HC)),
      Wide(Reg(H2, HD, H1, HA), Reg(HB, H4, HD, HE), Reg(HA, H2, H8, HE), Reg(HD, H9, H6, H5)),
      Wide(Reg(H6, H2, H4, HA), Reg(HC, H0, HF, H5), Reg(H6, HA, H9, H1), Reg(HF, H4, H6, H1)),
      Wide(Reg(H1, H8, H9, H2), Reg(HB, H0, H3, HD), Reg(H5, HA, HA, H4), Reg(H7, HD, H1, H8)),
      Wide(Reg(H9, H7, HF, HA), Reg(H2, H1, H6, H5), Reg(H0, HA, HF, HA), Reg(HE, H6, H9, H3)),
      Wide(Reg(HE, HD, H2, H2), Reg(H5, H1, HA, HD), Reg(H3, HA, HC, HF), Reg(H6, HF, HE, HA)),
      Wide(Reg(H0, H9, H5, HA), Reg(HC, H9, H3, H2), Reg(H9, HA, HC, H4), Reg(HB, HC, H9, HB)),
      Wide(Reg(H7, H3, H8, H2), Reg(HB, H9, HF, HA), Reg(HA, HA, HF, H1), Reg(H3, H5, HE, H2)),
      Wide(Reg(HF, HC, HE, HA), Reg(H2, H8, HA, H2), Reg(HF, HA, HA, HF), Reg(HA, HE, H6, H9)),
      Wide(Reg(H8, H6, H3, H2), Reg(H5, H8, H6, HA), Reg(HC, HA, H9, HA), Reg(H2, H7, H1, H0)),
      Wide(Reg(HC, H9, H6, H2), Reg(H2, HC, H4, H1), Reg(H0, H2, H8, H5), Reg(H0, HA, H1, H4)),
      Wide(Reg(HB, H3, HB, HA), Reg(H5, HC, H8, H9), Reg(H3, H2, HB, H0), Reg(H8, H3, H6, HD)),
      Wide(Reg(H3, HC, HD, H2), Reg(HC, HD, HD, H1), Reg(H6, H2, HE, HE), Reg(H1, H8, HE, H6)),
      Wide(Reg(H4, H6, H0, HA), Reg(HB, HD, H1, H9), Reg(H5, H2, HD, HB), Reg(H9, H1, H9, HF)))
    else if o.hi == H6 then Pick(o.lo,
      Wide(Reg(H2, H5, H6, HB), Reg(H2, H4, HC, HA), Reg(H6, HB, H1, H2), Reg(HF, H2, H6, HD)),
      Wide(Reg(H5, HF, HB, H3), Reg(H5, H4, H0, H2), Reg(H5, HB, H2, H7), Reg(H7, HB, H1, H4)),
      Wide(Reg(HD, H0, HD, HB), Reg(HC, H5, H5, HA), Reg(H0, HB, H7, H9), Reg(HE, H0, H9, HF)),
      Wide(Reg(HA, HA, H0, H3), Reg(HB, H5, H9, H2), Reg(H3, HB, H4, HC), Reg(H6, H9, HE, H6)),
      Wide(Reg(HE, H5, H5, H3), Reg(HC, H1, HB, H9), Reg(HF, H3, H5, H3), Reg(H4, H4, HE, H2)),
      Wide(Reg(H9, HF, H8, HB), Reg(HB, H1, H7, H1), Reg(HC, H3, H6, H6), Reg(HC, HD, H9, HB)),
      Wide(Reg(H1, H0, HE, H3), Reg(H2, H0, H2, H9), Reg(H9, H3, H3, H8), Reg(H5, H6, H1, H0)),
      Wide(Reg(H6, HA, H3, HB), Reg(H5, H0, HE, H1), Reg(HA, H3, H0, HD), Reg(HD, HF, H6, H9)),
      Wide(Reg(H8, HE, H4, H3), Reg(HC, H8, H7, HE), Reg(H0, H3, H0, H6), Reg(H0, HC, H1, H8)),
      Wide(Reg(HF, H4, H9, HB), Reg(HB, H8, HB, H6), Reg(H3, H3, H3, H3), Reg(H8, H5, H6, H1)),
      Wide(Reg(H7, HB, HF, H3), Reg(H2, H9, HE, HE), Reg(H6, H3, H6, HD), Reg(H1, HE, HE, HA)),
      Wide(Reg(H0, H1, H2, HB), Reg(H5, H9, H2, H6), Reg(H5, H3, H5, H8), Reg(H9, H7, H9, H3)),
      Wide(Reg(H4, HE, H7, HB), Reg(H2, HD, H0, HD), Reg(H9, HB, H4, H7), Reg(HB, HA, H9, H7)),
      Wide(Reg(H3, H4, HA, H3), Reg(H5, HD, HC, H5), Reg(HA, HB, H7, H2), Reg(H3, H3, HE, HE)),
      Wide(Reg(HB, HB, HC, HB), Reg(HC, HC, H9, HD), Reg(HF, HB, H2, HC), Reg(HA, H8, H6, H5)),
      Wide(Reg(HC, H1, H1, H3), Reg(HB, HC, H5, H5), Reg(HC, HB, H1, H9), Reg(H2, H1, H1, HC)))
    else if o.hi == H7 then Pick(o.lo,
      Wide(Reg(H5, H8, H6, H3), Reg(HD, HB, HF, H1), Reg(HE, H3, HA, HC), Reg(H9, HD, HE, HC)),
      Wide(Reg(H2, H2, HB, HB), Reg(HA, HB, H3, H9), Reg(HD, H3, H9, H9), Reg(H1, H4, H9, H5)),
      Wide(Reg(HA, HD, HD, H3), Reg(H3, HA, H6, H1), Reg(H8, H3, HC, H7), Reg(H8, HF, H1, HE)),
      Wide(Reg(HD, H7, H0, HB), Reg(H4, HA, HA, H9), Reg(HB, H3, HF, H2), Reg(H0, H6, H6, H7)),
      Wide(Reg(H9, H8, H5, HB), Reg(H3, HE, H8, H2), Reg(H7, HB, HE, HD), Reg(H2, HB, H6, H3)),
      Wide(Reg(HE, H2, H8, H3), Reg(H4, HE, H4, HA), Reg(H4, HB, HD, H8), Reg(HA, H2, H1, HA)),
      Wide(Reg(H6, HD, HE, HB), Reg(HD, HF, H1, H2), Reg(H1, HB, H8, H6), Reg(H3, H9, H9, H1)),
      Wide(Reg(H1, H7, H3, H3), Reg(HA, HF, HD, HA), Reg(H2, HB, HB, H3), Reg(HB, H0, HE, H8)),
      Wide(Reg(HF, H3, H4, HB), Reg(H3, H7, H4, H5), Reg(H8, HB, HB, H8), Reg(H6, H3, H9, H9)),
      Wide(Reg(H8, H9, H9, H3), Reg(H4, H7, H8, HD), Reg(HB, HB, H8, HD), Reg(HE, HA, HE, H0)),
      Wide(Reg(H0, H6, HF, HB), Reg(HD, H6, HD, H5), Reg(HE, HB, HD, H3), Reg(H7, H1, H6, HB)),
      Wide(Reg(H7, HC, H2, H3), Reg(HA, H6, H1, HD), Reg(HD, HB, HE, H6), Reg(HF, H8, H1, H2)),
      Wide(Reg(H3, H3, H7, H3), Reg(HD, H2, H3, H6), Reg(H1, H3, HF, H9), Reg(HD, H5, H1, H6)),
      Wide(Reg(H4, H9, HA, HB), Reg(HA, H2, HF, HE), Reg(H2, H3, HC, HC), Reg(H5, HC, H6, HF)),
      Wide(Reg(HC, H6, HC, H3), Reg(H3, H3, HA, H6), Reg(H7, H3, H9, H2), Reg(HC, H7, HE, H4)),
      Wide(Reg(HB, HC, H1, HB), Reg(H4, H3, H6, HE), Reg(H4, H3, HA, H7), Reg(H4, HE, H9, HD)))
    else if o.hi == H8 then Pick(o.lo,
      Wide(Reg(H9, H5, HA, HC), Reg(H9, H3, H2, H9), Reg(HA, HC, H4, HB), Reg(HC, H9, HB, H5)),
      Wide(Reg(HE, HF, H7, H4), Reg(HE, H3, HE, H1), Reg(H9, HC, H7, HE), Reg(H4, H0, HC, HC)),
      Wide(Reg(H6, H0, H1, HC), Reg(H7, H2, HB, H9), Reg(HC, HC, H2, H0), Reg(HD, HB, H4, H7)),
      Wide(Reg(H1, HA, HC, H4), Reg(H0, H2, H7, H1), Reg(HF, HC, H1, H5), Reg(H5, H2, H3, HE)),
      Wide(Reg(H5, H5, H9, H4), Reg(H7, H6, H5, HA), Reg(H3, H4, H0, HA), Reg(H7, HF, H3, HA)),
      Wide(Reg(H2, HF, H4, HC), Reg(H0, H6, H9, H2), Reg(H0, H4, H3, HF), Reg(HF, H6, H4, H3)),
      Wide(Reg(HA, H0, H2, H4), Reg(H9, H7, HC, HA), Reg(H5, H4, H6, H1), Reg(H6, HD, HC, H8)),
      Wide(Reg(HD, HA, HF, HC), Reg(HE, H7, H0, H2), Reg(H6, H4, H5, H4), Reg(HE, H4, HB, H1)),
      Wide(Reg(H3, HE, H8, H4), Reg(H7, HF, H9, HD), Reg(HC, H4, H5, HF), Reg(H3, H7, HC, H0)),
      Wide(Reg(H4, H4, H5, HC), Reg(H0, HF, H5, H5), Reg(HF, H4, H6, HA), Reg(HB, HE, HB, H9)),
      Wide(Reg(HC, HB, H3, H4), Reg(H9, HE, H0, HD), Reg(HA, H4, H3, H4), Reg(H2, H5, H3, H2)),
      Wide(Reg(HB, H1, HE, HC), Reg(HE, HE, HC, H5), Reg(H9, H4, H0, H1), Reg(HA, HC, H4, HB)),
      Wide(Reg(HF, HE, HB, HC), Reg(H9, HA, HE, HE), Reg(H5, HC, H1, HE), Reg(H8, H1, H4, HF)),
      Wide(Reg(H8, H4, H6, H4), Reg(HE, HA, H2, H6), Reg(H6, HC, H2, HB), Reg(H0, H8, H3, H6)),
      Wide(Reg(H0, HB, H0, HC), Reg(H7, HB, H7, HE), Reg(H3, HC, H7, H5), Reg(H9, H3, HB, HD)),
      Wide(Reg(H7, H1, HD, H4), Reg(H0, HB, HB, H6), Reg(H0, HC, H4, H0), Reg(H1, HA, HC, H4)))
    else if o.hi == H9 then Pick(o.lo,
      Wide(Reg(HE, H8, HA, H4), Reg(H6, HC, H1, H2), Reg(H2, H4, HF, H5), Reg(HA, H6, H3, H4)),
      Wide(Reg(H9, H2, H7, HC), Reg(H1, HC, HD, HA), Reg(H1, H4, HC, H0), Reg(H2, HF, H4, HD)),
      Wide(Reg(H1, HD, H1, H4), Reg(H8, HD, H8, H2), Reg(H4, H4, H9, HE), Reg(HB, H4, HC, H6)),
      Wide(Reg(H6, H7, HC, HC), Reg(HF, HD, H4, HA), Reg(H7, H4, HA, HB), Reg(H3, HD, HB, HF)),
      Wide(Reg(H2, H8, H9, HC), Reg(H8, H9, H6, H1), Reg(HB, HC, HB, H4), Reg(H1, H0, HB, HB)),
      Wide(Reg(H5, H2, H4, H4), Reg(HF, H9, HA, H9), Reg(H8, HC, H8, H1), Reg(H9, H9, HC, H2)),
      Wide(Reg(HD, HD, H2, HC), Reg(H6, H8, HF, H1), Reg(HD, HC, HD, HF), Reg(H0, H2, H4, H9)),
      Wide(Reg(HA, H7, HF, H4), Reg(H1, H8, H3, H9), Reg(HE, HC, HE, HA), Reg(H8, HB, H3, H0)),
      Wide(Reg(H4, H3, H8, HC), Reg(H8, H0, HA, H6), Reg(H4, HC, HE, H1), Reg(H5, H8, H4, H1)),
      Wide(Reg(H3, H9, H5, H4), Reg(HF, H0, H6, HE), Reg(H7, HC, HD, H4), Reg(HD, H1, H3, H8)),
      Wide(Reg(HB, H6, H3, HC), Reg(H6, H1, H3, H6), Reg(H2, HC, H8, HA), Reg(H4, HA, HB, H3)),
      Wide(Reg(HC, HC, HE, H4), Reg(H1, H1, HF, HE), Reg(H1, HC, HB, HF), Reg(HC, H3, HC, HA)),
      Wide(Reg(H8, H3, HB, H4), Reg(H6, H5, HD, H5), Reg(HD, H4, HA, H0), Reg(HE, HE, HC, HE)),
      Wide(Reg(HF, H9, H6, HC), Reg(H1, H5, H1, HD), Reg(HE, H4, H9, H5), Reg(H6, H7, HB, H7)),
      Wide(Reg(H7, H6, H0, H4), Reg(H8, H4, H4, H5), Reg(HB, H4, HC, HB), Reg(HF, HC, H3, HC)),
      Wide(Reg(H0, HC, HD, HC), Reg(HF, H4, H8, HD), Reg(H8, H4, HF, HE), Reg(H7, H5, H4, H5)))
    else if o.hi == HA then Pick(o.lo,
      Wide(Reg(H6, HF, HB, HD), Reg(H6, HD, H5, HE), Reg(HB, HD, H3, H7), Reg(H1, H6, HB, H7)),
      Wide(Reg(H1, H5, H6, H5), Reg(H1, HD, H9, H6), Reg(H8, HD, H0, H2), Reg(H9, HF, HC, HE)),
      Wide(Reg(H9, HA, H0, HD), Reg(H8, HC, HC, HE), Reg(HD, HD, H5, HC), Reg(H0, H4, H4, H5)),
      Wide(Reg(HE, H0, HD, H5), Reg(HF, HC, H0, H6), Reg(HE, HD, H6, H9), Reg(H8, HD, H3, HC)),
      Wide(Reg(HA, HF, H8, H5), Reg(H8, H8, H2, HD), Reg(H2, H5, H7, H6), Reg(HA, H0, H3, H8)),
      Wide(Reg(HD, H5, H5, HD), Reg(HF, H8, HE, H5), Reg(H1, H5, H4, H3), Reg(H2, H9, H4, H1)),
      Wide(Reg(H5, HA, H3, H5), Reg(H6, H9, HB, HD), Reg(H4, H5, H1, HD), Reg(HB, H2, HC, HA)),
      Wide(Reg(H2, H0, HE, HD), Reg(H1, H9, H7, H5), Reg(H7, H5, H2, H8), Reg(H3, HB, HB, H3)),
      Wide(Reg(HC, H4, H9, H5), Reg(H8, H1, HE, HA), Reg(HD, H5, H2, H3), Reg(HE, H8, HC, H2)),
      Wide(Reg(HB, HE, H4, HD), Reg(HF, H1, H2, H2), Reg(HE, H5, H1, H6), Reg(H6, H1, HB, HB)),
      Wide(Reg(H3, H1, H2, H5), Reg(H6, H0, H7, HA), Reg(HB, H5, H4, H8), Reg(HF, HA, H3, H0)),
      Wide(Reg(H4, HB, HF, HD), Reg(H1, H0, HB, H2), Reg(H8, H5, H7, HD), Reg(H7, H3, H4, H9)),
      Wide(Reg(H0, H4, HA, HD), Reg(H6, H4, H9, H9), Reg(H4, HD, H6, H2), Reg(H5, HE, H4, HD)),
      Wide(Reg(H7, HE, H7, H5), Reg(H1, H4, H5, H1), Reg(H7, HD, H5, H7), Reg(HD, H7, H3, H4)),
      Wide(Reg(HF, H1, H1, HD), Reg(H8, H5, H0, H9), Reg(H2, HD, H0, H9), Reg(H4, HC, HB, HF)),
      Wide(Reg(H8, HB, HC, H5), Reg(HF, H5, HC, H1), Reg(H1, HD, H3, HC), Reg(HC, H5, HC, H6)))
    else if o.hi == HB then Pick(o.lo,
      Wide(Reg(H1, H2, HB, H5), Reg(H9, H2, H6, H5), Reg(H3, H5, H8, H9), Reg(H7, H9, H3, H6)),
      Wide(Reg(H6, H8, H6, HD), Reg(HE, H2, HA, HD), Reg(H0, H5, HB, HC), Reg(HF, H0, H4, HF)),
      Wide(Reg(HE, H7, H0, H5), Reg(H7, H3, HF, H5), Reg(H5, H5, HE, H2), Reg(H6, HB, HC, H4)),
      Wide(Reg(H9, HD, HD, HD), Reg(H0, H3, H3, HD), Reg(H6, H5, HD, H7), Reg(HE, H2, HB, HD)),
      Wide(Reg(HD, H2, H8, HD), Reg(H7, H7, H1, H6), Reg(HA, HD, HC, H8), Reg(HC, HF, HB, H9)),
      Wide(Reg(HA, H8, H5, H5), Reg(H0, H7, HD, HE), Reg(H9, HD, HF, HD), Reg(H4, H6, HC, H0)),
      Wide(Reg(H2, H7, H3, HD), Reg(H9, H6, H8, H6), Reg(HC, HD, HA, H3), Reg(HD, HD, H4, HB)),
      Wide(Reg(H5, HD, HE, H5), Reg(HE, H6, H4, HE), Reg(HF, HD, H9, H6), Reg(H5, H4, H3, H2)),
      Wide(Reg(HB, H9, H9, HD), Reg(H7, HE, HD, H1), Reg(H5, HD, H9, HD), Reg(H8, H7, H4, H3)),
      Wide(Reg(HC, H3, H4, H5), Reg(H0, HE, H1, H9), Reg(H6, HD, HA, H8), Reg(H0, HE, H3, HA)),
      Wide(Reg(H4, HC, H2, HD), Reg(H9, HF, H4, H1), Reg(H3, HD, HF, H6), Reg(H9, H5, HB, H1)),
      Wide(Reg(H3, H6, HF, H5), Reg(HE, HF, H8, H9), Reg(H0, HD, HC, H3), Reg(H1, HC, HC, H8)),
      Wide(Reg(H7, H9, HA, H5), Reg(H9, HB, HA, H2), Reg(HC, H5, HD, HC), Reg(H3, H1, HC, HC)),
      Wide(Reg(H0, H3, H7, HD), Reg(HE, HB, H6, HA), Reg(HF, H5, HE, H9), Reg(HB, H8, HB, H5)),
      Wide(Reg(H8, HC, H1, H5), Reg(H7, HA, H3, H2), Reg(HA, H5, HB, H7), Reg(H2, H3, H3, HE)),
      Wide(Reg(HF, H6, HC, HD), Reg(H0, HA, HF, HA), Reg(H9, H5, H8, H2), Reg(HA, HA, H4, H7)))
    else if o.hi == HC then Pick(o.lo,
      Wide(Reg(H4, HA, HD, H6), Reg(H4, H9, H9, H4), Reg(HD, H6, H2, H5), Reg(HE, H4, HD, HA)),
      Wide(Reg(H3, H0, H0, HE), Reg(H3, H9, H5, HC), Reg(HE, H6, H1, H0), Reg(H6, HD, HA, H3)),
      Wide(Reg(HB, HF, H6, H6), Reg(HA, H8, H0, H4), Reg(HB, H6, H4, HE), Reg(HF, H6, H2, H8)),
      Wide(Reg(HC, H5, HB, HE), Reg(HD, H8, HC, HC), Reg(H8, H6, H7, HB), Reg(H7, HF, H5, H1)),
      Wide(Reg(H8, HA, HE, HE), Reg(HA, HC, HE, H7), Reg(H4, HE, H6, H4), Reg(H5, H2, H5, H5)),
      Wide(Reg(HF, H0, H3, H6), Reg(HD, HC, H2, HF), Reg(H7, HE, H5, H1), Reg(HD, HB, H2, HC)),
      Wide(Reg(H7, HF, H5, HE), Reg(H4, HD, H7, H7), Reg(H2, HE, H0, HF), Reg(H4, H0, HA, H7)),
      Wide(Reg(H0, H5, H8, H6), Reg(H3, HD, HB, HF), Reg(H1, HE, H3, HA), Reg(HC, H9, HD, HE)),
      Wide(Reg(HE, H1, HF, HE), Reg(HA, H5, H2, H0), Reg(HB, HE, H3, H1), Reg(H1, HA, HA, HF)),
      Wide(Reg(H9, HB, H2, H6), Reg(HD, H5, HE, H8), Reg(H8, HE, H0, H4), Reg(H9, H3, HD, H6)),
      Wide(Reg(H1, H4, H4, HE), Reg(H4, H4, HB, H0), Reg(HD, HE, H5, HA), Reg(H0, H8, H5, HD)),
      Wide(Reg(H6, HE, H9, H6), Reg(H3, H4, H7, H8), Reg(HE, HE, H6, HF), Reg(H8, H1, H2, H4)),
      Wide(Reg(H2, H1, HC, H6), Reg(H4, H0, H5, H3), Reg(H2, H6, H7, H0), Reg(HA, HC, H2, H0)),
      Wide(Reg(H5, HB, H1, HE), Reg(H3, H0, H9, HB), Reg(H1, H6, H4, H5), Reg(H2, H5, H5, H9)),
      Wide(Reg(HD, H4, H7, H6), Reg(HA, H1, HC, H3), Reg(H4, H6, H1, HB), Reg(HB, HE, HD, H2)),
      Wide(Reg(HA, HE, HA, HE), Reg(HD, H1, H0, HB), Reg(H7, H6, H2, HE), Reg(H3, H7, HA, HB)))
    else if o.hi == HD then Pick(o.lo,
      Wide(Reg(H3, H7, HD, HE), Reg(HB, H6, HA, HF), Reg(H5, HE, H9, HB), Reg(H8, HB, H5, HB)),
      Wide(Reg(H4, HD, H0, H6), Reg(HC, H6, H6, H7), Reg(H6, HE, HA, HE), Reg(H0, H2, H2, H2)),
      Wide(Reg(HC, H2, H6, HE), Reg(H5, H7, H3, HF), Reg(H3, HE, HF, H0), Reg(H9, H9, HA, H9)),
      Wide(Reg(HB, H8, HB, H6), Reg(H2, H7, HF, H7), Reg(H0, HE, HC, H5), Reg(H1, H0, HD, H0)),
      Wide(Reg(HF, H7, HE, H6), Reg(H5, H3, HD, HC), Reg(HC, H6, HD, HA), Reg(H3, HD, HD, H4)),
      Wide(Reg(H8, HD, H3, HE), Reg(H2, H3, H1, H4), Reg(HF, H6, HE, HF), Reg(HB, H4, HA, HD)),
      Wide(Reg(H0, H2, H5, H6), Reg(HB, H2, H4, HC), Reg(HA, H6, HB, H1), Reg(H2, HF, H2, H6)),
      Wide(Reg(H7, H8, H8, HE), Reg(HC, H2, H8, H4), Reg(H9, H6, H8, H4), Reg(HA, H6, H5, HF)),
      Wide(Reg(H9, HC, HF, H6), Reg(H5, HA, H1, HB), Reg(H3, H6, H8, HF), Reg(H7, H5, H2, HE)),
      Wide(Reg(HE, H6, H2, HE), Reg(H2, HA, HD, H3), Reg(H0, H6, HB, HA), Reg(HF, HC, H5, H7)),
      Wide(Reg(H6, H9, H4, H6), Reg(HB, HB, H8, HB), Reg(H5, H6, HE, H4), Reg(H6, H7, HD, HC)),
      Wide(Reg(H1, H3, H9, HE), Reg(HC, HB, H4, H3), Reg(H6, H6, HD, H1), Reg(HE, HE, HA, H5)),
      Wide(Reg(H5, HC, HC, HE), Reg(HB, HF, H6, H8), Reg(HA, HE, HC, HE), Reg(HC, H3, HA, H1)),
      Wide(Reg(H2, H6, H1, H6), Reg(HC, HF, HA, H0), Reg(H9, HE, HF, HB), Reg(H4, HA, HD, H8)),
      Wide(Reg(HA, H9, H7, HE), Reg(H5, HE, HF, H8), Reg(HC, HE, HA, H5), Reg(HD, H1, H5, H3)),
      Wide(Reg(HD, H3, HA, H6), Reg(H2, HE, H3, H0), Reg(HF, HE, H9, H0), Reg(H5, H8, H2, HA)))
    else if o.hi == HE then Pick(o.lo,
      Wide(Reg(HB, H0, HC, H7), Reg(HB, H7, HE, H3), Reg(HC, H7, H5, H9), Reg(H3, HB, HD, H8)),
      Wide(Reg(HC, HA, H1, HF), Reg(HC, H7, H2, HB), Reg(HF, H7, H6, HC), Reg(HB, H2, HA, H1)),
      Wide(Reg(H4, H5, H7, H7), Reg(H5, H6, H7, H3), Reg(HA, H7, H3, H2), Reg(H2, H9, H2, HA)),
      Wide(Reg(H3, HF, HA, HF), Reg(H2, H6, HB, HB), Reg(H9, H7, H0, H7), Reg(HA, H0, H5, H3)),
      Wide(Reg(H7, H0, HF, HF), Reg(H5, H2, H9, H0), Reg(H5, HF, H1, H8), Reg(H8, HD, H5, H7)),
      Wide(Reg(H0, HA, H2, H7), Reg(H2, H2, H5, H8), Reg(H6, HF, H2, HD), Reg(H0, H4, H2, HE)),
      Wide(Reg(H8, H5, H4, HF), Reg(HB, H3, H0, H0), Reg(H3, HF, H7, H3), Reg(H9, HF, HA, H5)),
      Wide(Reg(HF, HF, H9, H7), Reg(HC, H3, HC, H8), Reg(H0, HF, H4, H6), Reg(H1, H6, HD, HC)),
      Wide(Reg(H1, HB, HE, HF), Reg(H5, HB, H5, H7), Reg(HA, HF, H4, HD), Reg(HC, H5, HA, HD)),
      Wide(Reg(H6, H1, H3, H7), Reg(H2, HB, H9, HF), Reg(H9, HF, H7, H8), Reg(H4, HC, HD, H4)),
      Wide(Reg(HE, HE, H5, HF), Reg(HB, HA, HC, H7), Reg(HC, HF, H2, H6), Reg(HD, H7, H5, HF)),
      Wide(Reg(H9, H4, H8, H7), Reg(HC, HA, H0, HF), Reg(HF, HF, H1, H3), Reg(H5, HE, H2, H6)),
      Wide(Reg(HD, HB, HD, H7), Reg(HB, HE, H2, H4), Reg(H3, H7, H0, HC), Reg(H7, H3, H2, H2)),
      Wide(Reg(HA, H1, H0, HF), Reg(HC, HE, HE, HC), Reg(H0, H7, H3, H9), Reg(HF, HA, H5, HB)),
      Wide(Reg(H2, HE, H6, H7), Reg(H5, HF, HB, H4), Reg(H5, H7, H6, H7), Reg(H6, H1, HD, H0)),
      Wide(Reg(H5, H4, HB, HF), Reg(H2, HF, H7, HC), Reg(H6, H7, H5, H2), Reg(HE, H8, HA, H9)))
    else Pick(o.lo,
      Wide(Reg(HC, HD, HC, HF), Reg(H4, H8, HD, H8), Reg(H4, HF, HE, H7), Reg(H5, H4, H5, H9)),
      Wide(Reg(HB, H7, H1, H7), Reg(H3, H8, H1, H0), Reg(H7, HF, HD, H2), Reg(HD, HD, H2, H0)),
      Wide(Reg(H3, H8, H7, HF), Reg(HA, H9, H4, H8), Reg(H2, HF, H8, HC), Reg(H4, H6, HA, HB)),
      Wide(Reg(H4, H2, HA, H7), Reg(HD, H9, H8, H0), Reg(H1, HF, HB, H9), Reg(HC, HF, HD, H2)),
      Wide(Reg(H0, HD, HF, H7), Reg(HA, HD, HA, HB), Reg(HD, H7, HA, H6), Reg(HE, H2, HD, H6)),
      Wide(Reg(H7, H7, H2, HF), Reg(HD, HD, H6, H3), Reg(HE, H7, H9, H3), Reg(H6, HB, HA, HF)),
      Wide(Reg(HF, H8, H4, H7), Reg(H4, HC, H3, HB), Reg(HB, H7, HC, HD), Reg(HF, H0, H2, H4)),
      Wide(Reg(H8, H2, H9, HF), Reg(H3, HC, HF, H3), Reg(H8, H7, HF, H8), Reg(H7, H9, H5, HD)),
      Wide(Reg(H6, H6, HE, H7), Reg(HA, H4, H6, HC), Reg(H2, H7, HF, H3), Reg(HA, HA, H2, HC)),
      Wide(Reg(H1, HC, H3, HF), Reg(HD, H4, HA, H4), Reg(H1, H7, HC, H6), Reg(H2, H3, H5, H5)),
      Wide(Reg(H9, H3, H5, H7), Reg(H4, H5, HF, HC), Reg(H4, H7, H9, H8), Reg(HB, H8, HD, HE)),
      Wide(Reg(HE, H9, H8, HF), Reg(H3, H5, H3, H4), Reg(H7, H7, HA, HD), Reg(H3, H1, HA, H7)),
      Wide(Reg(HA, H6, HD, HF), Reg(H4, H1, H1, HF), Reg(HB, HF, HB, H2), Reg(H1, HC, HA, H3)),
      Wide(Reg(HD, HC, H0, H7), Reg(H3, H1, HD, H7), Reg(H8, HF, H8, H7), Reg(H9, H5, HD, HA)),
      Wide(Reg(H5, H3, H6, HF), Reg(HA, H0, H8, HF), Reg(HD, HF, HD, H9), Reg(H0, HE, H5, H1)),
      Wide(Reg(H2, H9, HB, H7), Reg(HD, H0, H4, H7), Reg(HE, HF, HE, HC), Reg(H8, H7, H2, H8)))
  }

  /** `crc >> 8`. */
  function ShiftByte64(c: Wide): Wide {
    Wide(Reg(H0, H0, c.r3.n3, c.r3.n2), Reg(c.r3.n1, c.r3.n0, c.r2.n3, c.r2.n2),
         Reg(c.r2.n1, c.r2.n0, c.r1.n3, c.r1.n2), Reg(c.r1.n1, c.r1.n0, c.r0.n3, c.r0.n2))
  }

  /** One round of the loop: `crc = tab[(uint8_t) crc ^ byte] ^ (crc >> 8)`. */
  function Lookup64(c: Wide, o: Octet): Wide {
    Xor64(Tab(XorOctet(LowByte(c), o)), ShiftByte64(c))
  }

  // ---- Steps of a register without message bits are linear ----

  function Step64(c: Wide): Wide {
    ShiftIn64(c, false)
  }

  function StepFour(c: Wide): Wide {
    Step64(Step64(Step64(Step64(c))))
  }

  function StepEight(c: Wide): Wide {
    StepFour(StepFour(c))
  }

  lemma XorRegroup(p: Reg, q: Reg, r: Reg)
    ensures Xor(Xor(p, q), r) == Xor(Xor(p, r), q) == Xor(p, Xor(q, r))
    ensures Xor(Xor(p, r), Xor(q, r)) == Xor(p, q)
  {
  }

  lemma XorRegroup64(p: Wide, q: Wide, r: Wide)
    ensures Xor64(Xor64(p, q), r) == Xor64(Xor64(p, r), q) == Xor64(p, Xor64(q, r))
    ensures Xor64(Xor64(p, r), Xor64(q, r)) == Xor64(p, q)
  {
    XorRegroup(p.r3, q.r3, r.r3);
    XorRegroup(p.r2, q.r2, r.r2);
    XorRegroup(p.r1, q.r1, r.r1);
    XorRegroup(p.r0, q.r0, r.r0);
    hide Xor;
  }

  lemma RightXor(a: Reg, b: Reg, p: bool, q: bool)
    ensures RightReg(Xor(a, b), p != q) == Xor(RightReg(a, p), RightReg(b, q))
    ensures Xor(a, b).n0.b0 == (a.n0.b0 != b.n0.b0)
  {
  }

  lemma ShiftedXor64(a: Wide, b: Wide)
    ensures Shifted64(Xor64(a, b)) == Xor64(Shifted64(a), Shifted64(b)) && Bit(Xor64(a, b)) == (Bit(a) != Bit(b))
  {
    RightXor(a.r3, b.r3, false, false);
    RightXor(a.r2, b.r2, a.r3.n0.b0, b.r3.n0.b0);
    RightXor(a.r1, b.r1, a.r2.n0.b0, b.r2.n0.b0);
    RightXor(a.r0, b.r0, a.r1.n0.b0, b.r1.n0.b0);
    hide Xor, RightReg;
  }

  lemma StepXor64(a: Wide, b: Wide)
    ensures Step64(Xor64(a, b)) == Xor64(Step64(a), Step64(b))
  {
    ShiftedXor64(a, b);
    XorRegroup64(Shifted64(a), Shifted64(b), POLY64);
    hide Xor64, Shifted64, Bit;
  }

  lemma StepFourXor(a: Wide, b: Wide)
    ensures StepFour(Xor64(a, b)) == Xor64(StepFour(a), StepFour(b))
  {
    hide Step64, Xor64;
    StepXor64(a, b);
    StepXor64(Step64(a), Step64(b));
    StepXor64(Step64(Step64(a)), Step64(Step64(b)));
    StepXor64(Step64(Step64(Step64(a))), Step64(Step64(Step64(b))));
  }

  lemma StepEightXor(a: Wide, b: Wide)
    ensures StepEight(Xor64(a, b)) == Xor64(StepEight(a), StepEight(b))
  {
    hide StepFour, Xor64;
    StepFourXor(a, b);
    StepFourXor(StepFour(a), StepFour(b));
  }

  // ---- A message byte may be added to the register before its eight steps ----

  lemma DownXor(o: Octet)
    ensures Shifted64(FromByte(o)) == FromByte(Down(o)) && Bit(FromByte(o)) == Bottom(o)
  {
  }

  lemma ShiftInXor64(c: Wide, o: Octet)
    ensures Step64(Xor64(c, FromByte(o))) == Xor64(ShiftIn64(c, Bottom(o)), FromByte(Down(o)))
  {
    ShiftedXor64(c, FromByte(o));
    DownXor(o);
    XorRegroup64(Shifted64(c), FromByte(Down(o)), POLY64);
    hide Xor64, Shifted64, Bit, FromByte, Down, Bottom;
  }

  lemma FourBits(c: Wide, o: Octet, n: nat)
    requires n >= 4
    ensures var d, p := ShiftIn64(ShiftIn64(c, Bottom(o)), Bottom(Down(o))), Down(Down(o));
            var d', p' := ShiftIn64(ShiftIn64(d, Bottom(p)), Bottom(Down(p))), Down(Down(p));
            && ShiftBits64(c, o, n) == ShiftBits64(d', p', n - 4)
            && StepFour(Xor64(c, FromByte(o))) == Xor64(d', FromByte(p'))
  {
    hide Step64, Xor64, FromByte, ShiftIn64, Bottom, Down;
    var c1, o1 := ShiftIn64(c, Bottom(o)), Down(o);
    var c2, o2 := ShiftIn64(c1, Bottom(o1)), Down(o1);
    var c3, o3 := ShiftIn64(c2, Bottom(o2)), Down(o2);
    ShiftInXor64(c, o);
    ShiftInXor64(c1, o1);
    ShiftInXor64(c2, o2);
    ShiftInXor64(c3, o3);
    assert ShiftBits64(c, o, n) == ShiftBits64(c1, o1, n - 1) == ShiftBits64(c2, o2, n - 2);
    assert ShiftBits64(c2, o2, n - 2) == ShiftBits64(c3, o3, n - 3);
  }

  lemma NothingLeft(c: Wide, o: Octet)
    ensures Xor64(c, FromByte(Down(Down(Down(Down(Down(Down(Down(Down(o)))))))))) == c
  {
    var p := Down(Down(Down(Down(o))));
    assert p.hi == H0 && Down(Down(Down(Down(p)))) == Octet(H0, H0);
  }

  lemma BitsAreSteps(c: Wide, o: Octet)
    ensures ShiftBits64(c, o, 8) == StepEight(Xor64(c, FromByte(o)))
  {
    FourBits(c, o, 8);
    NothingLeft(ShiftBits64(c, o, 8), o);
    hide Step64, Xor64, FromByte, Down, ShiftIn64, Bottom, StepFour;
    var d, p := ShiftIn64(ShiftIn64(c, Bottom(o)), Bottom(Down(o))), Down(Down(o));
    FourBits(ShiftIn64(ShiftIn64(d, Bottom(p)), Bottom(Down(p))), Down(Down(p)), 4);
  }

  // ---- The table is what eight steps make of a byte: on eight single bits, and by linearity on all ----

  lemma BaseLow()
    ensures Tab(Octet(H0, H1)) == StepEight(FromByte(Octet(H0, H1)))
    ensures Tab(Octet(H0, H2)) == StepEight(FromByte(Octet(H0, H2)))
    ensures Tab(Octet(H0, H4)) == StepEight(FromByte(Octet(H0, H4)))
    ensures Tab(Octet(H0, H8)) == StepEight(FromByte(Octet(H0, H8)))
  {
  }

  lemma BaseHigh()
    ensures Tab(Octet(H1, H0)) == StepEight(FromByte(Octet(H1, H0)))
    ensures Tab(Octet(H2, H0)) == StepEight(FromByte(Octet(H2, H0)))
    ensures Tab(Octet(H4, H0)) == StepEight(FromByte(Octet(H4, H0)))
    ensures Tab(Octet(H8, H0)) == StepEight(FromByte(Octet(H8, H0)))
  {
  }

  function When(b: bool, w: Wide): Wide {
    if b then w else ZERO64
  }

  /** The sum of four values, chosen by the bits of a digit. */
  function Sum(n: Nibble, w8: Wide, w4: Wide, w2: Wide, w1: Wide): Wide {
    Xor64(Xor64(When(n.b3, w8), When(n.b2, w4)), Xor64(When(n.b1, w2), When(n.b0, w1)))
  }

  lemma TabLow(lo: Nibble)
    ensures Tab(Octet(H0, lo)) == Sum(lo, Tab(Octet(H0, H8)), Tab(Octet(H0, H4)), Tab(Octet(H0, H2)), Tab(Octet(H0, H1)))
  {
  }

  lemma TabHigh(hi: Nibble)
    ensures Tab(Octet(hi, H0)) == Sum(hi, Tab(Octet(H8, H0)), Tab(Octet(H4, H0)), Tab(Octet(H2, H0)), Tab(Octet(H1, H0)))
  {
  }

  lemma Row1(lo: Nibble)
    ensures Tab(Octet(H1, lo)) == Xor64(Tab(Octet(H1, H0)), Tab(Octet(H0, lo)))
  {
  }

  lemma Row2(lo: Nibble)
    ensures Tab(Octet(H2, lo)) == Xor64(Tab(Octet(H2, H0)), Tab(Octet(H0, lo)))
  {
  }

  lemma Row3(lo: Nibble)
    ensures Tab(Octet(H3, lo)) == Xor64(Tab(Octet(H3, H0)), Tab(Octet(H0, lo)))
  {
  }

  lemma Row4(lo: Nibble)
    ensures Tab(Octet(H4, lo)) == Xor64(Tab(Octet(H4, H0)), Tab(Octet(H0, lo)))
  {
  }

  lemma Row5(lo: Nibble)
    ensures Tab(Octet(H5, lo)) == Xor64(Tab(Octet(H5, H0)), Tab(Octet(H0, lo)))
  {
  }

  lemma Row6(lo: Nibble)
    ensures Tab(Octet(H6, lo)) == Xor64(Tab(Octet(H6, H0)), Tab(Octet(H0, lo)))
  {
  }

  lemma Row7(lo: Nibble)
    ensures Tab(Octet(H7, lo)) == Xor64(Tab(Octet(H7, H0)), Tab(Octet(H0, lo)))
  {
  }

  lemma Row8(lo: Nibble)
    ensures Tab(Octet(H8, lo)) == Xor64(Tab(Octet(H8, H0)), Tab(Octet(H0, lo)))
  {
  }

  lemma Row9(lo: Nibble)
    ensures Tab(Octet(H9, lo)) == Xor64(Tab(Octet(H9, H0)), Tab(Octet(H0, lo)))
  {
  }

  lemma RowA(lo: Nibble)
    ensures Tab(Octet(HA, lo)) == Xor64(Tab(Octet(HA, H0)), Tab(Octet(H0, lo)))
  {
  }

  lemma RowB(lo: Nibble)
    ensures Tab(Octet(HB, lo)) == Xor64(Tab(Octet(HB, H0)), Tab(Octet(H0, lo)))
  {
  }

  lemma RowC(lo: Nibble)
    ensures Tab(Octet(HC, lo)) == Xor64(Tab(Octet(HC, H0)), Tab(Octet(H0, lo)))
  {
  }

  lemma RowD(lo: Nibble)
    ensures Tab(Octet(HD, lo)) == Xor64(Tab(Octet(HD, H0)), Tab(Octet(H0, lo)))
  {
  }

  lemma RowE(lo: Nibble)
    ensures Tab(Octet(HE, lo)) == Xor64(Tab(Octet(HE, H0)), Tab(Octet(H0, lo)))
  {
  }

  lemma RowF(lo: Nibble)
    ensures Tab(Octet(HF, lo)) == Xor64(Tab(Octet(HF, H0)), Tab(Octet(H0, lo)))
  {
  }

  lemma TabSum(hi: Nibble, lo: Nibble)
    ensures Tab(Octet(hi, lo)) == Xor64(Tab(Octet(hi, H0)), Tab(Octet(H0, lo)))
  {
    DigitCases(hi);
    XorZero64(Tab(Octet(H0, lo)));
    assert hi == H0 ==> Tab(Octet(hi, H0)) == ZERO64;
    hide Tab, Xor64;
    if hi == H1 { Row1(lo); }
    else if hi == H2 { Row2(lo); }
    else if hi == H3 { Row3(lo); }
    else if hi == H4 { Row4(lo); }
    else if hi == H5 { Row5(lo); }
    else if hi == H6 { Row6(lo); }
    else if hi == H7 { Row7(lo); }
    else if hi == H8 { Row8(lo); }
    else if hi == H9 { Row9(lo); }
    else if hi == HA { RowA(lo); }
    else if hi == HB { RowB(lo); }
    else if hi == HC { RowC(lo); }
    else if hi == HD { RowD(lo); }
    else if hi == HE { RowE(lo); }
    else if hi == HF { RowF(lo); }
  }

  lemma DigitCases(n: Nibble)
    ensures n in {H0, H1, H2, H3, H4, H5, H6, H7, H8, H9, HA, HB, HC, HD, HE, HF}
  {
  }

  lemma XorZero64(w: Wide)
    ensures Xor64(ZERO64, w) == w && Xor64(w, ZERO64) == w
  {
  }

  lemma BytesSum(o: Octet)
    ensures FromByte(o) == Xor64(FromByte(Octet(o.hi, H0)), FromByte(Octet(H0, o.lo)))
    ensures FromByte(Octet(H0, o.lo)) == Sum(o.lo, FromByte(Octet(H0, H8)), FromByte(Octet(H0, H4)),
                                             FromByte(Octet(H0, H2)), FromByte(Octet(H0, H1)))
    ensures FromByte(Octet(o.hi, H0)) == Sum(o.hi, FromByte(Octet(H8, H0)), FromByte(Octet(H4, H0)),
                                             FromByte(Octet(H2, H0)), FromByte(Octet(H1, H0)))
  {
  }

  lemma StepZero()
    ensures StepEight(ZERO64) == ZERO64
  {
    assert Step64(ZERO64) == ZERO64;
    hide Step64;
  }

  lemma StepWhen(b: bool, w: Wide)
    ensures StepEight(When(b, w)) == When(b, StepEight(w))
  {
    StepZero();
    hide StepEight;
  }

  lemma StepSum(n: Nibble, w8: Wide, w4: Wide, w2: Wide, w1: Wide)
    ensures StepEight(Sum(n, w8, w4, w2, w1)) == Sum(n, StepEight(w8), StepEight(w4), StepEight(w2), StepEight(w1))
  {
    hide StepEight, Xor64, When;
    StepEightXor(Xor64(When(n.b3, w8), When(n.b2, w4)), Xor64(When(n.b1, w2), When(n.b0, w1)));
    StepEightXor(When(n.b3, w8), When(n.b2, w4));
    StepEightXor(When(n.b1, w2), When(n.b0, w1));
    StepWhen(n.b3, w8);
    StepWhen(n.b2, w4);
    StepWhen(n.b1, w2);
    StepWhen(n.b0, w1);
  }

  lemma TableIsSteps(o: Octet)
    ensures Tab(o) == StepEight(FromByte(o))
  {
    hide Tab, StepEight, FromByte, Xor64, Sum;
    assert o == Octet(o.hi, o.lo);
    TabSum(o.hi, o.lo);
    TabLow(o.lo);
    TabHigh(o.hi);
    BaseLow();
    BaseHigh();
    BytesSum(o);
    StepEightXor(FromByte(Octet(o.hi, H0)), FromByte(Octet(H0, o.lo)));
    StepSum(o.lo, FromByte(Octet(H0, H8)), FromByte(Octet(H0, H4)), FromByte(Octet(H0, H2)), FromByte(Octet(H0, H1)));
    StepSum(o.hi, FromByte(Octet(H8, H0)), FromByte(Octet(H4, H0)), FromByte(Octet(H2, H0)), FromByte(Octet(H1, H0)));
  }

  // ---- One table lookup is eight division steps ----

  function Cleared(c: Wide): Wide {
    c.(r0 := Reg(c.r0.n3, c.r0.n2, H0, H0))
  }

  /** Four shifts of a register, the bits of digit `p` coming in from the left. */
  lemma FourShifts(c: Reg, p: Nibble)
    ensures var c1 := RightReg(c, p.b0);
            var c2 := RightReg(c1, p.b1);
            var c3 := RightReg(c2, p.b2);
            && c1.n0.b0 == c.n0.b1 && c2.n0.b0 == c.n0.b2 && c3.n0.b0 == c.n0.b3
            && RightReg(c3, p.b3) == Reg(p, c.n3, c.n2, c.n1)
  {
  }

  /** Four steps of a register whose last digit is zero only shift. */
  lemma PureShift(c: Wide)
    requires c.r0.n0 == H0
    ensures StepFour(c) == Wide(
              Reg(H0, c.r3.n3, c.r3.n2, c.r3.n1), Reg(c.r3.n0, c.r2.n3, c.r2.n2, c.r2.n1),
              Reg(c.r2.n0, c.r1.n3, c.r1.n2, c.r1.n1), Reg(c.r1.n0, c.r0.n3, c.r0.n2, c.r0.n1))
  {
    FourShifts(c.r3, H0);
    FourShifts(c.r2, c.r3.n0);
    FourShifts(c.r1, c.r2.n0);
    FourShifts(c.r0, c.r1.n0);
    hide RightReg, Xor64;
    var c1 := Shifted64(c);
    var c2 := Shifted64(c1);
    var c3 := Shifted64(c2);
    assert Step64(c) == c1 && Step64(c1) == c2 && Step64(c2) == c3 && Step64(c3) == Shifted64(c3);
  }

  lemma ClearedSteps(c: Wide)
    ensures StepEight(Cleared(c)) == ShiftByte64(c)
  {
    hide StepFour;
    PureShift(Cleared(c));
    PureShift(StepFour(Cleared(c)));
  }

  lemma SplitByte(c: Wide, o: Octet)
    ensures Xor64(c, FromByte(o)) == Xor64(Cleared(c), FromByte(XorOctet(LowByte(c), o)))
  {
  }

  lemma XorCommutes64(a: Wide, b: Wide)
    ensures Xor64(a, b) == Xor64(b, a)
  {
  }

  /** The table-driven round is the division of one byte, for every register. */
  lemma Lookup64IsDivision(c: Wide, o: Octet)
    ensures Lookup64(c, o) == ShiftBits64(c, o, 8)
  {
    var b := XorOctet(LowByte(c), o);
    BitsAreSteps(c, o);
    SplitByte(c, o);
    StepEightXor(Cleared(c), FromByte(b));
    ClearedSteps(c);
    TableIsSteps(b);
    XorCommutes64(Tab(b), ShiftByte64(c));
    hide Xor64, Tab, StepEight, FromByte, Cleared, ShiftByte64, ShiftBits64, LowByte, XorOctet;
  }

  // ---- The checksum on integers ----

  /** The number a register stands for. */
  function Number64(c: Wide): nat {
    After(After(After(After(0, c.r3), c.r2), c.r1), c.r0)
  }

  lemma HalfPush(a: nat, n: Nibble)
    ensures Push(a, n) / 2 == Push(a / 2, Right(n, a % 2 == 1))
    ensures n.b0 <==> Push(a, n) % 2 == 1
  {
    assert Digit(n) == 2 * (4 * One(n.b3) + 2 * One(n.b2) + One(n.b1)) + One(n.b0);
    assert Digit(Right(n, a % 2 == 1)) == 8 * One(a % 2 == 1) + 4 * One(n.b3) + 2 * One(n.b2) + One(n.b1);
    assert a == 2 * (a / 2) + One(a % 2 == 1);
    hide Digit, Right;
    assert Push(a, n) == 2 * Push(a / 2, Right(n, a % 2 == 1)) + One(n.b0);
  }

  lemma HalfAfter(a: nat, c: Reg, bit: bool)
    requires bit <==> a % 2 == 1
    ensures After(a, c) / 2 == After(a / 2, RightReg(c, bit))
    ensures c.n0.b0 <==> After(a, c) % 2 == 1
  {
    var a3 := Push(a, c.n3);
    var a2 := Push(a3, c.n2);
    var a1 := Push(a2, c.n1);
    HalfPush(a, c.n3);
    HalfPush(a3, c.n2);
    HalfPush(a2, c.n1);
    HalfPush(a1, c.n0);
    hide Push, Right;
  }

  /** Shifting a register right halves its number. */
  lemma ShiftedNumber64(c: Wide)
    ensures Number64(Shifted64(c)) == Number64(c) / 2
    ensures Bit(c) <==> Number64(c) % 2 == 1
  {
    hide After, RightReg;
    var a3 := After(0, c.r3);
    var a2 := After(a3, c.r2);
    var a1 := After(a2, c.r1);
    HalfAfter(0, c.r3, false);
    HalfAfter(a3, c.r2, c.r3.n0.b0);
    HalfAfter(a2, c.r1, c.r2.n0.b0);
    HalfAfter(a1, c.r0, c.r1.n0.b0);
  }

  lemma XorNumber64(c: Wide, d: Wide)
    ensures Number64(Xor64(c, d)) == XorInt(Number64(c), Number64(d))
  {
    assert XorInt(0, 0) == 0;
    hide After, Xor, XorInt;
    var c3, d3 := After(0, c.r3), After(0, d.r3);
    var c2, d2 := After(c3, c.r2), After(d3, d.r2);
    var c1, d1 := After(c2, c.r1), After(d2, d.r1);
    XorAfter(0, 0, c.r3, d.r3);
    XorAfter(c3, d3, c.r2, d.r2);
    XorAfter(c2, d2, c.r1, d.r1);
    XorAfter(c1, d1, c.r0, d.r0);
  }

  lemma PolyNumber()
    ensures Number64(POLY64) == 0x95ac9329ac4bc9b5
  {
    PolyDigits();
    var n3, n2, n1, n0 := POLY64.r3, POLY64.r2, POLY64.r1, POLY64.r0;
    hide After, Number, POLY64;
    AfterNumber(0, n3);
    AfterNumber(After(0, n3), n2);
    AfterNumber(After(After(0, n3), n2), n1);
    AfterNumber(After(After(After(0, n3), n2), n1), n0);
  }

  lemma PolyDigits()
    ensures Number(POLY64.r3) == 0x95ac && Number(POLY64.r2) == 0x9329
    ensures Number(POLY64.r1) == 0xac4b && Number(POLY64.r0) == 0xc9b5
  {
  }

  lemma ShiftInNumber64(c: Wide, bit: bool)
    ensures Number64(ShiftIn64(c, bit)) == Divide64(Number64(c), bit)
  {
    PolyNumber();
    ShiftedNumber64(c);
    XorNumber64(Shifted64(c), POLY64);
    hide Xor64, XorInt, Shifted64, Number64, Bit;
  }

  lemma DownNumber(o: Octet)
    ensures OctetNumber(Down(o)) == OctetNumber(o) / 2
    ensures Bottom(o) <==> OctetNumber(o) % 2 == 1
  {
    HalfPush(0, o.hi);
    HalfPush(Push(0, o.hi), o.lo);
    assert OctetNumber(o) == Push(Push(0, o.hi), o.lo) && OctetNumber(Down(o)) == Push(Push(0, Right(o.hi, false)), Right(o.lo, o.hi.b0));
    hide Push, Right, OctetNumber;
  }

  lemma {:induction false} ShiftBitsNumber64(c: Wide, o: Octet, n: nat)
    ensures Number64(ShiftBits64(c, o, n)) == Divide64Bits(Number64(c), OctetNumber(o), n)
    decreases n
  {
    hide Number64, OctetNumber, ShiftIn64, Divide64, Bottom, Down;
    if n > 0 {
      ShiftInNumber64(c, Bottom(o));
      DownNumber(o);
      ShiftBitsNumber64(ShiftIn64(c, Bottom(o)), Down(o), n - 1);
    }
  }

  /** The registers compute the checksum of the integers. */
  lemma {:induction false} RemainderNumber64(c: Wide, s: bytes)
    ensures Number64(Remainder64(c, Octets(s))) == Crc64Of(Number64(c), s)
    decreases |s|
  {
    hide Number64, ShiftBits64, Divide64Bits, OctetOf, OctetNumber;
    if s != [] {
      OctetValue(s[0]);
      ShiftBitsNumber64(c, OctetOf(s[0]), 8);
      assert Octets(s)[0] == OctetOf(s[0]) && Octets(s)[1..] == Octets(s[1..]);
      RemainderNumber64(ShiftBits64(c, OctetOf(s[0]), 8), s[1..]);
    }
  }

  /** The table-driven loop computes the bit-serial remainder, of registers and of the integers they stand for. */
  method Checksum(crc: Wide, s: bytes) returns (r: Wide)
    ensures r == Remainder64(crc, Octets(s))
    ensures Number64(r) == Crc64Of(Number64(crc), s)
  {
    RemainderNumber64(crc, s);
    hide Lookup64, ShiftBits64, Octets, Number64, Crc64Of;
    var os := Octets(s);
    r := crc;
    assert os[0..] == os;
    for j := 0 to |s|
      invariant Remainder64(crc, os) == Remainder64(r, os[j..])
    {
      Lookup64IsDivision(r, os[j]);
      assert os[j..][0] == os[j] && os[j..][1..] == os[j + 1..];
      r := Lookup64(r, os[j]);
    }
  }

  /** It may be computed piece by piece. */
  lemma {:induction false} Incremental(c: Wide, a: seq<Octet>, b: seq<Octet>)
    ensures Remainder64(c, a + b) == Remainder64(Remainder64(c, a), b)
    decreases |a|
  {
    hide ShiftBits64;
    if a == [] {
      assert a + b == b;
    } else {
      assert (a + b)[0] == a[0] && (a + b)[1..] == a[1..] + b;
      Incremental(ShiftBits64(c, a[0], 8), a[1..], b);
    }
  }
}
