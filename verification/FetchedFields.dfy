/** The operands of a fetched instruction, in plain arithmetic on the fields of its word. */
module FetchedFields {
  import opened Isa
  import opened Decode
  import opened Compressed
  import opened Platform

  // ----- even offsets -----

  lemma HalfJoined(h: bv31)
    ensures ((h as bv32) << 1) as nat == 2 * (h as nat)
  {
  }

  lemma EvenIsValue(x: bv32, h: bv31)
    requires x == (h as bv32) << 1 && h == (x >> 1) as bv31
    ensures EvenValue(x) == x as nat
  {
    HalfJoined(h);
  }

  /** An even offset is read as its value. */
  lemma EvenValueIs(x: bv32)
    requires x & 1 == 0
    ensures EvenValue(x) == x as nat
  {
    EvenIsValue(x, (x >> 1) as bv31);
  }

  // ----- a word by its fields, as figures 2.3 and 2.4 of the Unprivileged ISA cut it -----

  /** Bit 31, bits 30..25, 24..21, 20, 19..15, 14..12, 11..8, 7 and 6..0. */
  function Joined(s: bv1, a: bv6, b: bv4, c: bv1, d: bv5, e: bv3, f: bv4, g: bv1, k: bv7): bv32 {
    ((s as bv32) << 31) | ((a as bv32) << 25) | ((b as bv32) << 21) | ((c as bv32) << 20) | ((d as bv32) << 15) |
    ((e as bv32) << 12) | ((f as bv32) << 8) | ((g as bv32) << 7) | (k as bv32)
  }

  lemma WordSum(s: bv1, a: bv6, b: bv4, c: bv1, d: bv5, e: bv3, f: bv4, g: bv1, k: bv7)
    ensures (((s as bv32) << 31) | ((a as bv32) << 25) | ((b as bv32) << 21) | ((c as bv32) << 20) |
             ((d as bv32) << 15) | ((e as bv32) << 12) | ((f as bv32) << 8) | ((g as bv32) << 7) | (k as bv32)) as nat ==
            0x8000_0000 * (s as nat) + 0x200_0000 * (a as nat) + 0x20_0000 * (b as nat) + 0x10_0000 * (c as nat)
            + 0x8000 * (d as nat) + 0x1000 * (e as nat) + 0x100 * (f as nat) + 0x80 * (g as nat) + k as nat
  {
  }

  lemma SumOf(w: bv32, s: bv1, a: bv6, b: bv4, c: bv1, d: bv5, e: bv3, f: bv4, g: bv1, k: bv7)
    requires w ==
             ((s as bv32) << 31) | ((a as bv32) << 25) | ((b as bv32) << 21) | ((c as bv32) << 20) |
             ((d as bv32) << 15) | ((e as bv32) << 12) | ((f as bv32) << 8) | ((g as bv32) << 7) | (k as bv32)
    ensures w as nat ==
            0x8000_0000 * (s as nat) + 0x200_0000 * (a as nat) + 0x20_0000 * (b as nat) + 0x10_0000 * (c as nat)
            + 0x8000 * (d as nat) + 0x1000 * (e as nat) + 0x100 * (f as nat) + 0x80 * (g as nat) + k as nat
  {
    WordSum(s, a, b, c, d, e, f, g, k);
  }

  lemma WordNumber(s: bv1, a: bv6, b: bv4, c: bv1, d: bv5, e: bv3, f: bv4, g: bv1, k: bv7)
    ensures Joined(s, a, b, c, d, e, f, g, k) as nat ==
            0x8000_0000 * (s as nat) + 0x200_0000 * (a as nat) + 0x20_0000 * (b as nat) + 0x10_0000 * (c as nat)
            + 0x8000 * (d as nat) + 0x1000 * (e as nat) + 0x100 * (f as nat) + 0x80 * (g as nat) + k as nat
  {
    SumOf(Joined(s, a, b, c, d, e, f, g, k), s, a, b, c, d, e, f, g, k);
  }

  lemma RegisterFields(w: bv32, s: bv1, a: bv6, b: bv4, c: bv1, d: bv5, e: bv3, f: bv4, g: bv1, k: bv7)
    requires w == Joined(s, a, b, c, d, e, f, g, k)
    ensures Field5(Rd(w)) == 2 * (f as nat) + g as nat
    ensures Field5(Rs1(w)) == d as nat
    ensures Field5(Rs2(w)) == 2 * (b as nat) + c as nat
  {
  }

  // Immediates: their bits, and the number these bits stand for.

  lemma IBits(w: bv32, s: bv1, a: bv6, b: bv4, c: bv1, d: bv5, e: bv3, f: bv4, g: bv1, k: bv7)
    requires w == Joined(s, a, b, c, d, e, f, g, k)
    ensures Iimm(w) == (if s == 1 then 0xFFFF_F800 else 0) | ((a as bv32) << 5) | ((b as bv32) << 1) | (c as bv32)
  {
  }

  lemma ISum(a: bv6, b: bv4, c: bv1)
    ensures (((a as bv32) << 5) | ((b as bv32) << 1) | (c as bv32)) as nat ==
            0x20 * (a as nat) + 2 * (b as nat) + c as nat
    ensures (0xFFFF_F800 | ((a as bv32) << 5) | ((b as bv32) << 1) | (c as bv32)) as nat ==
            0xFFFF_F800 + 0x20 * (a as nat) + 2 * (b as nat) + c as nat
  {
  }

  lemma INumber(x: bv32, s: bv1, a: bv6, b: bv4, c: bv1)
    requires x == (if s == 1 then 0xFFFF_F800 else 0) | ((a as bv32) << 5) | ((b as bv32) << 1) | (c as bv32)
    ensures x as nat == 0x20 * (a as nat) + 2 * (b as nat) + c as nat + if s == 1 then 0xFFFF_F800 else 0
  {
    ISum(a, b, c);
  }

  lemma SBits(w: bv32, s: bv1, a: bv6, b: bv4, c: bv1, d: bv5, e: bv3, f: bv4, g: bv1, k: bv7)
    requires w == Joined(s, a, b, c, d, e, f, g, k)
    ensures Simm(w) == (if s == 1 then 0xFFFF_F800 else 0) | ((a as bv32) << 5) | ((f as bv32) << 1) | (g as bv32)
  {
  }

  lemma SSum(a: bv6, f: bv4, g: bv1)
    ensures (((a as bv32) << 5) | ((f as bv32) << 1) | (g as bv32)) as nat ==
            0x20 * (a as nat) + 2 * (f as nat) + g as nat
    ensures (0xFFFF_F800 | ((a as bv32) << 5) | ((f as bv32) << 1) | (g as bv32)) as nat ==
            0xFFFF_F800 + 0x20 * (a as nat) + 2 * (f as nat) + g as nat
  {
  }

  lemma SNumber(x: bv32, s: bv1, a: bv6, f: bv4, g: bv1)
    requires x == (if s == 1 then 0xFFFF_F800 else 0) | ((a as bv32) << 5) | ((f as bv32) << 1) | (g as bv32)
    ensures x as nat == 0x20 * (a as nat) + 2 * (f as nat) + g as nat + if s == 1 then 0xFFFF_F800 else 0
  {
    SSum(a, f, g);
  }

  lemma BBits(w: bv32, s: bv1, a: bv6, b: bv4, c: bv1, d: bv5, e: bv3, f: bv4, g: bv1, k: bv7)
    requires w == Joined(s, a, b, c, d, e, f, g, k)
    ensures Bimm(w) ==
            (if s == 1 then 0xFFFF_F000 else 0) | ((g as bv32) << 11) | ((a as bv32) << 5) | ((f as bv32) << 1)
  {
  }

  lemma BSum(g: bv1, a: bv6, f: bv4)
    ensures (((g as bv32) << 11) | ((a as bv32) << 5) | ((f as bv32) << 1)) as nat ==
            0x800 * (g as nat) + 0x20 * (a as nat) + 2 * (f as nat)
    ensures (0xFFFF_F000 | ((g as bv32) << 11) | ((a as bv32) << 5) | ((f as bv32) << 1)) as nat ==
            0xFFFF_F000 + 0x800 * (g as nat) + 0x20 * (a as nat) + 2 * (f as nat)
  {
  }

  lemma BNumber(x: bv32, s: bv1, g: bv1, a: bv6, f: bv4)
    requires x == (if s == 1 then 0xFFFF_F000 else 0) | ((g as bv32) << 11) | ((a as bv32) << 5) | ((f as bv32) << 1)
    ensures x as nat == 0x800 * (g as nat) + 0x20 * (a as nat) + 2 * (f as nat) + if s == 1 then 0xFFFF_F000 else 0
  {
    BSum(g, a, f);
  }

  lemma JPieces(w: bv32, s: bv1, a: bv6, b: bv4, c: bv1, d: bv5, e: bv3, f: bv4, g: bv1, k: bv7)
    requires w == Joined(s, a, b, c, d, e, f, g, k)
    ensures (w & 0x8000_0000) >> 11 == (s as bv32) << 20
    ensures w & 0xF_F000 == ((d as bv32) << 15) | ((e as bv32) << 12)
    ensures (w & 0x10_0000) >> 9 == (c as bv32) << 11
    ensures (w & 0x7FE0_0000) >> 20 == ((a as bv32) << 5) | ((b as bv32) << 1)
  {
  }

  lemma JSign(s: bv1)
    ensures Fill((s as bv32) << 20, 0x10_0000) == if s == 1 then 0xFFF0_0000 else 0
  {
  }

  lemma JGlued(x: bv32, top: bv32, de: bv32, c: bv32, ab: bv32)
    requires Fill(x, 0x10_0000) == top
    ensures SplitJ(x, de, c, ab) == top | de | c | ab
  {
  }

  lemma JBits(w: bv32, s: bv1, a: bv6, b: bv4, c: bv1, d: bv5, e: bv3)
    requires (w & 0x8000_0000) >> 11 == (s as bv32) << 20
    requires w & 0xF_F000 == ((d as bv32) << 15) | ((e as bv32) << 12)
    requires (w & 0x10_0000) >> 9 == (c as bv32) << 11
    requires (w & 0x7FE0_0000) >> 20 == ((a as bv32) << 5) | ((b as bv32) << 1)
    ensures Jimm(w) ==
            (if s == 1 then 0xFFF0_0000 else 0) | ((d as bv32) << 15) | ((e as bv32) << 12) | ((c as bv32) << 11) |
            ((a as bv32) << 5) | ((b as bv32) << 1)
  {
    JSign(s);
    JGlued((w & 0x8000_0000) >> 11, if s == 1 then 0xFFF0_0000 else 0,
           w & 0xF_F000, (w & 0x10_0000) >> 9, (w & 0x7FE0_0000) >> 20);
  }

  lemma JSum(d: bv5, e: bv3, c: bv1, a: bv6, b: bv4)
    ensures (((d as bv32) << 15) | ((e as bv32) << 12) | ((c as bv32) << 11) | ((a as bv32) << 5) |
            ((b as bv32) << 1)) as nat ==
            0x8000 * (d as nat) + 0x1000 * (e as nat) + 0x800 * (c as nat) + 0x20 * (a as nat) + 2 * (b as nat)
    ensures (0xFFF0_0000 | ((d as bv32) << 15) | ((e as bv32) << 12) | ((c as bv32) << 11) | ((a as bv32) << 5) |
            ((b as bv32) << 1)) as nat ==
            0xFFF0_0000 + 0x8000 * (d as nat) + 0x1000 * (e as nat) + 0x800 * (c as nat) + 0x20 * (a as nat)
            + 2 * (b as nat)
  {
  }

  lemma JNumber(x: bv32, s: bv1, d: bv5, e: bv3, c: bv1, a: bv6, b: bv4)
    requires x == (if s == 1 then 0xFFF0_0000 else 0) |
                  ((d as bv32) << 15) | ((e as bv32) << 12) | ((c as bv32) << 11) | ((a as bv32) << 5) |
                  ((b as bv32) << 1)
    ensures x as nat ==
            0x8000 * (d as nat) + 0x1000 * (e as nat) + 0x800 * (c as nat) + 0x20 * (a as nat) + 2 * (b as nat)
            + if s == 1 then 0xFFF0_0000 else 0
  {
    JSum(d, e, c, a, b);
  }

  lemma UBits(w: bv32, s: bv1, a: bv6, b: bv4, c: bv1, d: bv5, e: bv3, f: bv4, g: bv1, k: bv7)
    requires w == Joined(s, a, b, c, d, e, f, g, k)
    ensures Uimm(w) == Joined(s, a, b, c, d, e, 0, 0, 0)
  {
  }

  lemma UpperPieces(s: bv1, a: bv6, b: bv4, c: bv1, d: bv5, e: bv3)
    ensures Joined(s, a, b, c, d, e, 0, 0, 0) ==
            ((s as bv32) << 31) | ((a as bv32) << 25) | ((b as bv32) << 21) | ((c as bv32) << 20) |
            ((d as bv32) << 15) | ((e as bv32) << 12)
  {
  }

  lemma USum(s: bv1, a: bv6, b: bv4, c: bv1, d: bv5, e: bv3)
    ensures (((s as bv32) << 31) | ((a as bv32) << 25) | ((b as bv32) << 21) | ((c as bv32) << 20) |
            ((d as bv32) << 15) | ((e as bv32) << 12)) as nat ==
            0x8000_0000 * (s as nat) + 0x200_0000 * (a as nat) + 0x20_0000 * (b as nat) + 0x10_0000 * (c as nat)
            + 0x8000 * (d as nat) + 0x1000 * (e as nat)
  {
  }

  lemma UNumber(x: bv32, s: bv1, a: bv6, b: bv4, c: bv1, d: bv5, e: bv3)
    requires x == ((s as bv32) << 31) | ((a as bv32) << 25) | ((b as bv32) << 21) | ((c as bv32) << 20) |
                  ((d as bv32) << 15) | ((e as bv32) << 12)
    ensures x as nat ==
            0x8000_0000 * (s as nat) + 0x200_0000 * (a as nat) + 0x20_0000 * (b as nat) + 0x10_0000 * (c as nat)
            + 0x8000 * (d as nat) + 0x1000 * (e as nat)
  {
    USum(s, a, b, c, d, e);
  }

  lemma CsrBits(w: bv32, s: bv1, a: bv6, b: bv4, c: bv1, d: bv5, e: bv3, f: bv4, g: bv1, k: bv7)
    requires w == Joined(s, a, b, c, d, e, f, g, k)
    ensures w >> 20 == ((s as bv32) << 11) | ((a as bv32) << 5) | ((b as bv32) << 1) | (c as bv32)
  {
  }

  lemma CsrSum(s: bv1, a: bv6, b: bv4, c: bv1)
    ensures (((s as bv32) << 11) | ((a as bv32) << 5) | ((b as bv32) << 1) | (c as bv32)) as nat ==
            0x800 * (s as nat) + 0x20 * (a as nat) + 2 * (b as nat) + c as nat
  {
  }

  lemma CsrNumber(x: bv32, s: bv1, a: bv6, b: bv4, c: bv1)
    requires x == ((s as bv32) << 11) | ((a as bv32) << 5) | ((b as bv32) << 1) | (c as bv32)
    ensures x as nat == 0x800 * (s as nat) + 0x20 * (a as nat) + 2 * (b as nat) + c as nat
  {
    CsrSum(s, a, b, c);
  }

  lemma ShamtBits(w: bv32, s: bv1, a: bv6, b: bv4, c: bv1, d: bv5, e: bv3, f: bv4, g: bv1, k: bv7)
    requires w == Joined(s, a, b, c, d, e, f, g, k)
    ensures Shamt(w) == (((a & 1) as bv32) << 5) | ((b as bv32) << 1) | (c as bv32)
  {
  }

  lemma ShamtSum(a: bv6, b: bv4, c: bv1)
    ensures ((((a & 1) as bv32) << 5) | ((b as bv32) << 1) | (c as bv32)) as nat ==
            0x20 * ((a & 1) as nat) + 2 * (b as nat) + c as nat
  {
  }

  lemma ShamtNumber(x: bv32, a: bv6, b: bv4, c: bv1)
    requires x == (((a & 1) as bv32) << 5) | ((b as bv32) << 1) | (c as bv32)
    ensures x as nat == 0x20 * ((a & 1) as nat) + 2 * (b as nat) + c as nat
  {
    ShamtSum(a, b, c);
  }

  lemma EvenOffsets(x: bv32)
    ensures Bimm(x) & 1 == 0 && Jimm(x) & 1 == 0
  {
  }

  // ----- the operands of an instruction -----

  lemma IValue(w: bv32, s: bv1, a: bv6, b: bv4, c: bv1, d: bv5, e: bv3, f: bv4, g: bv1, k: bv7)
    requires w == Joined(s, a, b, c, d, e, f, g, k)
    ensures Value32(Iimm(w)) == 0x20 * (a as nat) + 2 * (b as nat) + c as nat + if s == 1 then 0xFFFF_F800 else 0
  {
    IBits(w, s, a, b, c, d, e, f, g, k);
    INumber(Iimm(w), s, a, b, c);
  }

  lemma SValue(w: bv32, s: bv1, a: bv6, b: bv4, c: bv1, d: bv5, e: bv3, f: bv4, g: bv1, k: bv7)
    requires w == Joined(s, a, b, c, d, e, f, g, k)
    ensures Value32(Simm(w)) == 0x20 * (a as nat) + 2 * (f as nat) + g as nat + if s == 1 then 0xFFFF_F800 else 0
  {
    SBits(w, s, a, b, c, d, e, f, g, k);
    SNumber(Simm(w), s, a, f, g);
  }

  lemma BValue(w: bv32, s: bv1, a: bv6, b: bv4, c: bv1, d: bv5, e: bv3, f: bv4, g: bv1, k: bv7)
    requires w == Joined(s, a, b, c, d, e, f, g, k)
    ensures EvenValue(Bimm(w)) ==
            0x800 * (g as nat) + 0x20 * (a as nat) + 2 * (f as nat) + if s == 1 then 0xFFFF_F000 else 0
  {
    BBits(w, s, a, b, c, d, e, f, g, k);
    BNumber(Bimm(w), s, g, a, f);
    EvenOffsets(w);
    EvenValueIs(Bimm(w));
  }

  lemma JValue(w: bv32, s: bv1, a: bv6, b: bv4, c: bv1, d: bv5, e: bv3, f: bv4, g: bv1, k: bv7)
    requires w == Joined(s, a, b, c, d, e, f, g, k)
    ensures EvenValue(Jimm(w)) ==
            0x8000 * (d as nat) + 0x1000 * (e as nat) + 0x800 * (c as nat) + 0x20 * (a as nat) + 2 * (b as nat)
            + if s == 1 then 0xFFF0_0000 else 0
  {
    JPieces(w, s, a, b, c, d, e, f, g, k);
    JBits(w, s, a, b, c, d, e);
    JNumber(Jimm(w), s, d, e, c, a, b);
    EvenOffsets(w);
    EvenValueIs(Jimm(w));
  }

  lemma UValue(w: bv32, s: bv1, a: bv6, b: bv4, c: bv1, d: bv5, e: bv3, f: bv4, g: bv1, k: bv7)
    requires w == Joined(s, a, b, c, d, e, f, g, k)
    ensures Value32(Uimm(w)) ==
            0x8000_0000 * (s as nat) + 0x200_0000 * (a as nat) + 0x20_0000 * (b as nat) + 0x10_0000 * (c as nat)
            + 0x8000 * (d as nat) + 0x1000 * (e as nat)
  {
    UBits(w, s, a, b, c, d, e, f, g, k);
    UpperPieces(s, a, b, c, d, e);
    UNumber(Uimm(w), s, a, b, c, d, e);
  }

  lemma ShamtValue(w: bv32, s: bv1, a: bv6, b: bv4, c: bv1, d: bv5, e: bv3, f: bv4, g: bv1, k: bv7)
    requires w == Joined(s, a, b, c, d, e, f, g, k)
    ensures Value32(Shamt(w)) == 0x20 * ((a & 1) as nat) + 2 * (b as nat) + c as nat
  {
    ShamtBits(w, s, a, b, c, d, e, f, g, k);
    ShamtNumber(Shamt(w), a, b, c);
  }

  lemma CsrValue(w: bv32, s: bv1, a: bv6, b: bv4, c: bv1, d: bv5, e: bv3, f: bv4, g: bv1, k: bv7)
    requires w == Joined(s, a, b, c, d, e, f, g, k)
    ensures (w >> 20) as nat == 0x800 * (s as nat) + 0x20 * (a as nat) + 2 * (b as nat) + c as nat
  {
    CsrBits(w, s, a, b, c, d, e, f, g, k);
    CsrNumber(w >> 20, s, a, b, c);
  }

  lemma LowBit(a: bv6, n: nat)
    requires n == a as nat
    ensures (a & 1) as nat == n % 2
  {
  }

  /** The five immediates and the shift amount of a word. */
  datatype Values = Values(i: nat, s: nat, b: nat, j: nat, u: nat, shamt: nat)

  predicate ValuesIn(w: bv32, v: Values) {
    && Value32(Iimm(w)) == v.i && Value32(Simm(w)) == v.s && EvenValue(Bimm(w)) == v.b
    && EvenValue(Jimm(w)) == v.j && Value32(Uimm(w)) == v.u && Value32(Shamt(w)) == v.shamt
  }

  lemma Chosen(op: Opcode, w: bv32, v: Values)
    requires ValuesIn(w, v)
    ensures Immediate(op, w) ==
            match op
            case LUI => v.u case AUIPC => v.u case JAL => v.j case Branch(_) => v.b case Store(_) => v.s
            case OpImm(alu) => if alu.SLL? || alu.SRL? || alu.SRA? then v.shamt else v.i
            case _ => v.i
  {
  }

  /** The numbers of the figures; the sign extension adds the bits above the sign. */
  function ValuesOf(s: nat, a: nat, b: nat, c: nat, d: nat, e: nat, f: nat, g: nat): Values {
    var sign := (ones: nat) => if s == 1 then ones else 0;
    Values(0x20 * a + 2 * b + c + sign(0xFFFF_F800), 0x20 * a + 2 * f + g + sign(0xFFFF_F800),
           0x800 * g + 0x20 * a + 2 * f + sign(0xFFFF_F000),
           0x8000 * d + 0x1000 * e + 0x800 * c + 0x20 * a + 2 * b + sign(0xFFF0_0000),
           0x8000_0000 * s + 0x200_0000 * a + 0x20_0000 * b + 0x10_0000 * c + 0x8000 * d + 0x1000 * e,
           0x20 * (a % 2) + 2 * b + c)
  }

  /** The numbers are those of the fields. */
  predicate Named(s: bv1, a: bv6, b: bv4, c: bv1, d: bv5, e: bv3, f: bv4, g: bv1, k: bv7, sn: nat, an: nat, bn: nat,
                  cn: nat, dn: nat, en: nat, fn: nat, gn: nat, kn: nat) {
    && sn == s as nat && an == a as nat && bn == b as nat && cn == c as nat && dn == d as nat
    && en == e as nat && fn == f as nat && gn == g as nat && kn == k as nat
  }

  lemma INamed(w: bv32, s: bv1, a: bv6, b: bv4, c: bv1, d: bv5, e: bv3, f: bv4, g: bv1, k: bv7,
                    sn: nat, an: nat, bn: nat, cn: nat, dn: nat, en: nat, fn: nat, gn: nat, kn: nat)
    requires w == Joined(s, a, b, c, d, e, f, g, k) &&
             Named(s, a, b, c, d, e, f, g, k, sn, an, bn, cn, dn, en, fn, gn, kn)
    ensures Value32(Iimm(w)) == ValuesOf(sn, an, bn, cn, dn, en, fn, gn).i
  {
    IValue(w, s, a, b, c, d, e, f, g, k);
  }

  lemma SNamed(w: bv32, s: bv1, a: bv6, b: bv4, c: bv1, d: bv5, e: bv3, f: bv4, g: bv1, k: bv7,
                    sn: nat, an: nat, bn: nat, cn: nat, dn: nat, en: nat, fn: nat, gn: nat, kn: nat)
    requires w == Joined(s, a, b, c, d, e, f, g, k) &&
             Named(s, a, b, c, d, e, f, g, k, sn, an, bn, cn, dn, en, fn, gn, kn)
    ensures Value32(Simm(w)) == ValuesOf(sn, an, bn, cn, dn, en, fn, gn).s
  {
    SValue(w, s, a, b, c, d, e, f, g, k);
  }

  lemma BNamed(w: bv32, s: bv1, a: bv6, b: bv4, c: bv1, d: bv5, e: bv3, f: bv4, g: bv1, k: bv7,
                    sn: nat, an: nat, bn: nat, cn: nat, dn: nat, en: nat, fn: nat, gn: nat, kn: nat)
    requires w == Joined(s, a, b, c, d, e, f, g, k) &&
             Named(s, a, b, c, d, e, f, g, k, sn, an, bn, cn, dn, en, fn, gn, kn)
    ensures EvenValue(Bimm(w)) == ValuesOf(sn, an, bn, cn, dn, en, fn, gn).b
  {
    BValue(w, s, a, b, c, d, e, f, g, k);
  }

  lemma JNamed(w: bv32, s: bv1, a: bv6, b: bv4, c: bv1, d: bv5, e: bv3, f: bv4, g: bv1, k: bv7,
                    sn: nat, an: nat, bn: nat, cn: nat, dn: nat, en: nat, fn: nat, gn: nat, kn: nat)
    requires w == Joined(s, a, b, c, d, e, f, g, k) &&
             Named(s, a, b, c, d, e, f, g, k, sn, an, bn, cn, dn, en, fn, gn, kn)
    ensures EvenValue(Jimm(w)) == ValuesOf(sn, an, bn, cn, dn, en, fn, gn).j
  {
    JValue(w, s, a, b, c, d, e, f, g, k);
  }

  lemma UNamed(w: bv32, s: bv1, a: bv6, b: bv4, c: bv1, d: bv5, e: bv3, f: bv4, g: bv1, k: bv7,
                    sn: nat, an: nat, bn: nat, cn: nat, dn: nat, en: nat, fn: nat, gn: nat, kn: nat)
    requires w == Joined(s, a, b, c, d, e, f, g, k) &&
             Named(s, a, b, c, d, e, f, g, k, sn, an, bn, cn, dn, en, fn, gn, kn)
    ensures Value32(Uimm(w)) == ValuesOf(sn, an, bn, cn, dn, en, fn, gn).u
  {
    UValue(w, s, a, b, c, d, e, f, g, k);
  }

  lemma ShamtNamed(w: bv32, s: bv1, a: bv6, b: bv4, c: bv1, d: bv5, e: bv3, f: bv4, g: bv1, k: bv7,
                    sn: nat, an: nat, bn: nat, cn: nat, dn: nat, en: nat, fn: nat, gn: nat, kn: nat)
    requires w == Joined(s, a, b, c, d, e, f, g, k) &&
             Named(s, a, b, c, d, e, f, g, k, sn, an, bn, cn, dn, en, fn, gn, kn)
    ensures Value32(Shamt(w)) == ValuesOf(sn, an, bn, cn, dn, en, fn, gn).shamt
  {
    ShamtValue(w, s, a, b, c, d, e, f, g, k);
    LowBit(a, an);
  }

  /** The immediates of a word by its fields. */
  lemma ValuesAre(w: bv32, s: bv1, a: bv6, b: bv4, c: bv1, d: bv5, e: bv3, f: bv4, g: bv1, k: bv7,
                  sn: nat, an: nat, bn: nat, cn: nat, dn: nat, en: nat, fn: nat, gn: nat, kn: nat)
    requires w == Joined(s, a, b, c, d, e, f, g, k) &&
             Named(s, a, b, c, d, e, f, g, k, sn, an, bn, cn, dn, en, fn, gn, kn)
    ensures ValuesIn(w, ValuesOf(sn, an, bn, cn, dn, en, fn, gn))
  {
    INamed(w, s, a, b, c, d, e, f, g, k, sn, an, bn, cn, dn, en, fn, gn, kn);
    SNamed(w, s, a, b, c, d, e, f, g, k, sn, an, bn, cn, dn, en, fn, gn, kn);
    BNamed(w, s, a, b, c, d, e, f, g, k, sn, an, bn, cn, dn, en, fn, gn, kn);
    JNamed(w, s, a, b, c, d, e, f, g, k, sn, an, bn, cn, dn, en, fn, gn, kn);
    UNamed(w, s, a, b, c, d, e, f, g, k, sn, an, bn, cn, dn, en, fn, gn, kn);
    ShamtNamed(w, s, a, b, c, d, e, f, g, k, sn, an, bn, cn, dn, en, fn, gn, kn);
  }

  lemma LowTwoBits(k: bv7, n: nat)
    requires n == k as nat
    ensures k & 3 == 3 <==> n % 4 == 3
  {
  }

  lemma LowTwoJoined(w: bv32, s: bv1, a: bv6, b: bv4, c: bv1, d: bv5, e: bv3, f: bv4, g: bv1, k: bv7)
    requires w == Joined(s, a, b, c, d, e, f, g, k)
    ensures w & 3 == 3 <==> k & 3 == 3
  {
  }

  lemma DecodedNormal(w: bv32)
    requires w & 3 == 3
    ensures InstrAt(w) == InstrOf(DecodeNormal(w), w, 4)
  {
  }

  lemma ExpandedSize(e: Expansion)
    ensures DecodeExpanded(e).size == 2
  {
  }

  lemma DecodedCompressed(w: bv32)
    requires w & 3 != 3
    ensures InstrAt(w).size == 2
  {
    ExpandedSize(Expand(w, DecodeC(w)));
  }

  lemma InstrFields(op: Opcode, w: bv32)
    ensures var i := InstrOf(op, w, 4);
            && i.op == op && i.rd == Field5(Rd(w)) && i.rs1 == Field5(Rs1(w)) && i.rs2 == Field5(Rs2(w))
            && i.imm == Immediate(op, w) && i.csr == (w >> 20) as nat && i.zimm == Field5(Rs1(w))
            && i.size == 4 && i.raw == w as nat
  {
  }

  /** The register numbers and the CSR address of a word by its fields. */
  lemma RegistersNamed(w: bv32, s: bv1, a: bv6, b: bv4, c: bv1, d: bv5, e: bv3, f: bv4, g: bv1, k: bv7,
                       sn: nat, an: nat, bn: nat, cn: nat, dn: nat, en: nat, fn: nat, gn: nat, kn: nat)
    requires w == Joined(s, a, b, c, d, e, f, g, k) &&
             Named(s, a, b, c, d, e, f, g, k, sn, an, bn, cn, dn, en, fn, gn, kn)
    ensures Field5(Rd(w)) == 2 * fn + gn && Field5(Rs1(w)) == dn && Field5(Rs2(w)) == 2 * bn + cn
    ensures (w >> 20) as nat == 0x800 * sn + 0x20 * an + 2 * bn + cn
  {
    RegisterFields(w, s, a, b, c, d, e, f, g, k);
    CsrValue(w, s, a, b, c, d, e, f, g, k);
  }

  /** A word is uncompressed exactly if its last two bits are ones. */
  lemma SizeNamed(w: bv32, s: bv1, a: bv6, b: bv4, c: bv1, d: bv5, e: bv3, f: bv4, g: bv1, k: bv7, kn: nat)
    requires w == Joined(s, a, b, c, d, e, f, g, k) && kn == k as nat
    ensures w & 3 == 3 <==> kn % 4 == 3
  {
    LowTwoBits(k, kn);
    LowTwoJoined(w, s, a, b, c, d, e, f, g, k);
  }

  /** The operands that a word's fields give. */
  datatype Operands = Operands(rd: nat, rs1: nat, rs2: nat, csr: nat, values: Values)

  predicate OperandsIn(i: Instr, x: Operands) {
    && i.rd == x.rd && i.rs1 == x.rs1 && i.rs2 == x.rs2 && i.csr == x.csr && i.zimm == x.rs1
    && i.imm == match i.op
                case LUI => x.values.u
                case AUIPC => x.values.u
                case JAL => x.values.j
                case Branch(_) => x.values.b
                case Store(_) => x.values.s
                case OpImm(alu) => if alu.SLL? || alu.SRL? || alu.SRA? then x.values.shamt else x.values.i
                case _ => x.values.i
  }

  /** The fields and immediates of the word, as the decoder cuts them out, are these numbers. */
  predicate WordHas(w: bv32, x: Operands) {
    && Field5(Rd(w)) == x.rd && Field5(Rs1(w)) == x.rs1 && Field5(Rs2(w)) == x.rs2 && (w >> 20) as nat == x.csr
    && ValuesIn(w, x.values)
  }

  /** The decoded instruction has the operands of its word, and the size its last two bits give. */
  lemma OperandsDecoded(w: bv32, x: Operands)
    requires WordHas(w, x)
    ensures InstrAt(w).size == if w & 3 == 3 then 4 else 2
    ensures w & 3 == 3 ==>
              InstrAt(w).op == DecodeNormal(w) && InstrAt(w).raw == w as nat && OperandsIn(InstrAt(w), x)
  {
    if w & 3 == 3 {
      DecodedNormal(w);
      InstrFields(DecodeNormal(w), w);
      Chosen(DecodeNormal(w), w, x.values);
    } else {
      DecodedCompressed(w);
    }
  }
}
