/** The value operations of the simulator on concolic values, and the arithmetic they stand for. */
module ConcolicOps {
  import opened Bits
  import opened Isa
  import opened Concolic
  import opened PlainIss
  import S = ConcolicIss

  // ----- what the simulator asks of the solver library -----

  function Reg(n: nat): Value {
    Literal(32, n)
  }

  function SimToReg(v: Value): Option<Value> {
    if v.concrete.width < 32 then Some(ZextV(v, 32))
    else if v.concrete.width == 32 then Some(v)
    else None
  }

  function SolverOp(o: AluOp): BinOp {
    match o
    case ADD => Add case SUB => Sub
    case SLL => Shl case SRL => Lshr case SRA => Ashr
    case SLT => Slt case SLTU => Ult
    case XOR => Xor case OR => Or case AND => And
  }

  function SimAlu(o: AluOp, a: Value, b: Value): Value {
    Bin(SolverOp(o), a, b)
  }

  function SimShamt(a: Value): Value {
    ZextV(Extract(a, 0, 5), 32)
  }

  function SimMul(o: MulOp, a: Value, b: Value): Value {
    var x := if o.MULHU? then ZextV(a, 64) else SextV(a, 64);
    var y := if o.MULHU? || o.MULHSU? then ZextV(b, 64) else SextV(b, 64);
    Extract(Bin(BinOp.Mul, x, y), if o.MUL? then 0 else 32, 32)
  }

  function SimOverflows(a: Value, b: Value): Value {
    Bin(And, Bin(Eq, a, Reg(0x8000_0000)), Bin(Eq, b, Reg(0xFFFF_FFFF)))
  }

  function SimDiv(o: DivOp, a: Value, b: Value): Value {
    match o
    case DIV => SelectV(SimOverflows(a, b), a, Bin(Sdiv, a, b))
    case DIVU => Bin(Udiv, a, b)
    case REM => SelectV(SimOverflows(a, b), Reg(0), Bin(Srem, a, b))
    case REMU => Bin(Urem, a, b)
  }

  function SimBranch(o: BranchOp, a: Value, b: Value): Value {
    match o
    case BEQ => Bin(Eq, a, b)
    case BNE => Bin(Ne, a, b)
    case BLT => Bin(Slt, a, b)
    case BGE => Bin(Sge, a, b)
    case BLTU => Bin(Ult, a, b)
    case BGEU => Bin(Uge, a, b)
  }

  function SimIsZero(a: Value): Value {
    Bin(Eq, a, Reg(0))
  }

  function SimAmo(o: AmoOp, a: Value, b: Value): Value {
    match o
    case AMOSWAP => b
    case AMOADD => SimAlu(ADD, a, b)
    case AMOXOR => SimAlu(XOR, a, b)
    case AMOAND => SimAlu(AND, a, b)
    case AMOOR => SimAlu(OR, a, b)
    case AMOMIN => SelectV(Bin(Sge, a, b), b, a)
    case AMOMINU => SelectV(Bin(Uge, a, b), b, a)
    case AMOMAX => SelectV(Bin(Sge, a, b), a, b)
    case AMOMAXU => SelectV(Bin(Uge, a, b), a, b)
  }

  /** The memory bytes of a load joined into one value, the lowest byte in the low bits. */
  function Joined(bs: seq<Value>): Value {
    if |bs| == 0 then Reg(0)
    else if |bs| == 1 then bs[0]
    else ConcatV(Joined(bs[1..]), bs[0])
  }

  function SimLoad(l: LoadOp, bs: seq<Value>): Value {
    if l.LBU? || l.LHU? then ZextV(Joined(bs), 32) else SextV(Joined(bs), 32)
  }

  function SimByte(v: Value, k: nat): Value {
    Extract(v, 8 * k, 8)
  }

  function SimOps(): S.Ops<Value> {
    S.Ops((v: Value) => v.concrete.value, (v: Value) => v.symbolic.Some?,
          Reg, SimToReg, SimAlu, SimShamt, SimMul, SimDiv, SimBranch, SimIsZero, SimAmo, SimLoad, SimByte)
  }

  // ----- what the instruction set manual says they compute -----

  lemma {:induction false} GrowsUnder(q: int, y: int)
    requires y > 0
    ensures q >= 0 ==> y * q >= q
    ensures q < 0 ==> y * q <= -y
    decreases y
  {
    if y > 1 {
      GrowsUnder(q, y - 1);
      assert y * q == (y - 1) * q + q;
    }
  }

  lemma QuotientFits(x: nat, y: nat)
    requires y > 0
    ensures 0 <= x / y <= x && x % y < y
  {
    var q, r := x / y, x % y;
    assert x == y * q + r;
    GrowsUnder(q, y);
  }

  function ShiftRight(x: nat, y: nat): (r: nat)
    ensures r <= x
  {
    QuotientFits(x, Pow2(y));
    x / Pow2(y)
  }

  function RefAlu(o: AluOp, x: nat, y: nat): nat {
    match o
    case ADD => U32(x + y)
    case SUB => U32(x - y)
    case SLL => U32(x * Pow2(y))
    case SRL => ShiftRight(x, y)
    case SRA => U32(S32(x) / Pow2(y))
    case SLT => if S32(x) < S32(y) then 1 else 0
    case SLTU => if x < y then 1 else 0
    case XOR => Bitwise(XorL, x, y)
    case OR => Bitwise(OrL, x, y)
    case AND => Bitwise(AndL, x, y)
  }

  /** Low word of the product, or its high word under the three readings of the operands' signs. */
  function RefMul(o: MulOp, x: nat, y: nat): nat {
    match o
    case MUL => U32(S32(x) * S32(y))
    case MULH => U32(S32(x) * S32(y) / WORDS)
    case MULHSU => U32(S32(x) * y / WORDS)
    case MULHU => U32(x * y / WORDS)
  }

  function RefDiv(o: DivOp, x: nat, y: nat): nat {
    match o
    case DIV => U32(TruncDiv(S32(x), S32(y)))
    case REM => U32(TruncRem(S32(x), S32(y)))
    case DIVU => if y == 0 then 0 else x / y
    case REMU => if y == 0 then 0 else x % y
  }

  function RefBranch(o: BranchOp, x: nat, y: nat): bool {
    match o
    case BEQ => x == y
    case BNE => x != y
    case BLT => S32(x) < S32(y)
    case BGE => !(S32(x) < S32(y))
    case BLTU => x < y
    case BGEU => !(x < y)
  }

  function RefAmo(o: AmoOp, x: nat, y: nat): nat {
    match o
    case AMOSWAP => y
    case AMOADD => U32(x + y)
    case AMOXOR => Bitwise(XorL, x, y)
    case AMOAND => Bitwise(AndL, x, y)
    case AMOOR => Bitwise(OrL, x, y)
    case AMOMIN => if S32(x) < S32(y) then x else y
    case AMOMINU => if x < y then x else y
    case AMOMAX => if S32(x) < S32(y) then y else x
    case AMOMAXU => if x < y then y else x
  }

  function RefLoad(l: LoadOp, bs: seq<nat>): nat {
    match l
    case LBU => if |bs| == 1 then bs[0] else 0
    case LB => if |bs| == 1 then (if bs[0] < 0x80 then bs[0] else bs[0] + 0xFFFF_FF00) else 0
    case LHU => if |bs| == 2 then bs[0] + 0x100 * bs[1] else 0
    case LH => if |bs| == 2 then
                 var h := bs[0] + 0x100 * bs[1]; if h < 0x8000 then h else h + 0xFFFF_0000
               else 0
    case LW => if |bs| == 4 then bs[0] + 0x100 * bs[1] + 0x1_0000 * bs[2] + 0x100_0000 * bs[3] else 0
  }

  function RefByte(v: nat, k: nat): nat {
    v / Pow2(8 * k) % 0x100
  }

  function RefOps(): Ops {
    Ops(RefAlu, RefMul, RefDiv, RefBranch, RefAmo, RefLoad, RefByte)
  }

  // ----- the first computes the second -----

  lemma MkIs(v: int)
    ensures Mk(32, v).value == U32(v)
  {
    Pow2Values();
    ModIs(v, WORDS);
  }

  lemma SignedIs(x: nat)
    requires x < WORDS
    ensures Signed(32, x) == S32(x)
  {
    Pow2Values();
  }

  predicate Wide32(x: BV, y: BV) {
    x.width == 32 && y.width == 32
  }

  lemma BitwiseIs(k: Logic, x: BV, y: BV)
    requires Wide32(x, y)
    ensures Mk(32, Bitwise(k, x.value, y.value)).value == Bitwise(k, x.value, y.value)
  {
    BitwiseFits(k, x.value, y.value, 32);
  }

  /** AND, OR and XOR work bit by bit, and so do the AMOs of these names. */
  lemma LogicBits(x: nat, y: nat, i: nat)
    ensures BitAt(RefAlu(AND, x, y), i) <==> BitAt(x, i) && BitAt(y, i)
    ensures BitAt(RefAlu(OR, x, y), i) <==> BitAt(x, i) || BitAt(y, i)
    ensures BitAt(RefAlu(XOR, x, y), i) <==> BitAt(x, i) != BitAt(y, i)
    ensures BitAt(RefAmo(AMOAND, x, y), i) <==> BitAt(x, i) && BitAt(y, i)
    ensures BitAt(RefAmo(AMOOR, x, y), i) <==> BitAt(x, i) || BitAt(y, i)
    ensures BitAt(RefAmo(AMOXOR, x, y), i) <==> BitAt(x, i) != BitAt(y, i)
  {
    BitwiseBits(AndL, x, y, i);
    BitwiseBits(OrL, x, y, i);
    BitwiseBits(XorL, x, y, i);
  }

  lemma ShiftIs(o: AluOp, x: BV, y: BV)
    requires Wide32(x, y) && o in {SLL, SRL, SRA}
    ensures Apply(SolverOp(o), x, y).value == RefAlu(o, x.value, y.value)
  {
    match o
    case SLL => MkIs(x.value * Pow2(y.value));
    case SRL =>
      assert x.value < WORDS by { Pow2Values(); }
      MkIs(ShiftRight(x.value, y.value));
    case SRA =>
      assert x.value < WORDS by { Pow2Values(); }
      SignedIs(x.value);
      MkIs(S32(x.value) / Pow2(y.value));
  }

  lemma CompareIs(o: AluOp, x: BV, y: BV)
    requires Wide32(x, y) && o in {SLT, SLTU}
    ensures Apply(SolverOp(o), x, y).value == RefAlu(o, x.value, y.value)
  {
    Pow2Values();
    SignedIs(x.value);
    SignedIs(y.value);
  }

  lemma AluIs(o: AluOp, x: BV, y: BV)
    requires Wide32(x, y)
    ensures Apply(SolverOp(o), x, y).value == RefAlu(o, x.value, y.value)
  {
    match o
    case ADD => MkIs(x.value + y.value);
    case SUB => MkIs(x.value - y.value);
    case SLL => ShiftIs(o, x, y);
    case SRL => ShiftIs(o, x, y);
    case SRA => ShiftIs(o, x, y);
    case SLT => CompareIs(o, x, y);
    case SLTU => CompareIs(o, x, y);
    case XOR => BitwiseIs(XorL, x, y);
    case OR => BitwiseIs(OrL, x, y);
    case AND => BitwiseIs(AndL, x, y);
  }

  const LONGS: nat := 0x1_0000_0000_0000_0000

  lemma AddMultiple(a: int, k: int, m: nat)
    requires m > 0
    ensures (a + m * k) % m == a % m
  {
    var q := a / m;
    assert a + m * k == m * (q + k) + a % m;
    DivModUnique(a + m * k, m, q + k, a % m);
  }

  /** The product of two 64-bit extensions is the true product modulo 2^64. */
  lemma ProductIs(x: int, y: int, i: int, j: int)
    ensures (x + LONGS * i) * (y + LONGS * j) % LONGS == x * y % LONGS
  {
    assert (x + LONGS * i) * (y + LONGS * j) == x * y + LONGS * (x * j + i * y + LONGS * i * j);
    AddMultiple(x * y, x * j + i * y + LONGS * i * j, LONGS);
  }

  /** The high half of a 64-bit residue is the floor quotient by 2^32, modulo 2^32; the low half is the residue. */
  lemma HalvesAre(p: int)
    ensures U32(p % LONGS / WORDS) == U32(p / WORDS)
    ensures U32(p % LONGS) == U32(p)
  {
    var q, v := p / LONGS, p % LONGS;
    assert p == LONGS * q + v;
    DivModUnique(p, WORDS, WORDS * q + v / WORDS, v % WORDS);
    AddMultiple(v / WORDS, q, WORDS);
    AddMultiple(v, WORDS * q, WORDS);
  }

  /** A 32-bit value extended to 64 bits, as an integer modulo 2^64. */
  lemma ExtendIs(x: BV)
    requires x.width == 32
    ensures ZeroExtend(x, 64).value == x.value + LONGS * 0
    ensures SignExtend(x, 64).value == S32(x.value) + LONGS * (if S32(x.value) < 0 then 1 else 0)
  {
    Pow2Values();
    SignedIs(x.value);
    if S32(x.value) < 0 {
      ModIs(S32(x.value), LONGS);
      DivModUnique(S32(x.value), LONGS, -1, S32(x.value) + LONGS);
    }
  }

  lemma ExtractIs(b: BV, off: nat)
    requires b.width == 64 && off in {0, 32}
    ensures ExtractBits(b, off, 32).value == U32(if off == 0 then b.value else b.value / WORDS)
  {
    Pow2Values();
    MkIs(if off == 0 then b.value else b.value / WORDS);
  }

  function MulBits(o: MulOp, x: BV, y: BV): BV {
    var a := if o.MULHU? then ZeroExtend(x, 64) else SignExtend(x, 64);
    var b := if o.MULHU? || o.MULHSU? then ZeroExtend(y, 64) else SignExtend(y, 64);
    ExtractBits(Apply(BinOp.Mul, a, b), if o.MUL? then 0 else 32, 32)
  }

  /** The operands as integers, by the signedness of the operation. */
  function Left(o: MulOp, x: BV): int { if o.MULHU? then x.value else S32(x.value) }
  function Right(o: MulOp, y: BV): int { if o.MULHU? || o.MULHSU? then y.value else S32(y.value) }

  lemma FullProduct(o: MulOp, x: BV, y: BV, a: BV, b: BV)
    requires Wide32(x, y) && a == (if o.MULHU? then ZeroExtend(x, 64) else SignExtend(x, 64))
    requires b == if o.MULHU? || o.MULHSU? then ZeroExtend(y, 64) else SignExtend(y, 64)
    ensures Apply(BinOp.Mul, a, b).width == 64 && Apply(BinOp.Mul, a, b).value == Left(o, x) * Right(o, y) % LONGS
  {
    Pow2Values();
    ExtendIs(x);
    ExtendIs(y);
    ProductIs(Left(o, x), Right(o, y), if Left(o, x) < 0 then 1 else 0, if Right(o, y) < 0 then 1 else 0);
    ModIs(a.value * b.value, LONGS);
  }

  /** MUL, MULH, MULHSU and MULHU are the low and high words of the true integer product. */
  lemma MulIs(o: MulOp, x: BV, y: BV)
    requires Wide32(x, y)
    ensures MulBits(o, x, y).value == RefMul(o, x.value, y.value)
  {
    var a := if o.MULHU? then ZeroExtend(x, 64) else SignExtend(x, 64);
    var b := if o.MULHU? || o.MULHSU? then ZeroExtend(y, 64) else SignExtend(y, 64);
    FullProduct(o, x, y, a, b);
    ExtractIs(Apply(BinOp.Mul, a, b), if o.MUL? then 0 else 32);
    HalvesAre(Left(o, x) * Right(o, y));
  }

  /** One-bit conjunction of two truth values. */
  lemma BothTrue(p: bool, q: bool)
    ensures Apply(And, Truth(p), Truth(q)).value != 0 <==> p && q
  {
    Pow2Values();
    assert Bitwise(AndL, 0, 0) == 0;
    assert Bitwise(AndL, 1, 1) == 1;
    assert Bitwise(AndL, 1, 0) == 0;
    assert Bitwise(AndL, 0, 1) == 0;
  }

  function DivBits(o: DivOp, x: BV, y: BV): BV {
    var over := Apply(And, Apply(Eq, x, Mk(32, 0x8000_0000)), Apply(Eq, y, Mk(32, 0xFFFF_FFFF)));
    match o
    case DIV => Select(over, x, Apply(Sdiv, x, y))
    case DIVU => Apply(Udiv, x, y)
    case REM => Select(over, Mk(32, 0), Apply(Srem, x, y))
    case REMU => Apply(Urem, x, y)
  }

  predicate Overflows(x: BV, y: BV) {
    x.value == 0x8000_0000 && y.value == 0xFFFF_FFFF
  }

  lemma OverflowIs(x: BV, y: BV)
    requires Wide32(x, y)
    ensures Apply(And, Apply(Eq, x, Mk(32, 0x8000_0000)), Apply(Eq, y, Mk(32, 0xFFFF_FFFF))).value != 0 <==>
            Overflows(x, y)
  {
    Pow2Values();
    BothTrue(x.value == 0x8000_0000, y.value == 0xFFFF_FFFF);
  }

  lemma OverflowResults()
    ensures U32(TruncDiv(-0x8000_0000, -1)) == 0x8000_0000 && U32(TruncRem(-0x8000_0000, -1)) == 0
  {
    assert TruncDiv(-0x8000_0000, -1) == 0x8000_0000;
  }

  lemma SignedQuotientIs(x: BV, y: BV)
    requires Wide32(x, y)
    ensures Apply(Sdiv, x, y).value == RefDiv(DIV, x.value, y.value)
  {
    assert x.value < WORDS && y.value < WORDS by { Pow2Values(); }
    SignedIs(x.value);
    SignedIs(y.value);
    MkIs(TruncDiv(S32(x.value), S32(y.value)));
  }

  lemma SignedRemainderIs(x: BV, y: BV)
    requires Wide32(x, y)
    ensures Apply(Srem, x, y).value == RefDiv(REM, x.value, y.value)
  {
    assert x.value < WORDS && y.value < WORDS by { Pow2Values(); }
    SignedIs(x.value);
    SignedIs(y.value);
    MkIs(TruncRem(S32(x.value), S32(y.value)));
  }

  lemma QuotientIs(x: BV, y: BV)
    requires Wide32(x, y) && y.value != 0
    ensures Apply(Udiv, x, y).value == RefDiv(DIVU, x.value, y.value)
  {
    assert x.value < Pow2(32);
    QuotientFits(x.value, y.value);
  }

  lemma RemainderIs(x: BV, y: BV)
    requires Wide32(x, y) && y.value != 0
    ensures Apply(Urem, x, y).value == RefDiv(REMU, x.value, y.value)
  {
    assert y.value < Pow2(32);
    QuotientFits(x.value, y.value);
  }

  lemma DivIs(o: DivOp, x: BV, y: BV)
    requires Wide32(x, y) && y.value != 0
    ensures DivBits(o, x, y).value == RefDiv(o, x.value, y.value)
  {
    match o
    case DIV =>
      OverflowIs(x, y);
      OverflowResults();
      SignedQuotientIs(x, y);
    case REM =>
      OverflowIs(x, y);
      OverflowResults();
      SignedRemainderIs(x, y);
      Pow2Values();
    case DIVU => QuotientIs(x, y);
    case REMU => RemainderIs(x, y);
  }

  lemma NegProduct(b: int, q: int)
    ensures b * -q == -(b * q) && -b * q == -(b * q) && -b * -q == b * q
  {
  }

  lemma SignCases(a: int, b: int, q: int, r: int, d: int)
    requires Abs(a) == Abs(b) * q + r && d == if (a >= 0) == (b > 0) then q else -q
    ensures a - b * d == if a >= 0 then r else -r
  {
    var n := Abs(b);
    NegProduct(n, q);
    if b > 0 {
      assert b * d == n * d;
    } else {
      assert b * d == -n * d;
    }
  }

  /** Over magnitudes, the remainder is that of the magnitudes with the sign of the dividend. */
  lemma TruncForm(a: int, b: int)
    requires b != 0
    ensures TruncRem(a, b) == if a >= 0 then Abs(a) % Abs(b) else -(Abs(a) % Abs(b))
  {
    SignCases(a, b, Abs(a) / Abs(b), Abs(a) % Abs(b), TruncDiv(a, b));
  }

  lemma TruncIs(a: int, b: int)
    requires b != 0
    ensures Abs(TruncRem(a, b)) < Abs(b)
    ensures TruncRem(a, b) != 0 ==> (TruncRem(a, b) < 0) == (a < 0)
  {
    TruncForm(a, b);
  }

  /** Replacing integers by their residues does not change a linear expression modulo 2^32. */
  lemma WrapLinear(y: int, q: int, r: int)
    ensures U32(U32(y) * U32(q) + U32(r)) == U32(y * q + r)
  {
    var i, j, k := y / WORDS, q / WORDS, r / WORDS;
    assert y == U32(y) + WORDS * i && q == U32(q) + WORDS * j && r == U32(r) + WORDS * k;
    var e := U32(y) * j + i * U32(q) + WORDS * i * j + k;
    assert (U32(y) + WORDS * i) * (U32(q) + WORDS * j) ==
           U32(y) * U32(q) + WORDS * (U32(y) * j + i * U32(q) + WORDS * i * j);
    assert y * q + r == U32(y) * U32(q) + U32(r) + WORDS * e;
    AddMultiple(U32(y) * U32(q) + U32(r), e, WORDS);
  }

  lemma SignedWraps(x: nat)
    requires x < WORDS
    ensures U32(S32(x)) == x
  {
  }

  lemma RemainderReads(r: int)
    requires -0x8000_0000 <= r < 0x8000_0000
    ensures S32(U32(r)) == r
  {
  }

  /** DIV with REM recompose the dividend for all operands, zero divisor and overflow included. */
  lemma SignedDivisionExact(x: nat, y: nat)
    requires x < WORDS && y < WORDS
    ensures var q, r := Divided(RefOps(), DIV, x, y), Divided(RefOps(), REM, x, y);
            && U32(y * q + r) == x
            && (y != 0 ==> Abs(S32(r)) < Abs(S32(y)) && (S32(r) != 0 ==> (S32(r) < 0) == (S32(x) < 0)))
  {
    if y != 0 {
      var q, r := TruncDiv(S32(x), S32(y)), TruncRem(S32(x), S32(y));
      TruncIs(S32(x), S32(y));
      RemainderReads(r);
      WrapLinear(S32(y), q, r);
      SignedWraps(x);
      SignedWraps(y);
      assert Divided(RefOps(), DIV, x, y) == U32(q) && Divided(RefOps(), REM, x, y) == U32(r);
    }
  }

  /** DIVU with REMU recompose the dividend for all operands, zero divisor included. */
  lemma UnsignedDivisionExact(x: nat, y: nat)
    requires x < WORDS && y < WORDS
    ensures var q, r := Divided(RefOps(), DIVU, x, y), Divided(RefOps(), REMU, x, y);
            U32(y * q + r) == x && (y != 0 ==> r < y)
  {
    if y != 0 {
      assert y * (x / y) + x % y == x;
      assert Divided(RefOps(), DIVU, x, y) == x / y && Divided(RefOps(), REMU, x, y) == x % y;
    }
  }
}
