/** Concolic values, read concretely or under an input, behave as the numbers they stand for. */
module ConcolicSound {
  import opened Bits
  import opened Isa
  import opened Concolic
  import opened PlainIss
  import opened ConcolicOps
  import S = ConcolicIss
  import SP = SamePath

  ghost function Reads(how: Reading): SP.Reading<Value> {
    SP.Reading((v: Value) => Read(v, how).value, (v: Value) => Wide(v, 32), (v: Value) => Wide(v, 8))
  }

  lemma LitReads(n: nat, how: Reading)
    ensures Read(Reg(n), how).value == U32(n) && Wide(Reg(n), 32)
  {
    MkIs(n);
  }

  lemma NarrowStores(v: Value, how: Reading)
    requires Wide(v, 1)
    ensures Read(ZextV(v, 32), how).value == Read(v, how).value && Wide(ZextV(v, 32), 32)
  {
    Pow2Values();
    forall h: Reading ensures Read(ZextV(v, 32), h).width == 32 && Read(ZextV(v, 32), h).value == Read(v, h).value {
      ReadUnary(v, 0, 32, h);
    }
  }

  lemma BinWide(op: BinOp, a: Value, b: Value)
    requires Wide(a, 32) && Wide(b, 32)
    ensures Wide(Bin(op, a, b), if op in {Slt, Ult, Sge, Uge, Eq, Ne} then 1 else 32)
  {
    forall h: Reading { ReadBin(op, a, b, h); }
  }

  lemma Stores(v: Value, how: Reading)
    requires Wide(v, 32) || Wide(v, 1)
    ensures SP.Storable(SimOps(), Reads(how), v)
  {
    assert Read(v, Concretely).width == v.concrete.width;
    if Wide(v, 1) {
      NarrowStores(v, how);
    }
  }

  lemma AluReads(o: AluOp, a: Value, b: Value, how: Reading)
    requires Wide(a, 32) && Wide(b, 32)
    ensures Wide(SimAlu(o, a, b), if o in {SLT, SLTU} then 1 else 32)
    ensures Read(SimAlu(o, a, b), how).value == RefAlu(o, Read(a, how).value, Read(b, how).value)
  {
    BinWide(SolverOp(o), a, b);
    ReadBin(SolverOp(o), a, b, how);
    AluIs(o, Read(a, how), Read(b, how));
  }

  lemma ShamtReads(a: Value, how: Reading)
    requires Wide(a, 32)
    ensures Wide(SimShamt(a), 32) && Read(SimShamt(a), how).value == Read(a, how).value % 32
  {
    var low := Extract(a, 0, 5);
    forall h: Reading
      ensures Read(SimShamt(a), h).width == 32 && Read(SimShamt(a), h).value == Read(a, h).value % 32
    {
      ReadUnary(a, 0, 5, h);
      ReadUnary(low, 0, 32, h);
      Pow2Values();
      ModIs(Read(a, h).value, 32);
    }
  }

  lemma ExtractWide(a: Value, off: nat, len: nat)
    ensures Wide(Extract(a, off, len), len)
  {
    forall h: Reading { ReadUnary(a, off, len, h); }
  }

  lemma MulReads(o: MulOp, a: Value, b: Value, how: Reading)
    requires Wide(a, 32) && Wide(b, 32)
    ensures Wide(SimMul(o, a, b), 32)
    ensures Read(SimMul(o, a, b), how).value == RefMul(o, Read(a, how).value, Read(b, how).value)
  {
    var x := if o.MULHU? then ZextV(a, 64) else SextV(a, 64);
    var y := if o.MULHU? || o.MULHSU? then ZextV(b, 64) else SextV(b, 64);
    var off := if o.MUL? then 0 else 32;
    ReadUnary(a, 0, 64, how);
    ReadUnary(b, 0, 64, how);
    ReadBin(BinOp.Mul, x, y, how);
    ReadUnary(Bin(BinOp.Mul, x, y), off, 32, how);
    ExtractWide(Bin(BinOp.Mul, x, y), off, 32);
    MulIs(o, Read(a, how), Read(b, how));
  }

  lemma SelectWide(c: Value, a: Value, b: Value)
    requires Wide(a, 32) && Wide(b, 32)
    ensures Wide(SelectV(c, a, b), 32)
  {
    forall h: Reading { ReadSelect(c, a, b, h); }
  }

  lemma DivReadsBits(o: DivOp, a: Value, b: Value, how: Reading)
    requires Wide(a, 32) && Wide(b, 32)
    ensures Read(SimDiv(o, a, b), how) == DivBits(o, Read(a, how), Read(b, how))
  {
    var p, q := Bin(Eq, a, Reg(0x8000_0000)), Bin(Eq, b, Reg(0xFFFF_FFFF));
    ReadBin(Eq, a, Reg(0x8000_0000), how);
    ReadBin(Eq, b, Reg(0xFFFF_FFFF), how);
    ReadBin(And, p, q, how);
    match o
    case DIV =>
      ReadBin(Sdiv, a, b, how);
      ReadSelect(SimOverflows(a, b), a, Bin(Sdiv, a, b), how);
    case REM =>
      ReadBin(Srem, a, b, how);
      ReadSelect(SimOverflows(a, b), Reg(0), Bin(Srem, a, b), how);
    case DIVU => ReadBin(Udiv, a, b, how);
    case REMU => ReadBin(Urem, a, b, how);
  }

  lemma DivWide(o: DivOp, a: Value, b: Value)
    requires Wide(a, 32) && Wide(b, 32)
    ensures Wide(SimDiv(o, a, b), 32)
  {
    match o
    case DIV => BinWide(Sdiv, a, b); SelectWide(SimOverflows(a, b), a, Bin(Sdiv, a, b));
    case REM => BinWide(Srem, a, b); LitReads(0, Concretely); SelectWide(SimOverflows(a, b), Reg(0), Bin(Srem, a, b));
    case DIVU => BinWide(Udiv, a, b);
    case REMU => BinWide(Urem, a, b);
  }

  lemma SignedBranchReads(o: BranchOp, a: Value, b: Value, how: Reading)
    requires Wide(a, 32) && Wide(b, 32) && (o == BLT || o == BGE)
    ensures Read(SimBranch(o, a, b), how).value != 0 <==> RefBranch(o, Read(a, how).value, Read(b, how).value)
  {
    Pow2Values();
    SignedIs(Read(a, how).value);
    SignedIs(Read(b, how).value);
    ReadBin(if o == BLT then Slt else Sge, a, b, how);
  }

  lemma BranchReads(o: BranchOp, a: Value, b: Value, how: Reading)
    requires Wide(a, 32) && Wide(b, 32)
    ensures Read(SimBranch(o, a, b), how).value != 0 <==> RefBranch(o, Read(a, how).value, Read(b, how).value)
  {
    if o == BLT || o == BGE {
      SignedBranchReads(o, a, b, how);
    } else {
      assert Pow2(1) == 2;
      ReadBin(match o case BEQ => Eq case BNE => Ne case BLTU => Ult case _ => Uge, a, b, how);
    }
  }

  lemma ZeroReads(a: Value, how: Reading)
    requires Wide(a, 32)
    ensures Read(SimIsZero(a), how).value != 0 <==> Read(a, how).value == 0
  {
    Pow2Values();
    LitReads(0, how);
    ReadBin(Eq, a, Reg(0), how);
  }

  /** Signed or unsigned "at least", as the minimum and maximum AMOs test it. */
  lemma AtLeastReads(a: Value, b: Value, how: Reading)
    requires Wide(a, 32) && Wide(b, 32)
    ensures Read(Bin(Sge, a, b), how).value != 0 <==> S32(Read(a, how).value) >= S32(Read(b, how).value)
    ensures Read(Bin(Uge, a, b), how).value != 0 <==> Read(a, how).value >= Read(b, how).value
  {
    Pow2Values();
    SignedIs(Read(a, how).value);
    SignedIs(Read(b, how).value);
    ReadBin(Sge, a, b, how);
    ReadBin(Uge, a, b, how);
  }

  lemma AmoSelectReads(o: AmoOp, a: Value, b: Value, how: Reading)
    requires Wide(a, 32) && Wide(b, 32) && o in {AMOMIN, AMOMINU, AMOMAX, AMOMAXU}
    ensures Wide(SimAmo(o, a, b), 32)
    ensures Read(SimAmo(o, a, b), how).value == RefAmo(o, Read(a, how).value, Read(b, how).value)
  {
    Pow2Values();
    AtLeastReads(a, b, how);
    var c := Bin(if o in {AMOMIN, AMOMAX} then Sge else Uge, a, b);
    SelectWide(c, a, b);
    SelectWide(c, b, a);
    ReadSelect(c, a, b, how);
    ReadSelect(c, b, a, how);
    SameSign(Read(a, how).value, Read(b, how).value);
  }

  /** The signed reading of 32-bit numbers is injective. */
  lemma SameSign(x: nat, y: nat)
    requires x < WORDS && y < WORDS
    ensures S32(x) == S32(y) ==> x == y
  {
  }

  lemma AmoAluReads(o: AmoOp, k: AluOp, a: Value, b: Value, how: Reading)
    requires Wide(a, 32) && Wide(b, 32)
    requires (o.AMOADD? && k.ADD?) || (o.AMOXOR? && k.XOR?) || (o.AMOAND? && k.AND?) || (o.AMOOR? && k.OR?)
    ensures Wide(SimAmo(o, a, b), 32)
    ensures Read(SimAmo(o, a, b), how).value == RefAmo(o, Read(a, how).value, Read(b, how).value)
  {
    AluReads(k, a, b, how);
  }

  lemma AmoReads(o: AmoOp, a: Value, b: Value, how: Reading)
    requires Wide(a, 32) && Wide(b, 32)
    ensures Wide(SimAmo(o, a, b), 32)
    ensures Read(SimAmo(o, a, b), how).value == RefAmo(o, Read(a, how).value, Read(b, how).value)
  {
    match o
    case AMOSWAP =>
    case AMOADD => AmoAluReads(o, ADD, a, b, how);
    case AMOXOR => AmoAluReads(o, XOR, a, b, how);
    case AMOAND => AmoAluReads(o, AND, a, b, how);
    case AMOOR => AmoAluReads(o, OR, a, b, how);
    case _ => AmoSelectReads(o, a, b, how);
  }

  /** The number a run of bytes stands for, lowest byte first. */
  function Little(bs: seq<nat>): nat {
    if bs == [] then 0 else bs[0] + 0x100 * Little(bs[1..])
  }

  lemma ConcatReads(hi: Value, lo: Value, w: nat, how: Reading)
    requires Wide(hi, w) && Wide(lo, 8)
    ensures Wide(ConcatV(hi, lo), w + 8)
    ensures Read(ConcatV(hi, lo), how).value == Read(lo, how).value + 0x100 * Read(hi, how).value
  {
    forall h: Reading { ReadConcat(hi, lo, h); }
    JoinIs(Read(hi, how), Read(lo, how));
  }

  lemma {:induction false} JoinedReads(bs: seq<Value>, how: Reading)
    requires |bs| > 0 && forall i :: 0 <= i < |bs| ==> Wide(bs[i], 8)
    ensures Wide(Joined(bs), 8 * |bs|)
    ensures Read(Joined(bs), how).value == Little(SP.Nums(Reads(how), bs))
  {
    var ns := SP.Nums(Reads(how), bs);
    assert Little(ns) == ns[0] + 0x100 * Little(ns[1..]);
    if |bs| > 1 {
      var tail := bs[1..];
      assert ns[1..] == SP.Nums(Reads(how), tail);
      JoinedReads(tail, how);
      ConcatReads(Joined(tail), bs[0], 8 * |tail|, how);
    }
  }

  lemma JoinIs(hi: BV, lo: BV)
    requires lo.width == 8
    ensures Join(hi, lo).value == lo.value + 0x100 * hi.value
  {
    Pow2Values();
    Pow2Add(hi.width, 8);
  }

  lemma ExtendedIs(b: BV, w: nat)
    requires b.width == w && w in {8, 16, 32}
    ensures ZeroExtend(b, 32).value == b.value
    ensures SignExtend(b, 32).value == if b.value < Pow2(w - 1) then b.value else b.value + WORDS - Pow2(w)
  {
    Pow2Values();
    assert Pow2(8) == 2 * Pow2(7) && Pow2(16) == 2 * Pow2(15);
    var s := Signed(w, b.value);
    if s < 0 {
      ModIs(s, WORDS);
    }
  }

  lemma LittleIs(l: LoadOp, ns: seq<nat>)
    requires |ns| == LoadSize(l)
    ensures |ns| == 1 ==> Little(ns) == ns[0]
    ensures |ns| == 2 ==> Little(ns) == ns[0] + 0x100 * ns[1]
    ensures |ns| == 4 ==> Little(ns) == ns[0] + 0x100 * ns[1] + 0x1_0000 * ns[2] + 0x100_0000 * ns[3]
  {
    assert Little(ns) == ns[0] + 0x100 * Little(ns[1..]);
    if |ns| > 1 {
      assert Little(ns[1..]) == ns[1] + 0x100 * Little(ns[2..]);
    }
    if |ns| == 4 {
      assert Little(ns[2..]) == ns[2] + 0x100 * Little(ns[3..]);
      assert Little(ns[3..]) == ns[3] + 0x100 * Little(ns[4..]);
    }
  }

  lemma ExtendReads(v: Value, w: nat, how: Reading)
    requires Wide(v, w) && w in {8, 16, 32}
    ensures Wide(ZextV(v, 32), 32) && Wide(SextV(v, 32), 32)
    ensures Read(ZextV(v, 32), how).value == Read(v, how).value
    ensures var n := Read(v, how).value;
            Read(SextV(v, 32), how).value == if n < Pow2(w - 1) then n else n + WORDS - Pow2(w)
  {
    forall h: Reading { ReadUnary(v, 0, 32, h); }
    ExtendedIs(Read(v, how), w);
  }

  lemma HalfPowers()
    ensures Pow2(7) == 0x80 && Pow2(15) == 0x8000
  {
    Pow2Values();
  }

  /** The reference load extends the number its bytes stand for. */
  lemma RefLoadIs(l: LoadOp, ns: seq<nat>, w: nat)
    requires |ns| == LoadSize(l) && w == 8 * |ns|
    ensures RefLoad(l, ns) ==
            if l.LBU? || l.LHU? || Little(ns) < Pow2(w - 1) then Little(ns) else Little(ns) + WORDS - Pow2(w)
  {
    LittleIs(l, ns);
    HalfPowers();
    Pow2Values();
  }

  lemma LoadReads(l: LoadOp, bs: seq<Value>, how: Reading)
    requires |bs| == LoadSize(l) && forall i :: 0 <= i < |bs| ==> Wide(bs[i], 8)
    ensures Wide(SimLoad(l, bs), 32)
    ensures Read(SimLoad(l, bs), how).value == RefLoad(l, SP.Nums(Reads(how), bs))
  {
    JoinedReads(bs, how);
    RefLoadIs(l, SP.Nums(Reads(how), bs), 8 * |bs|);
    ExtendReads(Joined(bs), 8 * |bs|, how);
  }

  lemma ByteReads(v: Value, k: nat, how: Reading)
    requires Wide(v, 32) && k < 4
    ensures Wide(SimByte(v, k), 8)
    ensures Read(SimByte(v, k), how).value == RefByte(Read(v, how).value, k)
  {
    ExtractWide(v, 8 * k, 8);
    ReadUnary(v, 8 * k, 8, how);
    Pow2Values();
    ModIs(Read(v, how).value / Pow2(8 * k), 0x100);
  }

  lemma AluStores(o: AluOp, a: Value, b: Value, how: Reading)
    requires Wide(a, 32) && Wide(b, 32)
    ensures SP.Storable(SimOps(), Reads(how), SimAlu(o, a, b))
    ensures Reads(how).num(SimAlu(o, a, b)) == RefAlu(o, Read(a, how).value, Read(b, how).value)
  {
    AluReads(o, a, b, how);
    Stores(SimAlu(o, a, b), how);
  }

  lemma LiteralsAgree(how: Reading)
    ensures SP.LiteralsAgree(SimOps(), Reads(how))
  {
    var c, r := SimOps(), Reads(how);
    forall n: nat ensures r.word(c.lit(n)) && r.num(c.lit(n)) == U32(n) { LitReads(n, how); }
  }

  lemma WordsStore(how: Reading)
    ensures SP.WordsStore(SimOps(), Reads(how))
  {
    var c, r := SimOps(), Reads(how);
    forall v | r.word(v) ensures SP.Storable(c, r, v) { Stores(v, how); }
  }

  lemma ShamtsAgree(how: Reading)
    ensures SP.ShamtsAgree(SimOps(), Reads(how))
  {
    var c, r := SimOps(), Reads(how);
    forall a | r.word(a) ensures r.word(c.shamt(a)) && r.num(c.shamt(a)) == r.num(a) % 32 { ShamtReads(a, how); }
  }

  lemma RegistersAgree(how: Reading)
    ensures SP.RegistersAgree(SimOps(), Reads(how))
  {
    LiteralsAgree(how);
    WordsStore(how);
    ShamtsAgree(how);
  }

  lemma ArithmeticAgrees(how: Reading)
    ensures SP.ArithmeticAgrees(SimOps(), RefOps(), Reads(how))
  {
    var c, p, r := SimOps(), RefOps(), Reads(how);
    forall o, a, b | r.word(a) && r.word(b)
      ensures SP.Storable(c, r, c.alu(o, a, b)) && r.num(c.alu(o, a, b)) == p.alu(o, r.num(a), r.num(b))
    {
      AluStores(o, a, b, how);
    }
  }

  lemma MulDivAgree(how: Reading)
    ensures SP.MulDivAgrees(SimOps(), RefOps(), Reads(how))
  {
    var c, p, r := SimOps(), RefOps(), Reads(how);
    forall o, a, b | r.word(a) && r.word(b)
      ensures r.word(c.mul(o, a, b)) && r.num(c.mul(o, a, b)) == p.mul(o, r.num(a), r.num(b))
    {
      MulReads(o, a, b, how);
    }
    forall o, a, b | r.word(a) && r.word(b) ensures r.word(c.div(o, a, b)) { DivWide(o, a, b); }
    forall o, a, b | r.word(a) && r.word(b) && r.num(b) != 0
      ensures r.num(c.div(o, a, b)) == p.div(o, r.num(a), r.num(b))
    {
      DivReadsBits(o, a, b, how);
      DivIs(o, Read(a, how), Read(b, how));
    }
  }

  lemma TestsAgree(how: Reading)
    ensures SP.TestsAgree(SimOps(), RefOps(), Reads(how))
  {
    var c, p, r := SimOps(), RefOps(), Reads(how);
    forall a | r.word(a) ensures r.num(c.isZero(a)) != 0 <==> r.num(a) == 0 { ZeroReads(a, how); }
    forall o, a, b | r.word(a) && r.word(b)
      ensures r.num(c.branch(o, a, b)) != 0 <==> p.branch(o, r.num(a), r.num(b))
    {
      BranchReads(o, a, b, how);
    }
  }

  lemma MemoryAgree(how: Reading)
    ensures SP.MemoryAgrees(SimOps(), RefOps(), Reads(how))
  {
    var c, p, r := SimOps(), RefOps(), Reads(how);
    forall l, bs: seq<Value> | |bs| == LoadSize(l) && (forall b :: b in bs ==> r.byte(b))
      ensures r.word(c.load(l, bs)) && r.num(c.load(l, bs)) == p.load(l, SP.Nums(r, bs))
    {
      forall i | 0 <= i < |bs| ensures Wide(bs[i], 8) { assert r.byte(bs[i]); }
      LoadReads(l, bs, how);
    }
    forall v, k: nat | r.word(v) && k < 4
      ensures r.byte(c.byte(v, k)) && r.num(c.byte(v, k)) == p.byte(r.num(v), k)
    {
      ByteReads(v, k, how);
    }
    forall o, a, b | r.word(a) && r.word(b)
      ensures r.word(c.amo(o, a, b)) && r.num(c.amo(o, a, b)) == p.amo(o, r.num(a), r.num(b))
    {
      AmoReads(o, a, b, how);
    }
  }

  /** Every reading of concolic values meets the hypothesis of the path theorem. */
  lemma ConcolicAgrees(how: Reading)
    ensures SP.Agrees(SimOps(), RefOps(), Reads(how))
  {
    RegistersAgree(how);
    ArithmeticAgrees(how);
    MulDivAgree(how);
    TestsAgree(how);
    MemoryAgree(how);
  }
}
