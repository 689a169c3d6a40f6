/** A compressed instruction does to every machine state what the manual's direct semantics says. */
module CompressedEffect {
  import opened Isa
  import opened Decode
  import opened Compressed
  import CP = CompressedProof
  import opened Platform
  import S = ConcolicIss

  /** The instruction with the operands of a meaning; its encoding plays no part. */
  function Direct(m: Meaning<bv32>, raw: Addr): Instr {
    match m
    case Illegal => Fields.Instr(UNDEF, 0, 0, 0, 0, 0, 0, 2, raw)
    case RegReg(op, rd, rs1, rs2) => Fields.Instr(op, Field5(rd), Field5(rs1), Field5(rs2), 0, 0, 0, 2, raw)
    case RegImm(op, rd, rs1, imm) => Fields.Instr(op, Field5(rd), Field5(rs1), 0, Value32(imm), 0, 0, 2, raw)
    case Storing(op, base, src, imm) => Fields.Instr(op, 0, Field5(base), Field5(src), Value32(imm), 0, 0, 2, raw)
    case Branching(op, rs1, rs2, imm) => Fields.Instr(op, 0, Field5(rs1), Field5(rs2), EvenValue(imm), 0, 0, 2, raw)
    case Upper(rd, imm) => Fields.Instr(LUI, Field5(rd), 0, 0, Value32(imm), 0, 0, 2, raw)
    case Jump(rd, imm) => Fields.Instr(JAL, Field5(rd), 0, 0, EvenValue(imm), 0, 0, 2, raw)
    case Break => Fields.Instr(EBREAK, 0, 0, 0, 0, 0, 0, 2, raw)
  }

  /** The opcodes an expansion can return. */
  predicate Produced(op: Opcode) {
    || op.UNDEF? || op.Op? || op.OpImm? || op.Load? || op.JALR? || op.Store? || op.Branch? || op.LUI? || op.JAL? || op.EBREAK?
    || op.Unsupported?
  }

  lemma AssembleProduces(w: bv32, n: CP.Limits<bv32>, k: Call<bv32>)
    requires CP.Allowed(n, k)
    ensures Produced(Assemble(w, k).op) && (Assemble(w, k).op == UNDEF ==> Assemble(w, k).word == w)
  {
  }

  lemma ExpandProduces(w: bv32, c: COp)
    ensures Produced(Expand(w, c).op) && (Expand(w, c).op == UNDEF ==> Expand(w, c).word == w)
  {
    var p := Extracted(w);
    CP.ExtractedFits(w);
    CP.ChoiceAllowed(CP.Limits32(), p, Asked(p), c);
    AssembleProduces(w, CP.Limits32(), Choose(p, Asked(p), c));
  }

  /** The operands an opcode uses agree. */
  predicate SameOperands(i: Instr, j: Instr) {
    && i.op == j.op && i.size == j.size && Produced(i.op)
    && (i.op.UNDEF? ==> i.raw == j.raw)
    && (i.op.Op? ==> i.rd == j.rd && i.rs1 == j.rs1 && i.rs2 == j.rs2)
    && (i.op.OpImm? || i.op.Load? || i.op.JALR? ==> i.rd == j.rd && i.rs1 == j.rs1 && i.imm == j.imm)
    && (i.op.Store? || i.op.Branch? ==> i.rs1 == j.rs1 && i.rs2 == j.rs2 && i.imm == j.imm)
    && (i.op.LUI? || i.op.JAL? ==> i.rd == j.rd && i.imm == j.imm)
  }

  lemma SameEffect<C, V>(sys: Sys<C>, ops: S.Ops<V>, s: S.Sim<C, V>, i: Instr, j: Instr)
    requires S.Valid(s) && SameOperands(i, j)
    ensures S.Exec(sys, ops, s, i) == S.Exec(sys, ops, s, j)
  {
  }

  lemma ImmediateOperands(e: Expansion, raw: Addr, imm: bv32)
    requires (e.op.OpImm? || e.op.Load? || e.op.JALR?) && Meant(e) == RegImm(e.op, Rd(e.word), Rs1(e.word), imm)
    requires Immediate(e.op, e.word) == Value32(imm)
    ensures SameOperands(InstrOf(e.op, e.word, 2), Direct(Meant(e), raw))
  {
  }

  lemma MeantImmediates(e: Expansion, raw: Addr)
    requires e.op.OpImm? || e.op.Load? || e.op.JALR?
    ensures SameOperands(InstrOf(e.op, e.word, 2), Direct(Meant(e), raw))
  {
    if e.op.OpImm? && (e.op.imm == SLL || e.op.imm == SRL || e.op.imm == SRA) {
      ImmediateOperands(e, raw, Shamt(e.word));
    } else {
      ImmediateOperands(e, raw, Iimm(e.word));
    }
  }

  lemma MeantJumps(e: Expansion, raw: Addr)
    requires e.op.Store? || e.op.Branch? || e.op.LUI? || e.op.JAL?
    ensures SameOperands(InstrOf(e.op, e.word, 2), Direct(Meant(e), raw))
  {
  }

  lemma MeantOthers(e: Expansion, raw: Addr)
    requires e.op.UNDEF? || e.op.Op? || e.op.EBREAK?
    requires e.op.UNDEF? ==> raw == Value32(e.word)
    ensures SameOperands(InstrOf(e.op, e.word, 2), Direct(Meant(e), raw))
  {
  }

  lemma MeantUnsupported(e: Expansion, raw: Addr)
    requires e.op.Unsupported?
    ensures SameOperands(InstrOf(e.op, e.word, 2), Direct(Meant(e), raw))
  {
    var m := Meant(e);
    assert m.RegReg? || m.RegImm? || m.Storing?;
    assert m.op == e.op;
  }

  lemma MeantOperands(e: Expansion, raw: Addr)
    requires Produced(e.op) && (e.op.UNDEF? ==> raw == Value32(e.word))
    ensures SameOperands(InstrOf(e.op, e.word, 2), Direct(Meant(e), raw))
  {
    if e.op.OpImm? || e.op.Load? || e.op.JALR? {
      MeantImmediates(e, raw);
    } else if e.op.Store? || e.op.Branch? || e.op.LUI? || e.op.JAL? {
      MeantJumps(e, raw);
    } else if e.op.Unsupported? {
      MeantUnsupported(e, raw);
    } else {
      MeantOthers(e, raw);
    }
  }

  /** Outside the two deviating families, executing the expansion is executing the manual's meaning. */
  lemma ExpansionEffect<C, V>(sys: Sys<C>, ops: S.Ops<V>, s: S.Sim<C, V>, word: nat, w: bv32)
    requires S.Valid(s) && w == (word % WORDS) as bv32 && w & 3 != 3 && !Deviates(w)
    ensures S.Exec(sys, ops, s, DecodeFetched(word)) == S.Exec(sys, ops, s, Direct(Means(w), Value32(w)))
  {
    var e := Expand(w, DecodeC(w));
    CP.ExpansionFaithful(w);
    ExpandProduces(w, DecodeC(w));
    MeantOperands(e, Value32(w));
    SameEffect(sys, ops, s, DecodeFetched(word), Direct(Means(w), Value32(w)));
  }
}
