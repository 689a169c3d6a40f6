/** Expansion of compressed instructions preserves their meaning. */
module CompressedProof {
  import opened Isa
  import opened Decode
  import opened Compressed

  // ----- fields and immediates agree with the manual's tables -----

  lemma FieldsAgree(w: bv32)
    ensures RdSmall(w) == Popular7(w) && Rs2Small(w) == Popular2(w) && Rd(w) == Full(w) && CRs2(w) == Five(w)
    ensures RdSmall(w) < 32 && Rs2Small(w) < 32 && Rd(w) < 32 && CRs2(w) < 32
  {
  }

  lemma Bit12Is(w: bv32)
    ensures w & 0x1000 == 0 ==> (w >> 12) & 1 == 0
    ensures w & 0x1000 != 0 ==> (w >> 12) & 1 == 1
  {
  }

  // Sign extension of bit 12 at the four places where it is the sign.

  lemma SmallSign(b: bv32)
    ensures b == 0 ==> Fill(b << 5, 0x20) == 0
    ensures b == 1 ==> Fill(b << 5, 0x20) == 0xFFFFFFE0
  {
  }

  lemma BranchSign(b: bv32)
    ensures b == 0 ==> Fill(b << 8, 0x100) == 0
    ensures b == 1 ==> Fill(b << 8, 0x100) == 0xFFFFFF00
  {
  }

  lemma FrameSign(b: bv32)
    ensures b == 0 ==> Fill(b << 9, 0x200) == 0
    ensures b == 1 ==> Fill(b << 9, 0x200) == 0xFFFFFE00
  {
  }

  lemma JumpSign(b: bv32)
    ensures b == 0 ==> Fill(b << 11, 0x800) == 0
    ensures b == 1 ==> Fill(b << 11, 0x800) == 0xFFFFF800
  {
  }

  lemma HighSign(b: bv32)
    ensures b == 0 ==> Fill(b << 17, 0x20000) == 0
    ensures b == 1 ==> Fill(b << 17, 0x20000) == 0xFFFE0000
  {
  }

  /** The sign part `hi` of an immediate agrees with the table once its value for either sign is known. */
  lemma SignAgrees(w: bv32, hi: bv32, ones: bv32)
    requires (w >> 12) & 1 == 0 ==> hi == 0
    requires (w >> 12) & 1 == 1 ==> hi == ones
    ensures hi == Above(w, ones)
  {
    Bit12Is(w);
  }

  lemma Glue(hi: bv32, lo: bv32, hi2: bv32, lo2: bv32)
    requires hi == hi2 && lo == lo2
    ensures hi | lo == hi2 | lo2
  {
  }

  lemma SmallLow(w: bv32)
    ensures (w >> 2) & 0x1F == Five(w)
  {
  }

  lemma BranchLowAgrees(w: bv32)
    ensures BranchLow(w) == BranchTable(w)
  {
  }

  lemma JumpLowAgrees(w: bv32)
    ensures JalLow(w) == JumpLow(w)
  {
  }

  lemma FrameLowAgrees(w: bv32)
    ensures Addi16spLow(w) == Frame16Table(w) && ((w >> 2) & 0x1F) << 12 == HighTable(w)
  {
  }

  lemma SmallImmAgrees(w: bv32)
    ensures Cimm(w) == SmallImm(w)
  {
    var b := (w >> 12) & 1;
    SmallSign(b);
    SignAgrees(w, Fill(b << 5, 0x20), 0xFFFFFFE0);
    SmallLow(w);
    Glue(Fill(b << 5, 0x20), (w >> 2) & 0x1F, Above(w, 0xFFFFFFE0), Five(w));
  }

  lemma OffsetsAgree(w: bv32)
    ensures LwImm(w) == WordOffset(w) && LdImm(w) == DoubleOffset(w)
  {
  }

  lemma NarrowAgrees(w: bv32)
    ensures Addi4spnImm(w) == Frame4(w)
  {
  }

  lemma Frame16Agrees(w: bv32)
    ensures Addi16spImm(w) == Frame16(w)
  {
    var b := (w >> 12) & 1;
    FrameSign(b);
    SignAgrees(w, Fill(b << 9, 0x200), 0xFFFFFE00);
    FrameLowAgrees(w);
    Glue(Fill(b << 9, 0x200), Addi16spLow(w), Above(w, 0xFFFFFE00), Frame16Table(w));
  }

  lemma HighAgrees(w: bv32)
    ensures LuiImm(w) == High(w)
  {
    var b := (w >> 12) & 1;
    HighSign(b);
    SignAgrees(w, Fill(b << 17, 0x20000), 0xFFFE0000);
    FrameLowAgrees(w);
    Glue(Fill(b << 17, 0x20000), ((w >> 2) & 0x1F) << 12, Above(w, 0xFFFE0000), HighTable(w));
  }

  lemma LoadSlotsAgree(w: bv32)
    ensures LwspImm(w) == LoadSlot(w) && LdspImm(w) == LoadSlot2(w)
  {
  }

  lemma StoreSlotsAgree(w: bv32)
    ensures SwspImm(w) == StoreSlot(w) && SdspImm(w) == StoreSlot2(w)
  {
  }

  lemma ShiftAgrees(w: bv32)
    ensures Cuimm(w) == At(w, 12, 5) | Five(w)
  {
  }

  lemma JumpAgrees(w: bv32)
    ensures JalImm(w) == JumpOffset(w)
  {
    var b := (w >> 12) & 1;
    JumpSign(b);
    SignAgrees(w, Fill(b << 11, 0x800), 0xFFFFF800);
    JumpLowAgrees(w);
    Glue(Fill(b << 11, 0x800), JalLow(w), Above(w, 0xFFFFF800), JumpLow(w));
  }

  lemma BranchAgrees(w: bv32)
    ensures BranchImm(w) == BranchOffset(w)
  {
    var b := (w >> 12) & 1;
    BranchSign(b);
    SignAgrees(w, Fill(b << 8, 0x100), 0xFFFFFF00);
    BranchLowAgrees(w);
    Glue(Fill(b << 8, 0x100), BranchLow(w), Above(w, 0xFFFFFF00), BranchTable(w));
  }

  // ----- immediates each format can hold, and the extractors as inverses of the factory -----

  predicate HoldsI(imm: bv32) { Fill(imm & 0xFFF, 0x800) == imm }
  predicate HoldsS(imm: bv32) { SplitS(imm & 0xFE0, imm & 0x1F) == imm }
  predicate HoldsB(imm: bv32) { SplitB(imm & 0x1000, imm & 0x800, imm & 0x7E0, imm & 0x1E) == imm }
  predicate HoldsJ(imm: bv32) { SplitJ(imm & 0x10_0000, imm & 0xF_F000, imm & 0x800, imm & 0x7FE) == imm }

  lemma MakeIInverse(rd: bv32, rs1: bv32, imm: bv32, f: bv32)
    requires rd < 32 && rs1 < 32 && f & 0xFFFF_8F80 == 0 && HoldsI(imm)
    ensures var w := MakeI(rd, rs1, imm, f); Rd(w) == rd && Rs1(w) == rs1 && Iimm(w) == imm && w & M3 == f
  {
  }

  predicate PiecesS(w: bv32, imm: bv32) {
    (w & 0xFE00_0000) >> 20 == imm & 0xFE0 && (w & 0xF80) >> 7 == imm & 0x1F
  }

  lemma MakeSPieces(rs1: bv32, rs2: bv32, imm: bv32, f: bv32)
    requires rs1 < 32 && rs2 < 32 && f & 0xFFFF_8F80 == 0
    ensures var w := MakeS(rs1, rs2, imm, f); PiecesS(w, imm) && Rs1(w) == rs1 && Rs2(w) == rs2 && w & M3 == f
  {
  }

  lemma ReadS(w: bv32, imm: bv32)
    requires HoldsS(imm) && PiecesS(w, imm)
    ensures Simm(w) == imm
  {
  }

  lemma MakeSInverse(rs1: bv32, rs2: bv32, imm: bv32, f: bv32)
    requires rs1 < 32 && rs2 < 32 && f & 0xFFFF_8F80 == 0 && HoldsS(imm)
    ensures var w := MakeS(rs1, rs2, imm, f); Rs1(w) == rs1 && Rs2(w) == rs2 && Simm(w) == imm && w & M3 == f
  {
    MakeSPieces(rs1, rs2, imm, f);
    ReadS(MakeS(rs1, rs2, imm, f), imm);
  }

  predicate PiecesB(w: bv32, imm: bv32) {
    && (w & 0x8000_0000) >> 19 == imm & 0x1000 && (w & 0x80) << 4 == imm & 0x800
    && (w & 0x7E00_0000) >> 20 == imm & 0x7E0 && (w & 0xF00) >> 7 == imm & 0x1E
  }

  lemma MakeBPieces(rs1: bv32, rs2: bv32, imm: bv32, f: bv32)
    requires rs1 < 32 && rs2 < 32 && f & 0xFFFF_8F80 == 0
    ensures var w := MakeB(rs1, rs2, imm, f); PiecesB(w, imm) && Rs1(w) == rs1 && Rs2(w) == rs2 && w & M3 == f
  {
  }

  lemma ReadB(w: bv32, imm: bv32)
    requires HoldsB(imm) && PiecesB(w, imm)
    ensures Bimm(w) == imm
  {
  }

  lemma MakeBInverse(rs1: bv32, rs2: bv32, imm: bv32, f: bv32)
    requires rs1 < 32 && rs2 < 32 && f & 0xFFFF_8F80 == 0 && HoldsB(imm)
    ensures var w := MakeB(rs1, rs2, imm, f); Rs1(w) == rs1 && Rs2(w) == rs2 && Bimm(w) == imm && w & M3 == f
  {
    MakeBPieces(rs1, rs2, imm, f);
    ReadB(MakeB(rs1, rs2, imm, f), imm);
  }

  lemma MakeJInverse(rd: bv32, imm: bv32)
    requires rd < 32 && HoldsJ(imm)
    ensures var w := MakeJ(rd, imm); Rd(w) == rd && Jimm(w) == imm && w & 0x7F == 0x6F
  {
  }

  lemma MakeUInverse(rd: bv32, imm: bv32)
    requires rd < 32 && imm & 0xFFF == 0
    ensures var w := MakeU(rd, imm); Rd(w) == rd && Uimm(w) == imm && w & 0x7F == 0x37
  {
  }

  lemma MakeRInverse(rd: bv32, rs1: bv32, rs2: bv32, f: bv32)
    requires rd < 32 && rs1 < 32 && rs2 < 32 && f & 0x01FF_8F80 == 0
    ensures var w := MakeR(rd, rs1, rs2, f); Rd(w) == rd && Rs1(w) == rs1 && Rs2(w) == rs2 && w & M7 == f
  {
  }

  lemma MakeShiftInverse(rd: bv32, rs1: bv32, sh: bv32, f: bv32)
    requires rd < 32 && rs1 < 32 && sh < 32 && f & 0x03FF_8F80 == 0
    ensures var w := MakeShift(rd, rs1, sh, f); Rd(w) == rd && Rs1(w) == rs1 && Shamt(w) == sh && w & M7 == f
  {
  }

  // ----- the compressed immediates fit their formats -----

  lemma FieldsFit(w: bv32)
    ensures RdSmall(w) < 32 && Rs2Small(w) < 32 && Rd(w) < 32 && CRs2(w) < 32
  {
  }

  lemma SmallHolds(imm: bv32)
    requires imm & 0xFFFF_F800 == 0
    ensures HoldsI(imm) && HoldsS(imm)
  {
  }

  lemma UnsignedFit(w: bv32)
    ensures LwImm(w) & 0xFFFF_F800 == 0 && LdImm(w) & 0xFFFF_F800 == 0 && Addi4spnImm(w) & 0xFFFF_F800 == 0
    ensures LwspImm(w) & 0xFFFF_F800 == 0 && SwspImm(w) & 0xFFFF_F800 == 0
    ensures LdspImm(w) & 0xFFFF_F800 == 0 && SdspImm(w) & 0xFFFF_F800 == 0
  {
  }

  lemma SignedFit(w: bv32)
    ensures HoldsI(Cimm(w)) && HoldsI(Addi16spImm(w)) && LuiImm(w) & 0xFFF == 0
  {
  }

  lemma FillHoldsJ(hi: bv32, lo: bv32)
    requires (hi == 0 || hi == 0xFFFFF800) && lo & 0xFFFFF801 == 0
    ensures HoldsJ(hi | lo)
  {
  }

  lemma JumpFits(w: bv32)
    ensures HoldsJ(JalImm(w))
  {
    var b := (w >> 12) & 1;
    Bit12Is(w);
    JumpSign(b);
    JalLowFits(w);
    FillHoldsJ(Fill(b << 11, 0x800), JalLow(w));
  }

  lemma JalLowFits(w: bv32)
    ensures JalLow(w) & 0xFFFFF801 == 0
  {
  }

  lemma BranchFits(w: bv32)
    ensures HoldsB(BranchImm(w))
  {
  }

  // ----- what the decoder makes of the factory's words -----

  lemma DecodesI(w: bv32)
    ensures w & M3 == 0x13 ==> DecodeNormal(w) == OpImm(ADD)
    ensures w & M3 == 0x7013 ==> DecodeNormal(w) == OpImm(AND)
    ensures w & M3 == 0x2003 ==> DecodeNormal(w) == Load(LW)
    ensures w & M3 == 0x2007 ==> DecodeNormal(w) == Unsupported(FLW)
    ensures w & M3 == 0x3007 ==> DecodeNormal(w) == Unsupported(FLD)
    ensures w & M3 == 0x67 ==> DecodeNormal(w) == JALR
  {
  }

  lemma DecodesS(w: bv32)
    ensures w & M3 == 0x2023 ==> DecodeNormal(w) == Store(SW)
    ensures w & M3 == 0x2027 ==> DecodeNormal(w) == Unsupported(FSW)
    ensures w & M3 == 0x3027 ==> DecodeNormal(w) == Unsupported(FSD)
    ensures w & M3 == 0x63 ==> DecodeNormal(w) == Branch(BEQ)
    ensures w & M3 == 0x1063 ==> DecodeNormal(w) == Branch(BNE)
  {
  }

  lemma DecodesR(w: bv32)
    ensures w & M7 == 0x33 ==> DecodeNormal(w) == Op(ADD)
    ensures w & M7 == 0x4000_0033 ==> DecodeNormal(w) == Op(SUB)
    ensures w & M7 == 0x4033 ==> DecodeNormal(w) == Op(XOR)
    ensures w & M7 == 0x6033 ==> DecodeNormal(w) == Op(OR)
    ensures w & M7 == 0x7033 ==> DecodeNormal(w) == Op(AND)
    ensures w & M7 == 0x3B ==> DecodeNormal(w) == Unsupported(ADDW)
    ensures w & M7 == 0x4000_003B ==> DecodeNormal(w) == Unsupported(SUBW)
  {
  }

  lemma DecodesShift(w: bv32)
    ensures w & M7 == 0x1013 ==> DecodeNormal(w) == OpImm(SLL)
    ensures w & M7 == 0x5013 ==> DecodeNormal(w) == OpImm(SRL)
    ensures w & M7 == 0x4000_5013 ==> DecodeNormal(w) == OpImm(SRA)
  {
  }

  lemma DecodesOther(w: bv32)
    ensures w & 0x7F == 0x37 ==> DecodeNormal(w) == LUI
    ensures w & 0x7F == 0x6F ==> DecodeNormal(w) == JAL
  {
  }

  lemma DecodesBreak()
    ensures DecodeNormal(0x0010_0073) == EBREAK
  {
  }

  // ----- each call of the factory keeps its operands and decodes to its opcode -----

  /** The word decodes to the opcode returned with it, and means `m`. */
  predicate Faithful(e: Expansion, m: Meaning<bv32>) {
    DecodeNormal(e.word) == e.op && Meant(e) == m
  }

  // The mnemonics of each format.

  predicate IsI(op: Opcode) {
    op == OpImm(ADD) || op == OpImm(AND) || op == Load(LW) || op == Unsupported(FLW) || op == Unsupported(FLD) || op == JALR
  }

  predicate IsS(op: Opcode) { op == Store(SW) || op == Unsupported(FSW) || op == Unsupported(FSD) }
  predicate IsB(op: Opcode) { op == Branch(BEQ) || op == Branch(BNE) }
  predicate IsShift(op: Opcode) { op == OpImm(SLL) || op == OpImm(SRL) || op == OpImm(SRA) }

  predicate IsR(op: Opcode) {
    || op == Op(ADD) || op == Op(SUB) || op == Op(XOR) || op == Op(OR) || op == Op(AND)
    || op == Unsupported(ADDW) || op == Unsupported(SUBW)
  }

  // A word with the constant bits and the operands of a format is faithful; the word is a
  // parameter, so that the factory's shifts stay out of these proofs.

  lemma WordI(e: Expansion, rd: bv32, rs1: bv32, imm: bv32)
    requires IsI(e.op) && e.word & M3 == Code(e.op) && Rd(e.word) == rd && Rs1(e.word) == rs1 && Iimm(e.word) == imm
    ensures Faithful(e, RegImm(e.op, rd, rs1, imm))
  {
    DecodesI(e.word);
  }

  lemma WordS(e: Expansion, rs1: bv32, rs2: bv32, imm: bv32)
    requires IsS(e.op) && e.word & M3 == Code(e.op) && Rs1(e.word) == rs1 && Rs2(e.word) == rs2 && Simm(e.word) == imm
    ensures Faithful(e, Storing(e.op, rs1, rs2, imm))
  {
    DecodesS(e.word);
  }

  lemma WordB(e: Expansion, rs1: bv32, rs2: bv32, imm: bv32)
    requires IsB(e.op) && e.word & M3 == Code(e.op) && Rs1(e.word) == rs1 && Rs2(e.word) == rs2 && Bimm(e.word) == imm
    ensures Faithful(e, Branching(e.op, rs1, rs2, imm))
  {
    DecodesS(e.word);
  }

  lemma WordR(e: Expansion, rd: bv32, rs1: bv32, rs2: bv32)
    requires IsR(e.op) && e.word & M7 == Code(e.op) && Rd(e.word) == rd && Rs1(e.word) == rs1 && Rs2(e.word) == rs2
    ensures Faithful(e, RegReg(e.op, rd, rs1, rs2))
  {
    DecodesR(e.word);
  }

  lemma WordShift(e: Expansion, rd: bv32, rs1: bv32, sh: bv32)
    requires IsShift(e.op) && e.word & M7 == Code(e.op) && Rd(e.word) == rd && Rs1(e.word) == rs1 && Shamt(e.word) == sh
    ensures Faithful(e, RegImm(e.op, rd, rs1, sh))
  {
    DecodesShift(e.word);
  }

  lemma CodeFits(op: Opcode)
    requires IsI(op) || IsS(op) || IsB(op)
    ensures Code(op) & 0xFFFF_8F80 == 0
  {
  }

  lemma CodeFitsR(op: Opcode)
    requires IsR(op)
    ensures Code(op) & 0x01FF_8F80 == 0
  {
  }

  lemma CodeFitsShift(op: Opcode)
    requires IsShift(op)
    ensures Code(op) & 0x03FF_8F80 == 0
  {
  }

  lemma FormatI(op: Opcode, rd: bv32, rs1: bv32, imm: bv32)
    requires IsI(op) && rd < 32 && rs1 < 32 && HoldsI(imm)
    ensures Faithful(Expansion(op, MakeI(rd, rs1, imm, Code(op))), RegImm(op, rd, rs1, imm))
  {
    CodeFits(op);
    MakeIInverse(rd, rs1, imm, Code(op));
    WordI(Expansion(op, MakeI(rd, rs1, imm, Code(op))), rd, rs1, imm);
  }

  lemma FormatS(op: Opcode, rs1: bv32, rs2: bv32, imm: bv32)
    requires IsS(op) && rs1 < 32 && rs2 < 32 && HoldsS(imm)
    ensures Faithful(Expansion(op, MakeS(rs1, rs2, imm, Code(op))), Storing(op, rs1, rs2, imm))
  {
    CodeFits(op);
    MakeSInverse(rs1, rs2, imm, Code(op));
    WordS(Expansion(op, MakeS(rs1, rs2, imm, Code(op))), rs1, rs2, imm);
  }

  lemma FormatB(op: Opcode, rs1: bv32, rs2: bv32, imm: bv32)
    requires IsB(op) && rs1 < 32 && rs2 < 32 && HoldsB(imm)
    ensures Faithful(Expansion(op, MakeB(rs1, rs2, imm, Code(op))), Branching(op, rs1, rs2, imm))
  {
    CodeFits(op);
    MakeBInverse(rs1, rs2, imm, Code(op));
    WordB(Expansion(op, MakeB(rs1, rs2, imm, Code(op))), rs1, rs2, imm);
  }

  lemma FormatR(op: Opcode, rd: bv32, rs1: bv32, rs2: bv32)
    requires IsR(op) && rd < 32 && rs1 < 32 && rs2 < 32
    ensures Faithful(Expansion(op, MakeR(rd, rs1, rs2, Code(op))), RegReg(op, rd, rs1, rs2))
  {
    CodeFitsR(op);
    MakeRInverse(rd, rs1, rs2, Code(op));
    WordR(Expansion(op, MakeR(rd, rs1, rs2, Code(op))), rd, rs1, rs2);
  }

  lemma FormatShift(op: Opcode, rd: bv32, rs1: bv32, sh: bv32)
    requires IsShift(op) && rd < 32 && rs1 < 32 && sh < 32
    ensures Faithful(Expansion(op, MakeShift(rd, rs1, sh, Code(op))), RegImm(op, rd, rs1, sh))
  {
    CodeFitsShift(op);
    MakeShiftInverse(rd, rs1, sh, Code(op));
    WordShift(Expansion(op, MakeShift(rd, rs1, sh, Code(op))), rd, rs1, sh);
  }

  lemma FormatU(rd: bv32, imm: bv32)
    requires rd < 32 && imm & 0xFFF == 0
    ensures Faithful(Expansion(LUI, MakeU(rd, imm)), Upper(rd, imm))
  {
    MakeUInverse(rd, imm);
    DecodesOther(MakeU(rd, imm));
  }

  lemma FormatJ(rd: bv32, imm: bv32)
    requires rd < 32 && HoldsJ(imm)
    ensures Faithful(Expansion(JAL, MakeJ(rd, imm)), Jump(rd, imm))
  {
    MakeJInverse(rd, imm);
    DecodesOther(MakeJ(rd, imm));
  }

  lemma FormatBreak()
    ensures Faithful(Expansion(EBREAK, 0x0010_0073), Break)
  {
    DecodesBreak();
  }

  function MeaningOf<V>(k: Call<V>): Meaning<V> {
    match k
    case NoCall => Illegal
    case CallR(op, rd, rs1, rs2) => RegReg(op, rd, rs1, rs2)
    case CallI(op, rd, rs1, imm) => RegImm(op, rd, rs1, imm)
    case CallShift(op, rd, rs1, sh) => RegImm(op, rd, rs1, sh)
    case CallS(op, rs1, rs2, imm) => Storing(op, rs1, rs2, imm)
    case CallB(op, rs1, rs2, imm) => Branching(op, rs1, rs2, imm)
    case CallU(rd, imm) => Upper(rd, imm)
    case CallJ(rd, imm) => Jump(rd, imm)
    case CallBreak => Break
  }

  /** Which values a register field and the immediate of each format can hold. */
  datatype Limits<!V> = Limits(reg: V -> bool, i: V -> bool, s: V -> bool, b: V -> bool, j: V -> bool, u: V -> bool)

  function Limits32(): Limits<bv32> {
    Limits((x: bv32) => x < 32, HoldsI, HoldsS, HoldsB, HoldsJ, (x: bv32) => x & 0xFFF == 0)
  }

  /** The call uses a mnemonic of its format, and its operands fit. */
  predicate Allowed<V>(n: Limits<V>, k: Call<V>) {
    match k
    case NoCall => true
    case CallR(op, rd, rs1, rs2) => IsR(op) && n.reg(rd) && n.reg(rs1) && n.reg(rs2)
    case CallI(op, rd, rs1, imm) => IsI(op) && n.reg(rd) && n.reg(rs1) && n.i(imm)
    case CallShift(op, rd, rs1, sh) => IsShift(op) && n.reg(rd) && n.reg(rs1) && n.reg(sh)
    case CallS(op, rs1, rs2, imm) => IsS(op) && n.reg(rs1) && n.reg(rs2) && n.s(imm)
    case CallB(op, rs1, rs2, imm) => IsB(op) && n.reg(rs1) && n.reg(rs2) && n.b(imm)
    case CallU(rd, imm) => n.reg(rd) && n.u(imm)
    case CallJ(rd, imm) => n.reg(rd) && n.j(imm)
    case CallBreak => true
  }

  lemma FactoryOthers(w: bv32, k: Call<bv32>)
    requires Allowed(Limits32(), k) && (k.CallB? || k.CallU? || k.CallJ? || k.CallBreak?)
    ensures Faithful(Assemble(w, k), MeaningOf(k))
  {
    match k
    case CallB(op, rs1, rs2, imm) => FormatB(op, rs1, rs2, imm);
    case CallU(rd, imm) => FormatU(rd, imm);
    case CallJ(rd, imm) => FormatJ(rd, imm);
    case CallBreak => FormatBreak();
  }

  /** Every call the factory accepts yields a faithful word. */
  lemma FactoryFaithful(w: bv32, k: Call<bv32>)
    requires Allowed(Limits32(), k) && k != NoCall
    ensures Faithful(Assemble(w, k), MeaningOf(k))
  {
    match k
    case CallR(op, rd, rs1, rs2) => FormatR(op, rd, rs1, rs2);
    case CallI(op, rd, rs1, imm) => FormatI(op, rd, rs1, imm);
    case CallShift(op, rd, rs1, sh) => FormatShift(op, rd, rs1, sh);
    case CallS(op, rs1, rs2, imm) => FormatS(op, rs1, rs2, imm);
    case _ => FactoryOthers(w, k);
  }

  // ----- the expansion only makes calls the factory accepts -----

  predicate RegistersFit<V>(n: Limits<V>, p: Parts<V>) {
    n.reg(p.x0) && n.reg(p.x1) && n.reg(p.x2) && n.reg(p.d) && n.reg(p.s) && n.reg(p.r) && n.reg(p.q)
  }

  predicate ImmediatesFit<V>(n: Limits<V>, p: Parts<V>) {
    && n.i(p.none) && n.i(p.lw) && n.i(p.ld) && n.i(p.frame4) && n.i(p.lwsp) && n.i(p.ldsp) && n.i(p.small) && n.i(p.frame16)
    && n.s(p.lw) && n.s(p.ld) && n.s(p.swsp) && n.s(p.sdsp)
    && n.j(p.jump) && n.b(p.branch) && n.u(p.high)
  }

  predicate Memory(c: COp) {
    || c.C_LW? || c.C_FLW? || c.C_FLD? || c.C_SW? || c.C_FSW? || c.C_FSD?
    || c.C_LWSP? || c.C_FLWSP? || c.C_FLDSP? || c.C_SWSP? || c.C_FSWSP? || c.C_FSDSP?
  }

  lemma MemoryAllowed<V>(n: Limits<V>, p: Parts<V>, t: Tests, c: COp)
    requires RegistersFit(n, p) && ImmediatesFit(n, p) && Memory(c)
    ensures Allowed(n, Choose(p, t, c))
  {
  }

  lemma ComputeAllowed<V>(n: Limits<V>, p: Parts<V>, t: Tests, c: COp)
    requires RegistersFit(n, p) && ImmediatesFit(n, p) && (!t.bigShift ==> n.reg(p.shift)) && !Memory(c)
    ensures Allowed(n, Choose(p, t, c))
  {
    match c
    case C_ADD => case C_MV => case C_AND => case C_OR => case C_XOR => case C_SUB => case C_ADDW => case C_SUBW => case _ =>
  }

  lemma ChoiceAllowed<V>(n: Limits<V>, p: Parts<V>, t: Tests, c: COp)
    requires RegistersFit(n, p) && ImmediatesFit(n, p) && (!t.bigShift ==> n.reg(p.shift))
    ensures Allowed(n, Choose(p, t, c))
  {
    if Memory(c) {
      MemoryAllowed(n, p, t, c);
    } else {
      ComputeAllowed(n, p, t, c);
    }
  }

  lemma ExtractedFits(w: bv32)
    ensures RegistersFit(Limits32(), Extracted(w)) && ImmediatesFit(Limits32(), Extracted(w))
    ensures !Asked(Extracted(w)).bigShift ==> Limits32().reg(Extracted(w).shift)
  {
    FieldsFit(w);
    UnsignedFit(w);
    SignedFit(w);
    JumpFits(w);
    BranchFits(w);
    SmallHolds(0);
    SmallHolds(LwImm(w));
    SmallHolds(LdImm(w));
    SmallHolds(Addi4spnImm(w));
    SmallHolds(LwspImm(w));
    SmallHolds(LdspImm(w));
    SmallHolds(SwspImm(w));
    SmallHolds(SdspImm(w));
  }

  /** The expansion keeps the operands it was given, and is rejected exactly where no call is made. */
  lemma ExpansionKeeps(w: bv32, c: COp)
    ensures var k := Choose(Extracted(w), Asked(Extracted(w)), c);
            if k == NoCall then Expand(w, c) == Expansion(UNDEF, w) else Faithful(Expand(w, c), MeaningOf(k))
  {
    var k := Choose(Extracted(w), Asked(Extracted(w)), c);
    ExtractedFits(w);
    ChoiceAllowed(Limits32(), Extracted(w), Asked(Extracted(w)), c);
    if k != NoCall {
      FactoryFaithful(w, k);
    }
  }

  // ----- the decoder picks the opcode the manual's tables give -----

  lemma TablesAgree(w: bv32)
    ensures Extracted(w) == Tabled(w)
  {
    FieldsAgree(w);
    SmallImmAgrees(w);
    ShiftAgrees(w);
    OffsetsAgree(w);
    JumpAgrees(w);
    BranchAgrees(w);
    NarrowAgrees(w);
    Frame16Agrees(w);
    HighAgrees(w);
    LoadSlotsAgree(w);
    StoreSlotsAgree(w);
  }

  lemma AgreesQ0<V>(p: Parts<V>, t: Tests, f: bv32, zero: bool)
    requires f < 8 && (zero ==> t.noFrame4)
    ensures MeaningOf(Choose(p, t, Quadrant0(f, zero))) == Table0(p, t, f)
  {
  }

  lemma AgreesQ1<V>(p: Parts<V>, t: Tests, f: bv32, h: bv32, b: bv32, l: bv32, nop: bool)
    requires f < 8 && h < 4 && b < 2 && l < 4 && (t.bigShift <==> b == 1)
    ensures MeaningOf(Choose(p, t, Quadrant1(f, h, b, l, nop, t))) == Table1(p, t, f, h, b, l, nop) <==>
            !(f == 4 && h == 3 && b == 1 && l < 2)
  {
  }

  lemma AgreesQ2<V>(p: Parts<V>, t: Tests, f: bv32, b: bv32)
    requires f < 8 && b < 2 && (t.bigShift <==> b == 1)
    ensures MeaningOf(Choose(p, t, Quadrant2(f, b, t))) == Table2(p, t, f, b) <==> !(f == 4 && b == 1 && t.rZero && !t.qZero)
  {
  }

  lemma FieldsRange(w: bv32)
    ensures Funct(w) < 8 && High2(w) < 4 && Bit12(w) < 2 && Low2(w) < 4
    ensures Cuimm(w) > 31 <==> Bit12(w) == 1
    ensures w & 0xFFFF == 0 ==> Addi4spnImm(w) == 0
  {
  }

  lemma DeviatesWhere(w: bv32)
    requires w & 3 != 3
    ensures Deviates(w) <==>
      || (w & 3 == 1 && Funct(w) == 4 && High2(w) == 3 && Bit12(w) == 1 && Low2(w) < 2)
      || (w & 3 == 2 && Funct(w) == 4 && Bit12(w) == 1 && Rd(w) == 0 && CRs2(w) != 0)
  {
  }

  lemma AgreesAll(w: bv32, p: Parts<bv32>, t: Tests)
    requires w & 3 != 3 && p == Extracted(w) && t == Asked(p)
    ensures MeaningOf(Choose(p, t, DecodeC(w))) == Means(w) <==> !Deviates(w)
  {
    TablesAgree(w);
    FieldsRange(w);
    DeviatesWhere(w);
    if w & 3 == 0 {
      AgreesQ0(p, t, Funct(w), w & 0xFFFF == 0);
    } else if w & 3 == 1 {
      AgreesQ1(p, t, Funct(w), High2(w), Bit12(w), Low2(w), w & 0xFFFF == 1);
    } else {
      AgreesQ2(p, t, Funct(w), Bit12(w));
    }
  }

  /**
    Every accepted expansion decodes to the opcode returned with it, and the expansion of a
    compressed word has the manual's meaning exactly outside the two deviating families.
   */
  lemma ExpansionFaithful(w: bv32)
    requires w & 3 != 3
    ensures var e := Expand(w, DecodeC(w));
            && (e.op != UNDEF ==> DecodeNormal(e.word) == e.op)
            && (Meant(e) == Means(w) <==> !Deviates(w))
  {
    var p := Extracted(w);
    ExpansionKeeps(w, DecodeC(w));
    AgreesAll(w, p, Asked(p));
  }

  lemma HintDecodes()
    ensures DecodeC(0x9006) == C_EBREAK
  {
  }

  lemma HintMeans()
    ensures Means(0x9006) == RegReg(Op(ADD), 0, 0, 1)
  {
  }

  lemma BreakChosen<V>(p: Parts<V>, t: Tests)
    ensures Choose(p, t, C_EBREAK) == CallBreak
  {
  }

  lemma BreakMeans(w: bv32)
    ensures Meant(Expand(w, C_EBREAK)) == Break
  {
    BreakChosen(Extracted(w), Asked(Extracted(w)));
    ExpansionKeeps(w, C_EBREAK);
  }

  /** A C.ADD hint with rd = x0 is decoded as a breakpoint, where the manual has it do nothing. */
  lemma HintBreaks()
    ensures Meant(Expand(0x9006, DecodeC(0x9006))) == Break && Means(0x9006) == RegReg(Op(ADD), 0, 0, 1)
  {
    HintDecodes();
    HintMeans();
    BreakMeans(0x9006);
  }

  lemma BitsFromLow(w: bv32, v: bv32)
    requires v == w & 0xFFFF
    ensures w & 3 == v & 3 && w & 0xFFFF == v & 0xFFFF
  {
  }

  lemma FunctsFromLow(w: bv32, v: bv32)
    requires v == w & 0xFFFF
    ensures Funct(w) == Funct(v) && Bit12(w) == Bit12(v) && High2(w) == High2(v) && Low2(w) == Low2(v)
  {
  }

  lemma FieldsFromLow(w: bv32, v: bv32)
    requires v == w & 0xFFFF
    ensures RdSmall(w) == RdSmall(v) && Rs2Small(w) == Rs2Small(v) && Rd(w) == Rd(v) && CRs2(w) == CRs2(v)
  {
  }

  lemma UnsignedFromLow(w: bv32, v: bv32)
    requires v == w & 0xFFFF
    ensures Cuimm(w) == Cuimm(v) && Addi4spnImm(w) == Addi4spnImm(v) && LwImm(w) == LwImm(v) && LdImm(w) == LdImm(v)
    ensures LwspImm(w) == LwspImm(v) && LdspImm(w) == LdspImm(v) && SwspImm(w) == SwspImm(v) && SdspImm(w) == SdspImm(v)
  {
  }

  lemma LowFromLow(w: bv32, v: bv32)
    requires v == w & 0xFFFF
    ensures (w >> 12) & 1 == (v >> 12) & 1 && (w >> 2) & 0x1F == (v >> 2) & 0x1F
    ensures JalLow(w) == JalLow(v) && BranchLow(w) == BranchLow(v) && Addi16spLow(w) == Addi16spLow(v)
  {
  }

  // With equal sign bits and equal low parts, the sign-extended immediates are equal.

  lemma CimmSame(w: bv32, v: bv32, b: bv32)
    requires b == (w >> 12) & 1 && b == (v >> 12) & 1 && (w >> 2) & 0x1F == (v >> 2) & 0x1F
    ensures Cimm(w) == Cimm(v)
  {
    SmallSign(b);
    Bit12Is(w);
    Glue(Fill(b << 5, 0x20), (w >> 2) & 0x1F, Fill(b << 5, 0x20), (v >> 2) & 0x1F);
  }

  lemma Addi16spImmSame(w: bv32, v: bv32, b: bv32)
    requires b == (w >> 12) & 1 && b == (v >> 12) & 1 && Addi16spLow(w) == Addi16spLow(v)
    ensures Addi16spImm(w) == Addi16spImm(v)
  {
    FrameSign(b);
    Bit12Is(w);
    Glue(Fill(b << 9, 0x200), Addi16spLow(w), Fill(b << 9, 0x200), Addi16spLow(v));
  }

  lemma LuiImmSame(w: bv32, v: bv32, b: bv32)
    requires b == (w >> 12) & 1 && b == (v >> 12) & 1 && ((w >> 2) & 0x1F) << 12 == ((v >> 2) & 0x1F) << 12
    ensures LuiImm(w) == LuiImm(v)
  {
    HighSign(b);
    Bit12Is(w);
    Glue(Fill(b << 17, 0x20000), ((w >> 2) & 0x1F) << 12, Fill(b << 17, 0x20000), ((v >> 2) & 0x1F) << 12);
  }

  lemma JalImmSame(w: bv32, v: bv32, b: bv32)
    requires b == (w >> 12) & 1 && b == (v >> 12) & 1 && JalLow(w) == JalLow(v)
    ensures JalImm(w) == JalImm(v)
  {
    JumpSign(b);
    Bit12Is(w);
    Glue(Fill(b << 11, 0x800), JalLow(w), Fill(b << 11, 0x800), JalLow(v));
  }

  lemma BranchImmSame(w: bv32, v: bv32, b: bv32)
    requires b == (w >> 12) & 1 && b == (v >> 12) & 1 && BranchLow(w) == BranchLow(v)
    ensures BranchImm(w) == BranchImm(v)
  {
    BranchSign(b);
    Bit12Is(w);
    Glue(Fill(b << 8, 0x100), BranchLow(w), Fill(b << 8, 0x100), BranchLow(v));
  }

  lemma SignedFromLow(w: bv32, v: bv32)
    requires v == w & 0xFFFF
    ensures Cimm(w) == Cimm(v) && Addi16spImm(w) == Addi16spImm(v) && LuiImm(w) == LuiImm(v)
    ensures JalImm(w) == JalImm(v) && BranchImm(w) == BranchImm(v)
  {
    var b := (w >> 12) & 1;
    LowFromLow(w, v);
    CimmSame(w, v, b);
    Addi16spImmSame(w, v, b);
    LuiImmSame(w, v, b);
    JalImmSame(w, v, b);
    BranchImmSame(w, v, b);
  }

  lemma PartsFromLow(w: bv32, v: bv32)
    requires v == w & 0xFFFF
    ensures Extracted(w) == Extracted(v)
  {
    FieldsFromLow(w, v);
    UnsignedFromLow(w, v);
    SignedFromLow(w, v);
  }

  lemma AssembleIgnores(w: bv32, v: bv32, k: Call<bv32>)
    ensures var e, g := Assemble(w, k), Assemble(v, k); e.op == g.op && (e.op != UNDEF ==> e.word == g.word)
  {
  }

  /** The upper half of the fetched word has no influence on an accepted instruction. */
  lemma UpperHalfIgnored(w: bv32, v: bv32)
    requires w & 3 != 3 && v == w & 0xFFFF
    ensures v & 3 != 3 && DecodeC(w) == DecodeC(v)
    ensures var e, g := Expand(w, DecodeC(w)), Expand(v, DecodeC(v)); e.op == g.op && (e.op != UNDEF ==> e.word == g.word)
  {
    BitsFromLow(w, v);
    FunctsFromLow(w, v);
    PartsFromLow(w, v);
    AssembleIgnores(w, v, Choose(Extracted(w), Asked(Extracted(w)), DecodeC(w)));
  }
}
