/** Compressed instructions: decoding, expansion to 32-bit words, and the meaning the manual gives them. */
module Compressed {
  import opened Isa
  import opened Decode

  datatype COp =
    | C_Illegal | C_Reserved
    | C_ADDI4SPN | C_FLD | C_LW | C_FLW | C_FSD | C_SW | C_FSW
    | C_NOP | C_ADDI | C_JAL | C_LI | C_ADDI16SP | C_LUI
    | C_SRLI | C_SRAI | C_ANDI | C_SUB | C_XOR | C_OR | C_AND | C_SUBW | C_ADDW
    | C_J | C_BEQZ | C_BNEZ
    | C_SLLI | C_FLDSP | C_LWSP | C_FLWSP | C_JR | C_MV | C_EBREAK | C_JALR | C_ADD | C_FSDSP | C_SWSP | C_FSWSP

  // ----- fields -----

  function RdSmall(w: bv32): bv32 { ((w >> 7) & 0x7) | 8 }
  function Rs2Small(w: bv32): bv32 { ((w >> 2) & 0x7) | 8 }
  function CRs2(w: bv32): bv32 { ((w >> 2) & 0x1F) }
  function Cimm(w: bv32): bv32 { Fill(((w >> 12) & 1) << 5, 0x20) | ((w >> 2) & 0x1F) }
  function Cuimm(w: bv32): bv32 { ((w >> 2) & 0x1F) | (((w >> 12) & 1) << 5) }

  function Addi4spnImm(w: bv32): bv32 {
    (((w >> 11) & 0x3) << 4) | (((w >> 7) & 0xF) << 6) | (((w >> 6) & 1) << 2) | (((w >> 5) & 1) << 3)
  }
  function LwImm(w: bv32): bv32 { (((w >> 10) & 0x7) << 3) | (((w >> 6) & 1) << 2) | (((w >> 5) & 1) << 6) }
  function LdImm(w: bv32): bv32 { (((w >> 10) & 0x7) << 3) | (((w >> 5) & 0x3) << 6) }
  function JalLow(w: bv32): bv32 {
    (((w >> 11) & 1) << 4) | (((w >> 9) & 0x3) << 8) | (((w >> 8) & 1) << 10) | (((w >> 7) & 1) << 6) | (((w >> 6) & 1) << 7) |
    (((w >> 3) & 0x7) << 1) | (((w >> 2) & 1) << 5)
  }
  function JalImm(w: bv32): bv32 { Fill(((w >> 12) & 1) << 11, 0x800) | JalLow(w) }
  function Addi16spLow(w: bv32): bv32 {
    (((w >> 6) & 1) << 4) | (((w >> 5) & 1) << 6) | (((w >> 3) & 0x3) << 7) | (((w >> 2) & 1) << 5)
  }
  function Addi16spImm(w: bv32): bv32 { Fill(((w >> 12) & 1) << 9, 0x200) | Addi16spLow(w) }
  function LuiImm(w: bv32): bv32 { Fill(((w >> 12) & 1) << 17, 0x20000) | (((w >> 2) & 0x1F) << 12) }
  function BranchLow(w: bv32): bv32 {
    (((w >> 10) & 0x3) << 3) | (((w >> 5) & 0x3) << 6) | (((w >> 3) & 0x3) << 1) | (((w >> 2) & 1) << 5)
  }
  function BranchImm(w: bv32): bv32 { Fill(((w >> 12) & 1) << 8, 0x100) | BranchLow(w) }
  function LwspImm(w: bv32): bv32 { (((w >> 12) & 1) << 5) | (((w >> 4) & 0x7) << 2) | (((w >> 2) & 0x3) << 6) }
  function SwspImm(w: bv32): bv32 { (((w >> 9) & 0xF) << 2) | (((w >> 7) & 0x3) << 6) }
  function LdspImm(w: bv32): bv32 { (((w >> 12) & 1) << 5) | (((w >> 5) & 0x3) << 3) | (((w >> 2) & 0x7) << 6) }
  function SdspImm(w: bv32): bv32 { (((w >> 10) & 0x7) << 3) | (((w >> 7) & 0x7) << 6) }

  /**
    Everything the extractors read from a compressed word, and the numbers the expansion uses
    besides: `V` is the type of registers and immediates.
   */
  datatype Parts<V> = Parts(
    x0: V, x1: V, x2: V, none: V,
    d: V, s: V, r: V, q: V,
    small: V, shift: V, lw: V, ld: V, jump: V, branch: V,
    frame4: V, frame16: V, high: V, lwsp: V, ldsp: V, swsp: V, sdsp: V)

  function Extracted(w: bv32): Parts<bv32> {
    Parts(0, 1, 2, 0,
          RdSmall(w), Rs2Small(w), Rd(w), CRs2(w),
          Cimm(w), Cuimm(w), LwImm(w), LdImm(w), JalImm(w), BranchImm(w),
          Addi4spnImm(w), Addi16spImm(w), LuiImm(w), LwspImm(w), LdspImm(w), SwspImm(w), SdspImm(w))
  }

  /** What decoding and expansion ask about the values they read. */
  datatype Tests = Tests(rZero: bool, rIsSp: bool, qZero: bool, bigShift: bool, noFrame4: bool, noFrame16: bool, noHigh: bool)

  function Asked(p: Parts<bv32>): Tests {
    Tests(p.r == 0, p.r == 2, p.q == 0, p.shift > 31, p.frame4 == 0, p.frame16 == 0, p.high == 0)
  }

  // ----- the factory of 32-bit words -----

  function MakeR(rd: bv32, rs1: bv32, rs2: bv32, f: bv32): bv32 {
    ((rd & 0x1F) << 7) | ((rs1 & 0x1F) << 15) | ((rs2 & 0x1F) << 20) | f
  }
  function MakeI(rd: bv32, rs1: bv32, imm: bv32, f: bv32): bv32 {
    ((imm & 0xFFF) << 20) | ((rd & 0x1F) << 7) | ((rs1 & 0x1F) << 15) | f
  }
  function MakeShift(rd: bv32, rs1: bv32, sh: bv32, f: bv32): bv32 {
    ((rd & 0x1F) << 7) | ((rs1 & 0x1F) << 15) | ((sh & 0x3F) << 20) | f
  }
  function MakeS(rs1: bv32, rs2: bv32, imm: bv32, f: bv32): bv32 {
    ((imm & 0x1F) << 7) | ((imm & 0xFE0) << 20) | ((rs1 & 0x1F) << 15) | ((rs2 & 0x1F) << 20) | f
  }
  function MakeB(rs1: bv32, rs2: bv32, imm: bv32, f: bv32): bv32 {
    ((imm & 0x1E) << 7) | ((imm & 0x800) >> 4) | ((imm & 0x7E0) << 20) | ((imm & 0x1000) << 19) |
    ((rs1 & 0x1F) << 15) | ((rs2 & 0x1F) << 20) | f
  }
  function MakeU(rd: bv32, imm: bv32): bv32 { (imm & 0xFFFF_F000) | ((rd & 0x1F) << 7) | 0x37 }
  function MakeJ(rd: bv32, imm: bv32): bv32 {
    0x6F | ((rd & 0x1F) << 7) |
    (imm & 0xF_F000) | ((imm & 0x800) << 9) | ((imm & 0x7FE) << 20) | ((imm & 0x10_0000) << 11)
  }

  // ----- decode and expand -----

  // The fields the decoder switches on: c_opcode, c_f2_high, c_b12 and c_f2_low.

  function Funct(w: bv32): bv32 { (w >> 13) & 0x7 }
  function High2(w: bv32): bv32 { (w >> 10) & 0x3 }
  function Bit12(w: bv32): bv32 { (w >> 12) & 1 }
  function Low2(w: bv32): bv32 { (w >> 5) & 0x3 }

  function Quadrant0(f: bv32, zero: bool): COp {
    if f == 0 then (if zero then C_Illegal else C_ADDI4SPN)
    else if f == 1 then C_FLD
    else if f == 2 then C_LW
    else if f == 3 then C_FLW
    else if f == 4 then C_Reserved
    else if f == 5 then C_FSD
    else if f == 6 then C_SW
    else C_FSW
  }

  function Quadrant1(f: bv32, h: bv32, b: bv32, l: bv32, nop: bool, t: Tests): COp {
    if f == 0 then (if nop then C_NOP else C_ADDI)
    else if f == 1 then C_JAL
    else if f == 2 then C_LI
    else if f == 3 then (if t.rIsSp then C_ADDI16SP else C_LUI)
    else if f == 4 then
      if h == 0 then C_SRLI
      else if h == 1 then C_SRAI
      else if h == 2 then C_ANDI
      else if b != 0 then
        if l == 0 then C_SUBW else if l == 1 then C_ADDW else C_Reserved
      else if l == 0 then C_SUB
      else if l == 1 then C_XOR
      else if l == 2 then C_OR
      else C_AND
    else if f == 5 then C_J
    else if f == 6 then C_BEQZ
    else C_BNEZ
  }

  function Quadrant2(f: bv32, b: bv32, t: Tests): COp {
    if f == 0 then C_SLLI
    else if f == 1 then C_FLDSP
    else if f == 2 then C_LWSP
    else if f == 3 then C_FLWSP
    else if f == 4 then
      if b != 0 then
        if !t.rZero then (if !t.qZero then C_ADD else C_JALR) else C_EBREAK
      else (if !t.qZero then C_MV else C_JR)
    else if f == 5 then C_FSDSP
    else if f == 6 then C_SWSP
    else C_FSWSP
  }

  /** `decode_compressed` for RV32; the caller checks that the word is compressed. */
  function DecodeC(w: bv32): COp
    requires w & 3 != 3
  {
    if w & 3 == 0 then Quadrant0(Funct(w), w & 0xFFFF == 0)
    else if w & 3 == 1 then Quadrant1(Funct(w), High2(w), Bit12(w), Low2(w), w & 0xFFFF == 1, Asked(Extracted(w)))
    else Quadrant2(Funct(w), Bit12(w), Asked(Extracted(w)))
  }

  /** A call of the factory; the mnemonic fixes the format and the constant bits. */
  datatype Call<V> =
    | NoCall
    | CallR(op: Opcode, rd: V, rs1: V, rs2: V)
    | CallI(op: Opcode, rd: V, rs1: V, imm: V)
    | CallShift(op: Opcode, rd: V, rs1: V, sh: V)
    | CallS(op: Opcode, rs1: V, rs2: V, imm: V)
    | CallB(op: Opcode, rs1: V, rs2: V, imm: V)
    | CallU(rd: V, imm: V)
    | CallJ(rd: V, imm: V)
    | CallBreak

  /** The switch of `expand_compressed`; `NoCall` stands for the undefined instruction. */
  function Choose<V>(p: Parts<V>, t: Tests, c: COp): Call<V> {
    match c
    case C_Illegal => NoCall
    case C_Reserved => NoCall
    case C_NOP => CallR(Op(ADD), p.x0, p.x0, p.x0)
    case C_ADD => CallR(Op(ADD), p.r, p.r, p.q)
    case C_MV => CallR(Op(ADD), p.r, p.x0, p.q)
    case C_AND => CallR(Op(AND), p.d, p.d, p.s)
    case C_OR => CallR(Op(OR), p.d, p.d, p.s)
    case C_XOR => CallR(Op(XOR), p.d, p.d, p.s)
    case C_SUB => CallR(Op(SUB), p.d, p.d, p.s)
    case C_ADDW => CallR(Unsupported(ADDW), p.d, p.d, p.s)
    case C_SUBW => CallR(Unsupported(SUBW), p.d, p.d, p.s)
    case C_LW => CallI(Load(LW), p.s, p.d, p.lw)
    case C_FLW => CallI(Unsupported(FLW), p.s, p.d, p.lw)
    case C_FLD => CallI(Unsupported(FLD), p.s, p.d, p.ld)
    case C_SW => CallS(Store(SW), p.d, p.s, p.lw)
    case C_FSW => CallS(Unsupported(FSW), p.d, p.s, p.lw)
    case C_FSD => CallS(Unsupported(FSD), p.d, p.s, p.ld)
    case C_ADDI4SPN => if t.noFrame4 then NoCall else CallI(OpImm(ADD), p.s, p.x2, p.frame4)
    case C_ADDI => CallI(OpImm(ADD), p.r, p.r, p.small)
    case C_JAL => CallJ(p.x1, p.jump)
    case C_LI => CallI(OpImm(ADD), p.r, p.x0, p.small)
    case C_ADDI16SP => if t.noFrame16 then NoCall else CallI(OpImm(ADD), p.x2, p.x2, p.frame16)
    case C_LUI => if t.noHigh then NoCall else CallU(p.r, p.high)
    case C_SLLI => if t.bigShift then NoCall else CallShift(OpImm(SLL), p.r, p.r, p.shift)
    case C_SRLI => if t.bigShift then NoCall else CallShift(OpImm(SRL), p.d, p.d, p.shift)
    case C_SRAI => if t.bigShift then NoCall else CallShift(OpImm(SRA), p.d, p.d, p.shift)
    case C_ANDI => CallI(OpImm(AND), p.d, p.d, p.small)
    case C_J => CallJ(p.x0, p.jump)
    case C_BEQZ => CallB(Branch(BEQ), p.d, p.x0, p.branch)
    case C_BNEZ => CallB(Branch(BNE), p.d, p.x0, p.branch)
    case C_LWSP => if t.rZero then NoCall else CallI(Load(LW), p.r, p.x2, p.lwsp)
    case C_FLWSP => CallI(Unsupported(FLW), p.r, p.x2, p.lwsp)
    case C_FLDSP => CallI(Unsupported(FLD), p.r, p.x2, p.ldsp)
    case C_SWSP => CallS(Store(SW), p.x2, p.q, p.swsp)
    case C_FSWSP => CallS(Unsupported(FSW), p.x2, p.q, p.swsp)
    case C_FSDSP => CallS(Unsupported(FSD), p.x2, p.q, p.sdsp)
    case C_EBREAK => CallBreak
    case C_JR => if t.rZero then NoCall else CallI(JALR, p.x0, p.r, p.none)
    case C_JALR => CallI(JALR, p.x1, p.r, p.none)
  }

  /** The constant bits of the factory's instructions. */
  function Code(op: Opcode): bv32 {
    match op
    case Op(a) =>
      (match a case ADD => 0x33 case SUB => 0x4000_0033 case XOR => 0x4033 case OR => 0x6033 case AND => 0x7033 case _ => 0)
    case OpImm(a) =>
      (match a case ADD => 0x13 case AND => 0x7013 case SLL => 0x1013 case SRL => 0x5013 case SRA => 0x4000_5013 case _ => 0)
    case Load(_) => 0x2003
    case Store(_) => 0x2023
    case JALR => 0x67
    case Branch(b) => if b == BEQ then 0x63 else 0x1063
    case Unsupported(o) =>
      (match o
       case FLW => 0x2007 case FLD => 0x3007 case FSW => 0x2027 case FSD => 0x3027
       case ADDW => 0x3B case SUBW => 0x4000_003B case _ => 0)
    case _ => 0
  }

  datatype Expansion = Expansion(op: Opcode, word: bv32)

  /** The factory's word for a call; without one the word stays as it is. */
  function Assemble(w: bv32, k: Call<bv32>): Expansion {
    match k
    case NoCall => Expansion(UNDEF, w)
    case CallR(op, rd, rs1, rs2) => Expansion(op, MakeR(rd, rs1, rs2, Code(op)))
    case CallI(op, rd, rs1, imm) => Expansion(op, MakeI(rd, rs1, imm, Code(op)))
    case CallShift(op, rd, rs1, sh) => Expansion(op, MakeShift(rd, rs1, sh, Code(op)))
    case CallS(op, rs1, rs2, imm) => Expansion(op, MakeS(rs1, rs2, imm, Code(op)))
    case CallB(op, rs1, rs2, imm) => Expansion(op, MakeB(rs1, rs2, imm, Code(op)))
    case CallU(rd, imm) => Expansion(LUI, MakeU(rd, imm))
    case CallJ(rd, imm) => Expansion(JAL, MakeJ(rd, imm))
    case CallBreak => Expansion(EBREAK, 0x0010_0073)
  }

  /** `expand_compressed`: the opcode, and the instruction word that replaces the compressed one. */
  function Expand(w: bv32, c: COp): Expansion {
    Assemble(w, Choose(Extracted(w), Asked(Extracted(w)), c))
  }

  // ----- meanings -----

  /** An instruction with its operands, independent of any encoding. */
  datatype Meaning<V> =
    | Illegal
    | RegReg(op: Opcode, rd: V, rs1: V, rs2: V)
    | RegImm(op: Opcode, rd: V, rs1: V, imm: V)
    | Storing(op: Opcode, base: V, src: V, imm: V)
    | Branching(op: Opcode, rs1: V, rs2: V, imm: V)
    | Upper(rd: V, imm: V)
    | Jump(rd: V, imm: V)
    | Break

  /** What a 32-bit word means, read with the extractors of its format. */
  function Meant(e: Expansion): Meaning<bv32> {
    var w := e.word;
    match e.op
    case Op(_) => RegReg(e.op, Rd(w), Rs1(w), Rs2(w))
    case OpImm(a) => RegImm(e.op, Rd(w), Rs1(w), if a in {SLL, SRL, SRA} then Shamt(w) else Iimm(w))
    case Load(_) => RegImm(e.op, Rd(w), Rs1(w), Iimm(w))
    case JALR => RegImm(e.op, Rd(w), Rs1(w), Iimm(w))
    case Store(_) => Storing(e.op, Rs1(w), Rs2(w), Simm(w))
    case Branch(_) => Branching(e.op, Rs1(w), Rs2(w), Bimm(w))
    case LUI => Upper(Rd(w), Uimm(w))
    case JAL => Jump(Rd(w), Jimm(w))
    case EBREAK => Break
    case Unsupported(o) =>
      if o in {FLW, FLD} then RegImm(e.op, Rd(w), Rs1(w), Iimm(w))
      else if o in {FSW, FSD} then Storing(e.op, Rs1(w), Rs2(w), Simm(w))
      else RegReg(e.op, Rd(w), Rs1(w), Rs2(w))
    case _ => Illegal
  }

  /** One bit of the compressed word, placed as the manual's immediate tables place it. */
  function At(w: bv32, from: bv32, to: bv32): bv32
    requires from < 16 && to < 32
  {
    ((w >> from) & 1) << to
  }

  /** The sign bits of an immediate whose sign is bit 12 of the word. */
  function Above(w: bv32, ones: bv32): bv32 {
    if w & 0x1000 == 0 then 0 else ones
  }

  function Five(w: bv32): bv32 {
    At(w, 6, 4) | At(w, 5, 3) | At(w, 4, 2) | At(w, 3, 1) | At(w, 2, 0)
  }
  function Popular7(w: bv32): bv32 { 8 + (At(w, 9, 2) | At(w, 8, 1) | At(w, 7, 0)) }
  function Popular2(w: bv32): bv32 { 8 + (At(w, 4, 2) | At(w, 3, 1) | At(w, 2, 0)) }
  function Full(w: bv32): bv32 {
    At(w, 11, 4) | At(w, 10, 3) | At(w, 9, 2) | At(w, 8, 1) | At(w, 7, 0)
  }
  function WordOffset(w: bv32): bv32 { At(w, 12, 5) | At(w, 11, 4) | At(w, 10, 3) | At(w, 6, 2) | At(w, 5, 6) }
  function DoubleOffset(w: bv32): bv32 { At(w, 12, 5) | At(w, 11, 4) | At(w, 10, 3) | At(w, 6, 7) | At(w, 5, 6) }
  function JumpLow(w: bv32): bv32 {
    At(w, 11, 4) | At(w, 10, 9) | At(w, 9, 8) | At(w, 8, 10) | At(w, 7, 6) | At(w, 6, 7) |
    At(w, 5, 3) | At(w, 4, 2) | At(w, 3, 1) | At(w, 2, 5)
  }
  function JumpOffset(w: bv32): bv32 { Above(w, 0xFFFFF800) | JumpLow(w) }
  function BranchTable(w: bv32): bv32 {
    At(w, 11, 4) | At(w, 10, 3) | At(w, 6, 7) | At(w, 5, 6) | At(w, 4, 2) | At(w, 3, 1) | At(w, 2, 5)
  }
  function BranchOffset(w: bv32): bv32 { Above(w, 0xFFFFFF00) | BranchTable(w) }
  function SmallImm(w: bv32): bv32 { Above(w, 0xFFFFFFE0) | Five(w) }

  function Frame4(w: bv32): bv32 {
    At(w, 12, 5) | At(w, 11, 4) | At(w, 10, 9) | At(w, 9, 8) | At(w, 8, 7) | At(w, 7, 6) | At(w, 6, 2) | At(w, 5, 3)
  }
  function Frame16Table(w: bv32): bv32 { At(w, 6, 4) | At(w, 5, 6) | At(w, 4, 8) | At(w, 3, 7) | At(w, 2, 5) }
  function Frame16(w: bv32): bv32 { Above(w, 0xFFFFFE00) | Frame16Table(w) }
  function HighTable(w: bv32): bv32 { At(w, 6, 16) | At(w, 5, 15) | At(w, 4, 14) | At(w, 3, 13) | At(w, 2, 12) }
  function High(w: bv32): bv32 { Above(w, 0xFFFE0000) | HighTable(w) }
  function LoadSlot(w: bv32): bv32 { At(w, 12, 5) | At(w, 6, 4) | At(w, 5, 3) | At(w, 4, 2) | At(w, 3, 7) | At(w, 2, 6) }
  function LoadSlot2(w: bv32): bv32 { At(w, 12, 5) | At(w, 6, 4) | At(w, 5, 3) | At(w, 4, 8) | At(w, 3, 7) | At(w, 2, 6) }
  function StoreSlot(w: bv32): bv32 { At(w, 12, 5) | At(w, 11, 4) | At(w, 10, 3) | At(w, 9, 2) | At(w, 8, 7) | At(w, 7, 6) }
  function StoreSlot2(w: bv32): bv32 { At(w, 12, 5) | At(w, 11, 4) | At(w, 10, 3) | At(w, 9, 8) | At(w, 8, 7) | At(w, 7, 6) }

  /** The registers and immediates of a compressed word by the manual's tables. */
  function Tabled(w: bv32): Parts<bv32> {
    Parts(0, 1, 2, 0,
          Popular7(w), Popular2(w), Full(w), Five(w),
          SmallImm(w), At(w, 12, 5) | Five(w), WordOffset(w), DoubleOffset(w), JumpOffset(w), BranchOffset(w),
          Frame4(w), Frame16(w), High(w), LoadSlot(w), LoadSlot2(w), StoreSlot(w), StoreSlot2(w))
  }

  // The manual's listing, quadrant by quadrant; a shift amount of 32 or more is reserved on RV32.

  function Table0<V>(p: Parts<V>, t: Tests, f: bv32): Meaning<V> {
    if f == 0 then (if t.noFrame4 then Illegal else RegImm(OpImm(ADD), p.s, p.x2, p.frame4))
    else if f == 1 then RegImm(Unsupported(FLD), p.s, p.d, p.ld)
    else if f == 2 then RegImm(Load(LW), p.s, p.d, p.lw)
    else if f == 3 then RegImm(Unsupported(FLW), p.s, p.d, p.lw)
    else if f == 5 then Storing(Unsupported(FSD), p.d, p.s, p.ld)
    else if f == 6 then Storing(Store(SW), p.d, p.s, p.lw)
    else if f == 7 then Storing(Unsupported(FSW), p.d, p.s, p.lw)
    else Illegal
  }

  function Table1<V>(p: Parts<V>, t: Tests, f: bv32, h: bv32, b: bv32, l: bv32, nop: bool): Meaning<V> {
    if f == 0 then (if nop then RegReg(Op(ADD), p.x0, p.x0, p.x0) else RegImm(OpImm(ADD), p.r, p.r, p.small))
    else if f == 1 then Jump(p.x1, p.jump)
    else if f == 2 then RegImm(OpImm(ADD), p.r, p.x0, p.small)
    else if f == 3 && t.rIsSp then (if t.noFrame16 then Illegal else RegImm(OpImm(ADD), p.x2, p.x2, p.frame16))
    else if f == 3 then (if t.noHigh then Illegal else Upper(p.r, p.high))
    else if f == 5 then Jump(p.x0, p.jump)
    else if f == 6 then Branching(Branch(BEQ), p.d, p.x0, p.branch)
    else if f == 7 then Branching(Branch(BNE), p.d, p.x0, p.branch)
    else if h == 2 then RegImm(OpImm(AND), p.d, p.d, p.small)
    else if b == 1 then Illegal
    else if h == 0 then RegImm(OpImm(SRL), p.d, p.d, p.shift)
    else if h == 1 then RegImm(OpImm(SRA), p.d, p.d, p.shift)
    else if l == 0 then RegReg(Op(SUB), p.d, p.d, p.s)
    else if l == 1 then RegReg(Op(XOR), p.d, p.d, p.s)
    else if l == 2 then RegReg(Op(OR), p.d, p.d, p.s)
    else RegReg(Op(AND), p.d, p.d, p.s)
  }

  function Table2<V>(p: Parts<V>, t: Tests, f: bv32, b: bv32): Meaning<V> {
    if f == 0 then (if b == 1 then Illegal else RegImm(OpImm(SLL), p.r, p.r, p.shift))
    else if f == 1 then RegImm(Unsupported(FLD), p.r, p.x2, p.ldsp)
    else if f == 2 then (if t.rZero then Illegal else RegImm(Load(LW), p.r, p.x2, p.lwsp))
    else if f == 3 then RegImm(Unsupported(FLW), p.r, p.x2, p.lwsp)
    else if f == 5 then Storing(Unsupported(FSD), p.x2, p.q, p.sdsp)
    else if f == 6 then Storing(Store(SW), p.x2, p.q, p.swsp)
    else if f == 7 then Storing(Unsupported(FSW), p.x2, p.q, p.swsp)
    else if b == 0 && t.qZero then (if t.rZero then Illegal else RegImm(JALR, p.x0, p.r, p.none))
    else if b == 0 then RegReg(Op(ADD), p.r, p.x0, p.q)
    else if t.rZero && t.qZero then Break
    else if t.qZero then RegImm(JALR, p.x1, p.r, p.none)
    else RegReg(Op(ADD), p.r, p.r, p.q)
  }

  /** The meaning of a compressed word for RV32 with F and D, by the tables of the instruction set manual. */
  function Means(w: bv32): Meaning<bv32> {
    var p := Tabled(w);
    if w & 3 == 0 then Table0(p, Asked(p), Funct(w))
    else if w & 3 == 1 then Table1(p, Asked(p), Funct(w), High2(w), Bit12(w), Low2(w), w & 0xFFFF == 1)
    else Table2(p, Asked(p), Funct(w), Bit12(w))
  }

  /** The two families where the decoder departs from the manual: C.ADD hints, and RV64's C.SUBW and C.ADDW. */
  predicate Deviates(w: bv32) {
    || (w & 0xF003 == 0x9002 && Rd(w) == 0 && CRs2(w) != 0)
    || (w & 0xFC43 == 0x9C01)
  }
}
