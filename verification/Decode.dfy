/** Instruction words: field and immediate extractors, and the decoder for uncompressed RV32 instructions. */
module Decode {
  import opened Isa

  /** Sign extension: `0 - sign` has the sign bit and all the bits above it set. */
  function Fill(x: bv32, sign: bv32): bv32 {
    x | (0 - (x & sign))
  }

  function Rd(w: bv32): bv32 { (w >> 7) & 0x1F }
  function Rs1(w: bv32): bv32 { (w >> 15) & 0x1F }
  function Rs2(w: bv32): bv32 { (w >> 20) & 0x1F }
  function Funct3(w: bv32): bv32 { (w >> 12) & 0x7 }
  function Shamt(w: bv32): bv32 { (w >> 20) & 0x3F }

  function Iimm(w: bv32): bv32 { Fill(w >> 20, 0x800) }
  function Simm(w: bv32): bv32 { SplitS((w & 0xFE00_0000) >> 20, (w & 0xF80) >> 7) }
  function Bimm(w: bv32): bv32 {
    SplitB((w & 0x8000_0000) >> 19, (w & 0x80) << 4, (w & 0x7E00_0000) >> 20, (w & 0xF00) >> 7)
  }
  function Uimm(w: bv32): bv32 { w & 0xFFFF_F000 }
  function Jimm(w: bv32): bv32 {
    SplitJ((w & 0x8000_0000) >> 11, w & 0xF_F000, (w & 0x10_0000) >> 9, (w & 0x7FE0_0000) >> 20)
  }

  // Immediates put together from their pieces, the one with the sign bit first.

  function SplitS(hi: bv32, lo: bv32): bv32 { Fill(hi, 0x800) | lo }
  function SplitB(sign: bv32, a: bv32, b: bv32, c: bv32): bv32 { Fill(sign, 0x1000) | a | b | c }
  function SplitJ(sign: bv32, a: bv32, b: bv32, c: bv32): bv32 { Fill(sign, 0x10_0000) | a | b | c }

  function Match(w: bv32, mask: bv32, code: bv32, op: Opcode): Opcode {
    if w & mask == code then op else UNDEF
  }

  /** Masks of the encoding classes: opcode with funct3, and opcode with funct3 and funct7. */
  const M3: bv32 := 0x0000_707F
  const M7: bv32 := 0xFE00_707F

  function DecodeBranch(w: bv32): (op: Opcode)
    ensures op.UNDEF? || op.Unsupported? || op.Branch?
  {
    var f := Funct3(w);
    if f == 0 then Match(w, M3, 0x0063, Branch(BEQ))
    else if f == 1 then Match(w, M3, 0x1063, Branch(BNE))
    else if f == 4 then Match(w, M3, 0x4063, Branch(BLT))
    else if f == 5 then Match(w, M3, 0x5063, Branch(BGE))
    else if f == 6 then Match(w, M3, 0x6063, Branch(BLTU))
    else if f == 7 then Match(w, M3, 0x7063, Branch(BGEU))
    else UNDEF
  }

  function DecodeLoad(w: bv32): (op: Opcode)
    ensures op.UNDEF? || op.Unsupported? || op.Load?
  {
    var f := Funct3(w);
    if f == 0 then Match(w, M3, 0x0003, Load(LB))
    else if f == 1 then Match(w, M3, 0x1003, Load(LH))
    else if f == 2 then Match(w, M3, 0x2003, Load(LW))
    else if f == 4 then Match(w, M3, 0x4003, Load(LBU))
    else if f == 5 then Match(w, M3, 0x5003, Load(LHU))
    else if f == 6 then Match(w, M3, 0x6003, Unsupported(RV64))
    else if f == 3 then Match(w, M3, 0x3003, Unsupported(RV64))
    else UNDEF
  }

  function DecodeStore(w: bv32): (op: Opcode)
    ensures op.UNDEF? || op.Unsupported? || op.Store?
  {
    var f := Funct3(w);
    if f == 0 then Match(w, M3, 0x0023, Store(SB))
    else if f == 1 then Match(w, M3, 0x1023, Store(SH))
    else if f == 2 then Match(w, M3, 0x2023, Store(SW))
    else if f == 3 then Match(w, M3, 0x3023, Unsupported(RV64))
    else UNDEF
  }

  function DecodeImm(w: bv32): (op: Opcode)
    ensures op.UNDEF? || op.Unsupported? || op.OpImm?
  {
    var f := Funct3(w);
    if f == 0 then Match(w, M3, 0x0013, OpImm(ADD))
    else if f == 2 then Match(w, M3, 0x2013, OpImm(SLT))
    else if f == 3 then Match(w, M3, 0x3013, OpImm(SLTU))
    else if f == 4 then Match(w, M3, 0x4013, OpImm(XOR))
    else if f == 6 then Match(w, M3, 0x6013, OpImm(OR))
    else if f == 7 then Match(w, M3, 0x7013, OpImm(AND))
    else if f == 1 then Match(w, M7, 0x1013, OpImm(SLL))
    else if w >> 26 == 0 then Match(w, M7, 0x5013, OpImm(SRL))
    else if w >> 26 == 0x10 then Match(w, M7, 0x4000_5013, OpImm(SRA))
    else UNDEF
  }

  function DecodeReg(w: bv32): (op: Opcode)
    ensures op.UNDEF? || op.Unsupported? || op.Op? || op.Mul? || op.Div?
  {
    var f, f7 := Funct3(w), w >> 25;
    if f7 == 0 then
      if f == 0 then Match(w, M7, 0x0033, Op(ADD))
      else if f == 1 then Match(w, M7, 0x1033, Op(SLL))
      else if f == 2 then Match(w, M7, 0x2033, Op(SLT))
      else if f == 3 then Match(w, M7, 0x3033, Op(SLTU))
      else if f == 4 then Match(w, M7, 0x4033, Op(XOR))
      else if f == 5 then Match(w, M7, 0x5033, Op(SRL))
      else if f == 6 then Match(w, M7, 0x6033, Op(OR))
      else Match(w, M7, 0x7033, Op(AND))
    else if f7 == 0x20 then
      if f == 0 then Match(w, M7, 0x4000_0033, Op(SUB))
      else if f == 5 then Match(w, M7, 0x4000_5033, Op(SRA))
      else UNDEF
    else if f7 == 1 then
      if f == 0 then Match(w, M7, 0x0200_0033, Mul(MUL))
      else if f == 1 then Match(w, M7, 0x0200_1033, Mul(MULH))
      else if f == 2 then Match(w, M7, 0x0200_2033, Mul(MULHSU))
      else if f == 3 then Match(w, M7, 0x0200_3033, Mul(MULHU))
      else if f == 4 then Match(w, M7, 0x0200_4033, Div(DIV))
      else if f == 5 then Match(w, M7, 0x0200_5033, Div(DIVU))
      else if f == 6 then Match(w, M7, 0x0200_6033, Div(REM))
      else Match(w, M7, 0x0200_7033, Div(REMU))
    else UNDEF
  }

  /** The 32-bit forms that only RV64 executes; the decoder accepts them for RV32 too. */
  function DecodeWord(w: bv32): (op: Opcode)
    ensures op.UNDEF? || op.Unsupported?
  {
    var f, f7 := Funct3(w), w >> 25;
    if w & 0x7F == 0x1B then
      if f == 0 then Unsupported(RV64)
      else if f == 1 then Match(w, M7, 0x101B, Unsupported(RV64))
      else if f == 5 && f7 == 0 then Unsupported(RV64)
      else if f == 5 && f7 == 0x20 then Unsupported(RV64)
      else UNDEF
    else if f7 == 0 then
      if f == 0 then Match(w, M7, 0x003B, Unsupported(ADDW))
      else if f == 1 || f == 5 then Unsupported(RV64)
      else UNDEF
    else if f7 == 0x20 then
      if f == 0 then Match(w, M7, 0x4000_003B, Unsupported(SUBW))
      else if f == 5 then Unsupported(RV64)
      else UNDEF
    else if f7 == 1 && (f == 0 || f >= 4) then Unsupported(RV64)
    else UNDEF
  }

  function DecodeSystem(w: bv32): (op: Opcode)
    ensures op.UNDEF? || op.Unsupported? || op.Csr? || op.ECALL? || op.EBREAK? || op.MRET? || op.WFI?
  {
    var f, f12 := Funct3(w), w >> 20;
    if f == 0 then
      if f12 == 0 then Match(w, 0xFFFF_FFFF, 0x0000_0073, ECALL)
      else if f12 == 1 then Match(w, 0xFFFF_FFFF, 0x0010_0073, EBREAK)
      else if f12 == 2 then Match(w, 0xFFFF_FFFF, 0x0020_0073, Unsupported(URET))
      else if f12 == 0x102 then Match(w, 0xFFFF_FFFF, 0x1020_0073, Unsupported(SRET))
      else if f12 == 0x302 then Match(w, 0xFFFF_FFFF, 0x3020_0073, MRET)
      else if f12 == 0x105 then Match(w, 0xFFFF_FFFF, 0x1050_0073, WFI)
      else Match(w, 0xFE00_7FFF, 0x1200_0073, Unsupported(SFENCE_VMA))
    else if f == 1 then Csr(CSRRW)
    else if f == 2 then Csr(CSRRS)
    else if f == 3 then Csr(CSRRC)
    else if f == 5 then Csr(CSRRWI)
    else if f == 6 then Csr(CSRRSI)
    else if f == 7 then Csr(CSRRCI)
    else UNDEF
  }

  const M5: bv32 := 0xF800_707F

  /** AMOs: the `.D` forms are told from the `.W` forms by funct3. */
  function DecodeAmo(w: bv32): (op: Opcode)
    ensures op.UNDEF? || op.Unsupported? || op.Amo?
  {
    var f5 := w >> 27;
    var wide := Funct3(w) == 3;
    if f5 == 0x02 then
      if wide then Match(w, 0xF9F0_707F, 0x1000_302F, Unsupported(RV64))
      else Match(w, 0xF9F0_707F, 0x1000_202F, Unsupported(LRW))
    else if f5 !in {0x00, 0x01, 0x03, 0x04, 0x08, 0x0C, 0x10, 0x14, 0x18, 0x1C} then UNDEF
    else if wide then Unsupported(RV64)
    else if f5 == 0x03 then Match(w, M5, 0x1800_202F, Unsupported(SCW))
    else if f5 == 0x01 then Match(w, M5, 0x0800_202F, Amo(AMOSWAP))
    else if f5 == 0x00 then Match(w, M5, 0x0000_202F, Amo(AMOADD))
    else if f5 == 0x04 then Match(w, M5, 0x2000_202F, Amo(AMOXOR))
    else if f5 == 0x0C then Match(w, M5, 0x6000_202F, Amo(AMOAND))
    else if f5 == 0x08 then Match(w, M5, 0x4000_202F, Amo(AMOOR))
    else if f5 == 0x10 then Match(w, M5, 0x8000_202F, Amo(AMOMIN))
    else if f5 == 0x14 then Match(w, M5, 0xA000_202F, Amo(AMOMAX))
    else if f5 == 0x18 then Match(w, M5, 0xC000_202F, Amo(AMOMINU))
    else Match(w, M5, 0xE000_202F, Amo(AMOMAXU))
  }

  function DecodeNormal(w: bv32): Opcode {
    var op, f := w & 0x7F, Funct3(w);
    if op == 0x37 then LUI
    else if op == 0x17 then AUIPC
    else if op == 0x6F then JAL
    else if op == 0x67 then Match(w, M3, 0x0067, JALR)
    else if op == 0x63 then DecodeBranch(w)
    else if op == 0x03 then DecodeLoad(w)
    else if op == 0x23 then DecodeStore(w)
    else if op == 0x13 then DecodeImm(w)
    else if op == 0x33 then DecodeReg(w)
    else if op == 0x1B || op == 0x3B then DecodeWord(w)
    else if op == 0x0F then (if f == 0 || f == 1 then FENCE else UNDEF)
    else if op == 0x73 then DecodeSystem(w)
    else if op == 0x2F then DecodeAmo(w)
    else if op == 0x07 then
      if f == 2 then Unsupported(FLW) else if f == 3 then Unsupported(FLD) else UNDEF
    else if op == 0x27 then
      if f == 2 then Unsupported(FSW) else if f == 3 then Unsupported(FSD) else UNDEF
    else if op == 0x43 || op == 0x47 || op == 0x4B || op == 0x4F || op == 0x53 then Unsupported(FLOAT)
    else UNDEF
  }
}
