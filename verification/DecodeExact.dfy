/** The decoder's nested switch recognises each instruction by exactly its fixed bits. */
module DecodeExact {
  import opened Isa
  import opened Decode

  /** The fixed bits of an encoding: their positions and their values. */
  datatype Pattern = Pattern(mask: bv32, code: bv32)

  const M0: bv32 := 0x7F
  const ALL: bv32 := 0xFFFF_FFFF

  function BranchPattern(b: BranchOp): Pattern {
    Pattern(M3, match b
                case BEQ => 0x0063 case BNE => 0x1063 case BLT => 0x4063
                case BGE => 0x5063 case BLTU => 0x6063 case BGEU => 0x7063)
  }

  function LoadPattern(l: LoadOp): Pattern {
    Pattern(M3, match l case LB => 0x0003 case LH => 0x1003 case LW => 0x2003 case LBU => 0x4003 case LHU => 0x5003)
  }

  function StorePattern(s: StoreOp): Pattern {
    Pattern(M3, match s case SB => 0x0023 case SH => 0x1023 case SW => 0x2023)
  }

  /** Shifts by an immediate also fix the upper seven bits; SUB has no immediate form. */
  function ImmPattern(a: AluOp): Pattern
    requires a != SUB
  {
    match a
    case ADD => Pattern(M3, 0x0013) case SLT => Pattern(M3, 0x2013) case SLTU => Pattern(M3, 0x3013)
    case XOR => Pattern(M3, 0x4013) case OR => Pattern(M3, 0x6013) case AND => Pattern(M3, 0x7013)
    case SLL => Pattern(M7, 0x1013) case SRL => Pattern(M7, 0x5013) case SRA => Pattern(M7, 0x4000_5013)
  }

  function RegPattern(a: AluOp): Pattern {
    Pattern(M7, match a
                case ADD => 0x0033 case SUB => 0x4000_0033 case SLL => 0x1033 case SLT => 0x2033 case SLTU => 0x3033
                case XOR => 0x4033 case SRL => 0x5033 case SRA => 0x4000_5033 case OR => 0x6033 case AND => 0x7033)
  }

  function MulPattern(m: MulOp): Pattern {
    Pattern(M7, match m
                case MUL => 0x0200_0033 case MULH => 0x0200_1033 case MULHSU => 0x0200_2033 case MULHU => 0x0200_3033)
  }

  function DivPattern(d: DivOp): Pattern {
    Pattern(M7, match d
                case DIV => 0x0200_4033 case DIVU => 0x0200_5033 case REM => 0x0200_6033 case REMU => 0x0200_7033)
  }

  function CsrPattern(k: CsrOp): Pattern {
    Pattern(M3, match k
                case CSRRW => 0x1073 case CSRRS => 0x2073 case CSRRC => 0x3073
                case CSRRWI => 0x5073 case CSRRSI => 0x6073 case CSRRCI => 0x7073)
  }

  /** AMOs leave the aq and rl bits open. */
  function AmoPattern(o: AmoOp): Pattern {
    Pattern(M5, match o
                case AMOSWAP => 0x0800_202F case AMOADD => 0x0000_202F case AMOXOR => 0x2000_202F
                case AMOAND => 0x6000_202F case AMOOR => 0x4000_202F case AMOMIN => 0x8000_202F
                case AMOMAX => 0xA000_202F case AMOMINU => 0xC000_202F case AMOMAXU => 0xE000_202F)
  }

  /** The encoding tables of chapter 24 of the Unprivileged ISA, for the opcodes this hart executes. */
  function PatternOf(op: Opcode): Option<Pattern> {
    match op
    case LUI => Some(Pattern(M0, 0x37))
    case AUIPC => Some(Pattern(M0, 0x17))
    case JAL => Some(Pattern(M0, 0x6F))
    case JALR => Some(Pattern(M3, 0x67))
    case Branch(b) => Some(BranchPattern(b))
    case Load(l) => Some(LoadPattern(l))
    case Store(s) => Some(StorePattern(s))
    case OpImm(a) => if a == SUB then None else Some(ImmPattern(a))
    case Op(a) => Some(RegPattern(a))
    case Mul(m) => Some(MulPattern(m))
    case Div(d) => Some(DivPattern(d))
    case Amo(o) => Some(AmoPattern(o))
    case Csr(k) => Some(CsrPattern(k))
    case FENCE => Some(Pattern(0x607F, 0x0F))
    case ECALL => Some(Pattern(ALL, 0x0000_0073))
    case EBREAK => Some(Pattern(ALL, 0x0010_0073))
    case MRET => Some(Pattern(ALL, 0x3020_0073))
    case WFI => Some(Pattern(ALL, 0x1050_0073))
    case UNDEF => None
    case Unsupported(_) => None
  }

  predicate Fits(w: bv32, p: Pattern) {
    w & p.mask == p.code
  }

  predicate Decodes(w: bv32, op: Opcode) {
    DecodeNormal(w) == op
  }

  // ----- the outer switch -----

  /** Opcodes found by an inner switch. */
  predicate Inner(op: Opcode) {
    || op.Branch? || op.Load? || op.Store? || op.OpImm? || op.Op? || op.Mul? || op.Div? || op.Csr? || op.Amo?
    || op.ECALL? || op.EBREAK? || op.MRET? || op.WFI?
  }

  /** The case of the outer switch under which an opcode is found, and the inner switch of that case. */
  function Major(op: Opcode): bv32 {
    if op.Branch? then 0x63 else if op.Load? then 0x03 else if op.Store? then 0x23 else if op.OpImm? then 0x13
    else if op.Op? || op.Mul? || op.Div? then 0x33 else if op.Amo? then 0x2F else 0x73
  }

  function InnerSwitch(op: Opcode, w: bv32): Opcode {
    if op.Branch? then DecodeBranch(w) else if op.Load? then DecodeLoad(w) else if op.Store? then DecodeStore(w)
    else if op.OpImm? then DecodeImm(w) else if op.Op? || op.Mul? || op.Div? then DecodeReg(w)
    else if op.Amo? then DecodeAmo(w) else DecodeSystem(w)
  }

  lemma Routed(w: bv32, op: Opcode)
    requires Inner(op)
    ensures w & M0 == Major(op) ==> DecodeNormal(w) == InnerSwitch(op, w)
    ensures Decodes(w, op) ==> w & M0 == Major(op)
  {
  }

  // ----- the cases of the outer switch with their inner switches, format by format -----

  lemma BranchExact(w: bv32, b: BranchOp)
    ensures w & M0 == 0x63 && DecodeBranch(w) == Branch(b) <==> Fits(w, BranchPattern(b))
  {
  }

  lemma LoadExact(w: bv32, l: LoadOp)
    ensures w & M0 == 0x03 && DecodeLoad(w) == Load(l) <==> Fits(w, LoadPattern(l))
  {
  }

  lemma StoreExact(w: bv32, s: StoreOp)
    ensures w & M0 == 0x23 && DecodeStore(w) == Store(s) <==> Fits(w, StorePattern(s))
  {
  }

  lemma ImmExact(w: bv32, a: AluOp)
    requires a != SUB
    ensures w & M0 == 0x13 && DecodeImm(w) == OpImm(a) <==> Fits(w, ImmPattern(a))
  {
  }

  lemma RegExact(w: bv32, a: AluOp)
    ensures w & M0 == 0x33 && DecodeReg(w) == Op(a) <==> Fits(w, RegPattern(a))
  {
  }

  lemma MulExact(w: bv32, m: MulOp)
    ensures w & M0 == 0x33 && DecodeReg(w) == Mul(m) <==> Fits(w, MulPattern(m))
  {
  }

  lemma DivExact(w: bv32, d: DivOp)
    ensures w & M0 == 0x33 && DecodeReg(w) == Div(d) <==> Fits(w, DivPattern(d))
  {
  }

  lemma CsrExact(w: bv32, k: CsrOp)
    ensures w & M0 == 0x73 && DecodeSystem(w) == Csr(k) <==> Fits(w, CsrPattern(k))
  {
  }

  lemma AmoExact(w: bv32, o: AmoOp)
    ensures w & M0 == 0x2F && DecodeAmo(w) == Amo(o) <==> Fits(w, AmoPattern(o))
  {
  }

  lemma SystemExact(w: bv32, op: Opcode, p: Pattern)
    requires (op.ECALL? || op.EBREAK? || op.MRET? || op.WFI?) && PatternOf(op) == Some(p)
    ensures w & M0 == 0x73 && DecodeSystem(w) == op <==> Fits(w, p)
  {
    match op case ECALL => case EBREAK => case MRET => case WFI =>
  }

  /** The word reaches the opcode's inner switch, and the switch finds the opcode. */
  predicate Found(w: bv32, op: Opcode) {
    w & M0 == Major(op) && InnerSwitch(op, w) == op
  }

  lemma AluExact(w: bv32, op: Opcode, p: Pattern)
    requires (op.OpImm? || op.Op? || op.Mul? || op.Div?) && PatternOf(op) == Some(p)
    ensures Found(w, op) <==> Fits(w, p)
  {
    match op
    case OpImm(a) => ImmExact(w, a);
    case Op(a) => RegExact(w, a);
    case Mul(m) => MulExact(w, m);
    case Div(d) => DivExact(w, d);
  }

  lemma MemoryExact(w: bv32, op: Opcode, p: Pattern)
    requires (op.Load? || op.Store? || op.Amo?) && PatternOf(op) == Some(p)
    ensures Found(w, op) <==> Fits(w, p)
  {
    match op
    case Load(l) => LoadExact(w, l);
    case Store(s) => StoreExact(w, s);
    case Amo(o) => AmoExact(w, o);
  }

  lemma InnerExact(w: bv32, op: Opcode, p: Pattern)
    requires Inner(op) && PatternOf(op) == Some(p)
    ensures Found(w, op) <==> Fits(w, p)
  {
    if op.OpImm? || op.Op? || op.Mul? || op.Div? {
      AluExact(w, op, p);
    } else if op.Load? || op.Store? || op.Amo? {
      MemoryExact(w, op, p);
    } else if op.Branch? {
      BranchExact(w, op.branch);
    } else if op.Csr? {
      CsrExact(w, op.csr);
    } else {
      SystemExact(w, op, p);
    }
  }

  lemma UpperExact(w: bv32, op: Opcode, p: Pattern)
    requires (op.LUI? || op.AUIPC? || op.JAL? || op.JALR? || op.FENCE?) && PatternOf(op) == Some(p)
    ensures Decodes(w, op) <==> Fits(w, p)
  {
    match op case LUI => case AUIPC => case JAL => case JALR => case FENCE =>
  }

  /** A word decodes to an opcode exactly if it carries the opcode's fixed bits. */
  lemma DecodeIsExact(w: bv32, op: Opcode, p: Pattern)
    requires PatternOf(op) == Some(p)
    ensures Decodes(w, op) <==> Fits(w, p)
  {
    if Inner(op) {
      Routed(w, op);
      InnerExact(w, op, p);
    } else {
      UpperExact(w, op, p);
    }
  }
}
