/** Decoded instructions and machine states shared by the concolic simulator and its reference. */
module Isa {

  const WORDS: nat := 0x1_0000_0000

  type Addr = x: nat | x < WORDS

  datatype Option<+T> = None | Some(value: T)

  datatype AluOp = ADD | SUB | SLL | SLT | SLTU | XOR | SRL | SRA | OR | AND
  datatype MulOp = MUL | MULH | MULHSU | MULHU
  datatype DivOp = DIV | DIVU | REM | REMU
  datatype BranchOp = BEQ | BNE | BLT | BGE | BLTU | BGEU
  datatype LoadOp = LB | LH | LW | LBU | LHU
  datatype StoreOp = SB | SH | SW
  datatype AmoOp = AMOSWAP | AMOADD | AMOXOR | AMOAND | AMOOR | AMOMIN | AMOMAX | AMOMINU | AMOMAXU
  datatype CsrOp = CSRRW | CSRRS | CSRRC | CSRRWI | CSRRSI | CSRRCI

  /** Opcodes the decoder knows and this hart's main switch does not execute. */
  datatype OtherOp = FLW | FLD | FSW | FSD | ADDW | SUBW | LRW | SCW | URET | SRET | SFENCE_VMA | RV64 | FLOAT

  datatype Opcode =
    | UNDEF
    | LUI | AUIPC | JAL | JALR
    | Branch(branch: BranchOp)
    | Load(load: LoadOp)
    | Store(store: StoreOp)
    | OpImm(imm: AluOp)
    | Op(alu: AluOp)
    | Mul(mul: MulOp)
    | Div(div: DivOp)
    | Amo(amo: AmoOp)
    | Csr(csr: CsrOp)
    | FENCE | ECALL | EBREAK | MRET | WFI
    | Unsupported(other: OtherOp)

  /** A decoded instruction: `imm` is the sign-extended immediate as a 32-bit pattern, `raw` the word after expansion. */
  datatype Fields = Instr(op: Opcode, rd: nat, rs1: nat, rs2: nat, imm: nat, csr: nat, zimm: nat, size: nat, raw: nat)

  predicate ValidInstr(i: Fields) {
    i.rd < 32 && i.rs1 < 32 && i.rs2 < 32 && i.imm < WORDS && i.zimm < 32 && i.raw < WORDS && i.size in {2, 4}
  }

  type Instr = i: Fields | ValidInstr(i) witness Fields.Instr(UNDEF, 0, 0, 0, 0, 0, 0, 4, 0)

  datatype Status = Runnable | HitBreakpoint | Aborted

  /** Registers, memory bytes, program counter and control part (privilege and CSRs) of a hart. */
  datatype State<C, V> = State(regs: seq<V>, mem: seq<V>, pc: Addr, ctl: C, status: Status)

  /** What executing one instruction amounts to before traps and interrupts are taken. */
  datatype Effect<C, V, B> = Done(next: State<C, V>, trace: seq<B>) | Trap(cause: nat, tval: nat)

  datatype CsrResult<C> = CsrOk(ctl: C, value: nat, writeRd: bool) | CsrIllegal

  datatype Redirect<C> = Redirect(ctl: C, pc: Addr)

  /** The memory behind the bus: `size` bytes mapped at the addresses `start..end`, both included. */
  datatype Port = Port(start: nat, end: nat)

  datatype Access = Hit(local: nat) | Miss(tval: nat)

  /** Routing of an access of `len` bytes through the bus to the memory. */
  function Route(port: Port, addr: nat, len: nat, size: nat): Access {
    if port.start <= addr <= port.end then
      if addr - port.start + len > size then Miss(addr - port.start) else Hit(addr - port.start)
    else Miss(addr)
  }

  /**
    The parts of the hart that compute on concrete values only: the decoder, the CSR file,
    trap entry, interrupt entry and trap return.
   */
  datatype Sys<!C> = Sys(
    port: Port,
    decode: nat -> Instr,
    trap: (C, Addr, nat, nat) -> Redirect<C>,
    interrupt: (C, Addr) -> Redirect<C>,
    csr: (C, Instr, nat) -> CsrResult<C>,
    ecall: C -> nat,
    mret: C -> Redirect<C>,
    wfiIllegal: C -> bool)

  const EXC_ILLEGAL_INSTR: nat := 2
  const EXC_LOAD_ADDR_MISALIGNED: nat := 4
  const EXC_STORE_AMO_ADDR_MISALIGNED: nat := 6
  const EXC_LOAD_PAGE_FAULT: nat := 13
  const EXC_STORE_AMO_PAGE_FAULT: nat := 15

  function LoadSize(l: LoadOp): nat {
    match l
    case LB => 1 case LBU => 1
    case LH => 2 case LHU => 2
    case LW => 4
  }

  function StoreSize(s: StoreOp): nat {
    match s
    case SB => 1
    case SH => 2
    case SW => 4
  }
}
