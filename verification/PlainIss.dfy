/** The reference: an RV32IM interpreter (with AMOs, CSRs and traps) on plain 32-bit numbers. */
module PlainIss {
  import opened Isa

  /** Signed reading of a 32-bit number. */
  function S32(x: nat): int {
    if x >= 0x8000_0000 then x - WORDS else x
  }

  function U32(x: int): Addr {
    x % WORDS
  }

  datatype Ops = Ops(
    alu: (AluOp, nat, nat) -> nat,
    mul: (MulOp, nat, nat) -> nat,
    div: (DivOp, nat, nat) -> nat,
    branch: (BranchOp, nat, nat) -> bool,
    amo: (AmoOp, nat, nat) -> nat,
    load: (LoadOp, seq<nat>) -> nat,
    byte: (nat, nat) -> nat)

  type Plain<C> = State<C, nat>

  predicate Valid<C>(s: Plain<C>) {
    |s.regs| == 32
  }

  function Set<C>(s: Plain<C>, rd: nat, v: nat): Plain<C>
    requires Valid(s)
  {
    if rd < 32 then s.(regs := s.regs[rd := v]) else s
  }

  function StoredByte(ops: Ops, mem: seq<nat>, at: nat, v: nat, n: nat, i: nat): nat
    requires i < |mem|
  {
    if at <= i < at + n then ops.byte(v, i - at) else mem[i]
  }

  function StoreBytes(ops: Ops, mem: seq<nat>, at: nat, v: nat, n: nat): (r: seq<nat>)
    ensures |r| == |mem|
  {
    seq(|mem|, (i: nat) requires i < |mem| => StoredByte(ops, mem, at, v, n, i))
  }

  /** Division and remainder with the results the manual gives for a zero divisor. */
  function Divided(ops: Ops, d: DivOp, x: nat, y: nat): nat {
    if y != 0 then ops.div(d, x, y)
    else if d.DIV? || d.DIVU? then WORDS - 1 else x
  }

  type Out<C> = Effect<C, nat, ()>

  function Ok<C>(s: Plain<C>): Out<C> {
    Done(s, [])
  }

  function LoadFrom<C>(sys: Sys<C>, ops: Ops, s: Plain<C>, rd: nat, l: LoadOp, a: nat): Out<C>
    requires Valid(s)
  {
    if a % LoadSize(l) != 0 then Trap(EXC_LOAD_ADDR_MISALIGNED, a)
    else match Route(sys.port, a, LoadSize(l), |s.mem|)
         case Miss(t) => Trap(EXC_LOAD_PAGE_FAULT, t)
         case Hit(m) => Ok(Set(s, rd, ops.load(l, s.mem[m..m + LoadSize(l)])))
  }

  function StoreTo<C>(sys: Sys<C>, ops: Ops, s: Plain<C>, st: StoreOp, a: nat, v: nat): Out<C> {
    if a % StoreSize(st) != 0 then Trap(EXC_STORE_AMO_ADDR_MISALIGNED, a)
    else match Route(sys.port, a, StoreSize(st), |s.mem|)
         case Miss(t) => Trap(EXC_STORE_AMO_PAGE_FAULT, t)
         case Hit(m) => Ok(s.(mem := StoreBytes(ops, s.mem, m, v, StoreSize(st))))
  }

  function AmoAt<C>(sys: Sys<C>, ops: Ops, s: Plain<C>, rd: nat, o: AmoOp, a: nat, v: nat): Out<C>
    requires Valid(s)
  {
    if a % 4 != 0 then Trap(EXC_STORE_AMO_ADDR_MISALIGNED, a)
    else match Route(sys.port, a, 4, |s.mem|)
         case Miss(t) => Trap(EXC_LOAD_PAGE_FAULT, t)
         case Hit(m) =>
           var was := ops.load(LW, s.mem[m..m + 4]);
           Ok(Set(s.(mem := StoreBytes(ops, s.mem, m, ops.amo(o, was, v), 4)), rd, was))
  }

  function Exec<C>(sys: Sys<C>, ops: Ops, s: Plain<C>, i: Instr): Out<C>
    requires Valid(s)
  {
    var next := s.(pc := U32(s.pc + i.size));
    var x, y := s.regs[i.rs1], s.regs[i.rs2];
    match i.op
    case UNDEF => Trap(EXC_ILLEGAL_INSTR, i.raw)
    case LUI => Ok(Set(next, i.rd, i.imm))
    case AUIPC => Ok(Set(next, i.rd, U32(s.pc + i.imm)))
    case JAL => Ok(Set(next.(pc := U32(s.pc + i.imm)), i.rd, next.pc))
    case JALR => Ok(Set(next.(pc := U32(x + i.imm) / 2 * 2), i.rd, next.pc))
    case Branch(b) => Ok(if ops.branch(b, x, y) then next.(pc := U32(s.pc + i.imm)) else next)
    case Load(l) =>
      LoadFrom(sys, ops, next, i.rd, l, U32(x + i.imm))
    case Store(st) =>
      StoreTo(sys, ops, next, st, U32(x + i.imm), y)
    case OpImm(a) => Ok(Set(next, i.rd, ops.alu(a, x, i.imm)))
    case Op(a) => Ok(Set(next, i.rd, ops.alu(a, x, if a in {SLL, SRL, SRA} then y % 32 else y)))
    case Mul(m) => Ok(Set(next, i.rd, ops.mul(m, x, y)))
    case Div(d) =>
      Ok(Set(next, i.rd, Divided(ops, d, x, y)))
    case Amo(o) =>
      AmoAt(sys, ops, next, i.rd, o, x, y)
    case Csr(k) =>
      (match sys.csr(s.ctl, i, if k in {CSRRW, CSRRS, CSRRC} then x else i.zimm)
       case CsrIllegal => Trap(EXC_ILLEGAL_INSTR, i.raw)
       case CsrOk(c, v, w) => Ok(if w then Set(next.(ctl := c), i.rd, U32(v)) else next.(ctl := c)))
    case FENCE => Ok(next)
    case ECALL => Trap(sys.ecall(s.ctl), s.pc)
    case EBREAK => Ok(next.(status := HitBreakpoint))
    case MRET => var r := sys.mret(s.ctl); Ok(next.(ctl := r.ctl, pc := r.pc))
    case WFI => if sys.wfiIllegal(s.ctl) then Trap(EXC_ILLEGAL_INSTR, i.raw) else Ok(next)
    case Unsupported(_) => Ok(next.(status := Aborted))
  }

  function FetchWord(b: seq<nat>): nat
    requires |b| == 4
  {
    b[0] + 0x100 * b[1] + 0x1_0000 * b[2] + 0x100_0000 * b[3]
  }

  function FetchExec<C>(sys: Sys<C>, ops: Ops, s: Plain<C>): Out<C>
    requires Valid(s)
  {
    match Route(sys.port, s.pc, 4, |s.mem|)
    case Miss(t) => Trap(EXC_LOAD_PAGE_FAULT, t)
    case Hit(m) =>
      Exec(sys, ops, s, sys.decode(FetchWord(s.mem[m..m + 4])))
  }

  /** One step: interrupt lines change, one instruction executes, then a trap or an interrupt is taken. */
  function Step<C>(sys: Sys<C>, ops: Ops, s0: Plain<C>, arrive: C -> C): (r: Plain<C>)
    requires Valid(s0)
    ensures Valid(r) && r.regs[0] == 0
  {
    var s := s0.(ctl := arrive(s0.ctl));
    match FetchExec(sys, ops, s)
    case Done(t, _) =>
      var r := sys.interrupt(t.ctl, t.pc);
      t.(regs := t.regs[0 := 0], ctl := r.ctl, pc := r.pc)
    case Trap(cause, tval) =>
      var r := sys.trap(s.ctl, s.pc, cause, tval);
      s.(regs := s.regs[0 := 0], ctl := r.ctl, pc := r.pc)
  }

  /** Steps until the status is no longer runnable or the arrivals are used up. */
  function Run<C>(sys: Sys<C>, ops: Ops, s: Plain<C>, arrivals: seq<C -> C>): (r: Plain<C>)
    requires Valid(s)
    ensures Valid(r)
    decreases |arrivals|
  {
    if arrivals == [] || !s.status.Runnable? then s
    else Run(sys, ops, Step(sys, ops, s, arrivals[0]), arrivals[1..])
  }

  /** The program counters at the step boundaries of a run, the first one included. */
  function Pcs<C>(sys: Sys<C>, ops: Ops, s: Plain<C>, arrivals: seq<C -> C>): seq<Addr>
    requires Valid(s)
    decreases |arrivals|
  {
    [s.pc] + if arrivals == [] || !s.status.Runnable? then []
             else Pcs(sys, ops, Step(sys, ops, s, arrivals[0]), arrivals[1..])
  }
}
