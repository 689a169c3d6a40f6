/**
  The simulator's step, with the branch trace it records. The simulator computes on values of
  a solver library; `Ops` lists what it asks of such a value, and `V` stands for the value type.
 */
module ConcolicIss {
  import opened Isa

  datatype Ops<!V> = Ops(
    concrete: V -> nat,                      // the concrete part as an unsigned number
    symbolic: V -> bool,                     // is there a symbolic part
    lit: nat -> V,                           // a 32-bit constant
    toReg: V -> Option<V>,                   // what RegFile::write stores, if anything
    alu: (AluOp, V, V) -> V,
    shamt: V -> V,
    mul: (MulOp, V, V) -> V,
    div: (DivOp, V, V) -> V,
    branch: (BranchOp, V, V) -> V,
    isZero: V -> V,
    amo: (AmoOp, V, V) -> V,
    load: (LoadOp, seq<V>) -> V,
    byte: (V, nat) -> V)

  type Sim<C, V> = State<C, V>

  /** A recorded branch: the direction taken, its condition and the address of the instruction. */
  datatype BranchRecord<V> = BranchRecord(taken: bool, cond: V, at: nat)

  predicate Valid<C, V>(s: Sim<C, V>) {
    |s.regs| == 32
  }

  function WriteReg<V>(ops: Ops<V>, regs: seq<V>, i: nat, v: V): (r: seq<V>)
    requires i < |regs|
    ensures |r| == |regs|
  {
    match ops.toReg(v)
    case Some(u) => regs[i := u]
    case None => regs
  }

  function Set<C, V>(ops: Ops<V>, s: Sim<C, V>, rd: nat, v: V): Sim<C, V>
    requires Valid(s) && rd < 32
  {
    s.(regs := WriteReg(ops, s.regs, rd, v))
  }

  /** `track_and_trace_branch`: only conditions with a symbolic part are recorded. */
  function Track<V>(ops: Ops<V>, taken: bool, cond: V, at: nat): seq<BranchRecord<V>> {
    if ops.symbolic(cond) then [BranchRecord(taken, cond, at)] else []
  }

  function StoreBytes<V>(ops: Ops<V>, mem: seq<V>, at: nat, v: V, n: nat): (r: seq<V>)
    ensures |r| == |mem|
  {
    seq(|mem|, i requires 0 <= i < |mem| => if at <= i < at + n then ops.byte(v, i - at) else mem[i])
  }

  function IsTrue<V>(ops: Ops<V>, v: V): bool {
    ops.concrete(v) != 0
  }

  function Next(pc: nat, off: nat): Addr {
    (pc + off) % WORDS
  }

  type Out<C, V> = Effect<C, V, BranchRecord<V>>

  function Ok<C, V>(s: Sim<C, V>): Out<C, V> {
    Done(s, [])
  }

  // The memory accesses of an instruction, from the state with the pc already moved on.

  function LoadFrom<C, V>(sys: Sys<C>, ops: Ops<V>, s: Sim<C, V>, rd: nat, l: LoadOp, a: nat): Out<C, V>
    requires Valid(s) && rd < 32
  {
    if a % LoadSize(l) != 0 then Trap(EXC_LOAD_ADDR_MISALIGNED, a)
    else match Route(sys.port, a, LoadSize(l), |s.mem|)
         case Miss(t) => Trap(EXC_LOAD_PAGE_FAULT, t)
         case Hit(m) => Ok(Set(ops, s, rd, ops.load(l, s.mem[m..m + LoadSize(l)])))
  }

  function StoreTo<C, V>(sys: Sys<C>, ops: Ops<V>, s: Sim<C, V>, st: StoreOp, a: nat, v: V): Out<C, V> {
    if a % StoreSize(st) != 0 then Trap(EXC_STORE_AMO_ADDR_MISALIGNED, a)
    else match Route(sys.port, a, StoreSize(st), |s.mem|)
         case Miss(t) => Trap(EXC_STORE_AMO_PAGE_FAULT, t)
         case Hit(m) => Ok(s.(mem := StoreBytes(ops, s.mem, m, v, StoreSize(st))))
  }

  function AmoAt<C, V>(sys: Sys<C>, ops: Ops<V>, s: Sim<C, V>, rd: nat, o: AmoOp, a: nat, v: V): Out<C, V>
    requires Valid(s) && rd < 32
  {
    if a % 4 != 0 then Trap(EXC_STORE_AMO_ADDR_MISALIGNED, a)
    else match Route(sys.port, a, 4, |s.mem|)
         case Miss(t) => Trap(EXC_LOAD_PAGE_FAULT, t)
         case Hit(m) =>
           var data := ops.load(LW, s.mem[m..m + 4]);
           Ok(Set(ops, s.(mem := StoreBytes(ops, s.mem, m, ops.amo(o, data, v), 4)), rd, data))
  }

  function Exec<C, V>(sys: Sys<C>, ops: Ops<V>, s: Sim<C, V>, i: Instr): Out<C, V>
    requires Valid(s)
  {
    var next := s.(pc := Next(s.pc, i.size));
    var rs1, rs2 := s.regs[i.rs1], s.regs[i.rs2];
    match i.op
    case UNDEF => Trap(EXC_ILLEGAL_INSTR, i.raw)
    case LUI => Ok(Set(ops, next, i.rd, ops.lit(i.imm)))
    case AUIPC => Ok(Set(ops, next, i.rd, ops.alu(ADD, ops.lit(s.pc), ops.lit(i.imm))))
    case JAL => Ok(Set(ops, next.(pc := Next(s.pc, i.imm)), i.rd, ops.lit(next.pc)))
    case JALR => Ok(Set(ops, next.(pc := Next(ops.concrete(rs1), i.imm) / 2 * 2), i.rd, ops.lit(next.pc)))
    case Branch(b) =>
      var res := ops.branch(b, rs1, rs2);
      Done(if IsTrue(ops, res) then next.(pc := Next(s.pc, i.imm)) else next, Track(ops, IsTrue(ops, res), res, s.pc))
    case Load(l) =>
      LoadFrom(sys, ops, next, i.rd, l, ops.concrete(ops.alu(ADD, rs1, ops.lit(i.imm))))
    case Store(st) =>
      StoreTo(sys, ops, next, st, ops.concrete(ops.alu(ADD, rs1, ops.lit(i.imm))), rs2)
    case OpImm(a) => Ok(Set(ops, next, i.rd, ops.alu(a, rs1, ops.lit(i.imm))))
    case Op(a) => Ok(Set(ops, next, i.rd, ops.alu(a, rs1, if a in {SLL, SRL, SRA} then ops.shamt(rs2) else rs2)))
    case Mul(m) => Ok(Set(ops, next, i.rd, ops.mul(m, rs1, rs2)))
    case Div(d) =>
      var zero := ops.isZero(rs2);
      var ans := if !IsTrue(ops, zero) then ops.div(d, rs1, rs2)
                 else if d.DIV? || d.DIVU? then ops.lit(WORDS - 1) else rs1;
      Done(Set(ops, next, i.rd, ans), Track(ops, IsTrue(ops, zero), zero, s.pc))
    case Amo(o) =>
      AmoAt(sys, ops, next, i.rd, o, ops.concrete(rs1), rs2)
    case Csr(k) =>
      (match sys.csr(s.ctl, i, if k in {CSRRW, CSRRS, CSRRC} then ops.concrete(rs1) else i.zimm)
       case CsrIllegal => Trap(EXC_ILLEGAL_INSTR, i.raw)
       case CsrOk(c, v, w) => Ok(if w then Set(ops, next.(ctl := c), i.rd, ops.lit(v)) else next.(ctl := c)))
    case FENCE => Ok(next)
    case ECALL => Trap(sys.ecall(s.ctl), s.pc)
    case EBREAK => Ok(next.(status := HitBreakpoint))
    case MRET => var r := sys.mret(s.ctl); Ok(next.(ctl := r.ctl, pc := r.pc))
    case WFI => if sys.wfiIllegal(s.ctl) then Trap(EXC_ILLEGAL_INSTR, i.raw) else Ok(next)
    case Unsupported(_) => Ok(next.(status := Aborted))
  }

  /** The concrete bytes of a fetched word, lowest byte first. */
  function FetchWord<V>(ops: Ops<V>, b: seq<V>): nat
    requires |b| == 4
  {
    ops.concrete(b[0]) + 0x100 * ops.concrete(b[1]) + 0x1_0000 * ops.concrete(b[2]) + 0x100_0000 * ops.concrete(b[3])
  }

  function FetchExec<C, V>(sys: Sys<C>, ops: Ops<V>, s: Sim<C, V>): Out<C, V>
    requires Valid(s)
  {
    match Route(sys.port, s.pc, 4, |s.mem|)
    case Miss(t) => Trap(EXC_LOAD_PAGE_FAULT, t)
    case Hit(m) => Exec(sys, ops, s, sys.decode(FetchWord(ops, s.mem[m..m + 4])))
  }

  datatype Stepped<C, V> = Stepped(next: Sim<C, V>, trace: seq<BranchRecord<V>>)

  function Zeroed<V>(ops: Ops<V>, regs: seq<V>): (r: seq<V>)
    requires |regs| == 32
    ensures |r| == 32
  {
    WriteReg(ops, regs, 0, ops.lit(0))
  }

  /** The end of a step: take the trap or a pending interrupt, and reset the zero register. */
  function Finish<C, V>(sys: Sys<C>, ops: Ops<V>, s: Sim<C, V>, o: Out<C, V>): (r: Stepped<C, V>)
    requires Valid(s) && (o.Done? ==> Valid(o.next))
    ensures Valid(r.next)
  {
    match o
    case Done(t, trace) =>
      var r := sys.interrupt(t.ctl, t.pc);
      Stepped(t.(regs := Zeroed(ops, t.regs), ctl := r.ctl, pc := r.pc), trace)
    case Trap(cause, tval) =>
      var r := sys.trap(s.ctl, s.pc, cause, tval);
      Stepped(s.(regs := Zeroed(ops, s.regs), ctl := r.ctl, pc := r.pc), [])
  }

  /** `run_step`: execute one instruction of the hart whose interrupt lines have changed. */
  function Step<C, V>(sys: Sys<C>, ops: Ops<V>, s0: Sim<C, V>, arrive: C -> C): (r: Stepped<C, V>)
    requires Valid(s0)
    ensures Valid(r.next)
  {
    var s := s0.(ctl := arrive(s0.ctl));
    Finish(sys, ops, s, FetchExec(sys, ops, s))
  }

  /** `run`: steps until the status is no longer runnable or the arrivals are used up. */
  function Run<C, V>(sys: Sys<C>, ops: Ops<V>, s: Sim<C, V>, arrivals: seq<C -> C>): (r: Stepped<C, V>)
    requires Valid(s)
    ensures Valid(r.next)
    decreases |arrivals|
  {
    if arrivals == [] || !s.status.Runnable? then Stepped(s, [])
    else
      var one := Step(sys, ops, s, arrivals[0]);
      var rest := Run(sys, ops, one.next, arrivals[1..]);
      Stepped(rest.next, one.trace + rest.trace)
  }

  /** The program counters at the step boundaries of a run, the first one included. */
  function Pcs<C, V>(sys: Sys<C>, ops: Ops<V>, s: Sim<C, V>, arrivals: seq<C -> C>): seq<Addr>
    requires Valid(s)
    decreases |arrivals|
  {
    [s.pc] + if arrivals == [] || !s.status.Runnable? then []
             else Pcs(sys, ops, Step(sys, ops, s, arrivals[0]).next, arrivals[1..])
  }
}
