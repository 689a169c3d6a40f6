/** What holds at every step boundary of every run: x0 is zero, the pc is even, the control part is sound. */
module Reachable {
  import opened Isa
  import S = ConcolicIss

  /** Trap entry, interrupts, returns and CSR accesses keep `inv` and lead to even addresses. */
  ghost predicate ControlKeeps<C(!new)>(sys: Sys<C>, inv: C -> bool) {
    && (forall c, pc: Addr, cause, tval :: inv(c) && pc % 2 == 0 ==>
          inv(sys.trap(c, pc, cause, tval).ctl) && sys.trap(c, pc, cause, tval).pc % 2 == 0)
    && (forall c, pc: Addr :: inv(c) && pc % 2 == 0 ==>
          inv(sys.interrupt(c, pc).ctl) && sys.interrupt(c, pc).pc % 2 == 0)
    && (forall c, i, v :: inv(c) && sys.csr(c, i, v).CsrOk? ==> inv(sys.csr(c, i, v).ctl))
    && (forall c :: inv(c) ==> inv(sys.mret(c).ctl) && sys.mret(c).pc % 2 == 0)
  }

  /** Branch and jump offsets are even. */
  ghost predicate EvenOffsets<C>(sys: Sys<C>) {
    forall w :: var i := sys.decode(w); i.op.Branch? || i.op.JAL? ==> i.imm % 2 == 0
  }

  /** Writing zero to a register leaves a zero there. */
  predicate WritesZero<V>(ops: S.Ops<V>) {
    var z := ops.toReg(ops.lit(0));
    z.Some? && ops.concrete(z.value) == 0
  }

  predicate Boundary<C, V>(ops: S.Ops<V>, inv: C -> bool, s: S.Sim<C, V>) {
    S.Valid(s) && ops.concrete(s.regs[0]) == 0 && s.pc % 2 == 0 && inv(s.ctl)
  }

  lemma EvenSum(pc: nat, off: nat)
    requires pc % 2 == 0 && off % 2 == 0
    ensures S.Next(pc, off) % 2 == 0
  {
  }

  predicate Midway<C, V>(inv: C -> bool, o: S.Out<C, V>) {
    o.Done? ==> o.next.pc % 2 == 0 && inv(o.next.ctl)
  }

  predicate Jumps(i: Instr) {
    i.op.Branch? || i.op.JAL? || i.op.JALR?
  }

  predicate Controls(i: Instr) {
    i.op.MRET? || i.op.Csr?
  }

  lemma JumpKeeps<C, V>(sys: Sys<C>, ops: S.Ops<V>, inv: C -> bool, s: S.Sim<C, V>, i: Instr)
    requires S.Valid(s) && s.pc % 2 == 0 && inv(s.ctl) && Jumps(i)
    requires i.op.Branch? || i.op.JAL? ==> i.imm % 2 == 0
    ensures Midway(inv, S.Exec(sys, ops, s, i))
  {
    EvenSum(s.pc, i.size);
    if i.op.Branch? || i.op.JAL? {
      EvenSum(s.pc, i.imm);
    }
  }

  lemma ControlsKeep<C(!new), V>(sys: Sys<C>, ops: S.Ops<V>, inv: C -> bool, s: S.Sim<C, V>, i: Instr)
    requires ControlKeeps(sys, inv) && S.Valid(s) && s.pc % 2 == 0 && inv(s.ctl) && Controls(i)
    ensures Midway(inv, S.Exec(sys, ops, s, i))
  {
    EvenSum(s.pc, i.size);
  }

  lemma StraightKeeps<C, V>(sys: Sys<C>, ops: S.Ops<V>, inv: C -> bool, s: S.Sim<C, V>, i: Instr)
    requires S.Valid(s) && s.pc % 2 == 0 && inv(s.ctl) && !Jumps(i) && !Controls(i)
    ensures Midway(inv, S.Exec(sys, ops, s, i))
  {
    EvenSum(s.pc, i.size);
  }

  lemma ExecKeeps<C(!new), V>(sys: Sys<C>, ops: S.Ops<V>, inv: C -> bool, s: S.Sim<C, V>, i: Instr)
    requires ControlKeeps(sys, inv) && S.Valid(s) && s.pc % 2 == 0 && inv(s.ctl)
    requires i.op.Branch? || i.op.JAL? ==> i.imm % 2 == 0
    ensures Midway(inv, S.Exec(sys, ops, s, i))
  {
    if Jumps(i) {
      JumpKeeps(sys, ops, inv, s, i);
    } else if Controls(i) {
      ControlsKeep(sys, ops, inv, s, i);
    } else {
      StraightKeeps(sys, ops, inv, s, i);
    }
  }

  lemma FetchKeeps<C(!new), V>(sys: Sys<C>, ops: S.Ops<V>, inv: C -> bool, s: S.Sim<C, V>)
    requires ControlKeeps(sys, inv) && EvenOffsets(sys) && S.Valid(s) && s.pc % 2 == 0 && inv(s.ctl)
    ensures Midway(inv, S.FetchExec(sys, ops, s))
  {
    match Route(sys.port, s.pc, 4, |s.mem|)
    case Miss(_) =>
    case Hit(m) => ExecKeeps(sys, ops, inv, s, sys.decode(S.FetchWord(ops, s.mem[m..m + 4])));
  }

  lemma FinishKeeps<C(!new), V>(sys: Sys<C>, ops: S.Ops<V>, inv: C -> bool, s: S.Sim<C, V>, o: S.Out<C, V>)
    requires ControlKeeps(sys, inv) && WritesZero(ops) && S.Valid(s) && s.pc % 2 == 0 && inv(s.ctl)
    requires Midway(inv, o) && (o.Done? ==> S.Valid(o.next))
    ensures Boundary(ops, inv, S.Finish(sys, ops, s, o).next)
  {
  }

  lemma StepKeeps<C(!new), V>(sys: Sys<C>, ops: S.Ops<V>, inv: C -> bool, s: S.Sim<C, V>, arrive: C -> C)
    requires ControlKeeps(sys, inv) && EvenOffsets(sys) && WritesZero(ops)
    requires Boundary(ops, inv, s) && inv(arrive(s.ctl))
    ensures Boundary(ops, inv, S.Step(sys, ops, s, arrive).next)
  {
    var s1 := s.(ctl := arrive(s.ctl));
    FetchKeeps(sys, ops, inv, s1);
    FinishKeeps(sys, ops, inv, s1, S.FetchExec(sys, ops, s1));
  }

  ghost predicate ArrivalsKeep<C(!new)>(inv: C -> bool, arrivals: seq<C -> C>) {
    forall a, c :: a in arrivals && inv(c) ==> inv(a(c))
  }

  /** Every state a run reaches is a boundary state. */
  lemma {:induction false} RunKeeps<C(!new), V>(
    sys: Sys<C>, ops: S.Ops<V>, inv: C -> bool, s: S.Sim<C, V>, arrivals: seq<C -> C>)
    requires ControlKeeps(sys, inv) && EvenOffsets(sys) && WritesZero(ops)
    requires Boundary(ops, inv, s) && ArrivalsKeep(inv, arrivals)
    ensures Boundary(ops, inv, S.Run(sys, ops, s, arrivals).next)
    decreases |arrivals|
  {
    if arrivals != [] && s.status.Runnable? {
      var a := arrivals[0];
      assert a in arrivals;
      StepKeeps(sys, ops, inv, s, a);
      RunKeeps(sys, ops, inv, S.Step(sys, ops, s, a).next, arrivals[1..]);
    }
  }
}
