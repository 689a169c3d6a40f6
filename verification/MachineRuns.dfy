/** Runs of the whole machine: on the platform's hart no trap or interrupt of a run lowers the privilege. */
module MachineRuns {
  import opened Isa
  import opened Csr
  import opened Trap
  import opened TrapTheorems
  import opened ControlRuns
  import Platform
  import R = Reachable
  import S = ConcolicIss

  /** At every step of the run `p` holds of the control part and of the outcome of the instruction. */
  ghost predicate Along<C, V>(
    sys: Sys<C>, ops: S.Ops<V>, s: S.Sim<C, V>, arrivals: seq<C -> C>, p: (C, S.Out<C, V>) -> bool)
    requires S.Valid(s)
    decreases |arrivals|
  {
    arrivals != [] && s.status.Runnable? ==>
      && p(arrivals[0](s.ctl), S.FetchExec(sys, ops, s.(ctl := arrivals[0](s.ctl))))
      && Along(sys, ops, S.Step(sys, ops, s, arrivals[0]).next, arrivals[1..], p)
  }

  /** The instruction does not leave the reserved encoding in MPP. */
  predicate NoReserved<V>(c: Ctl, o: S.Out<Ctl, V>) {
    o.Done? ==> o.next.ctl.csrs.mstatus.mpp != 2
  }

  /**
    The trap of the step, or the interrupt taken after it, goes to a mode not below the
    interrupted one, and the assertion of `prepare_trap` holds.
   */
  predicate Upward<V>(c: Ctl, o: S.Out<Ctl, V>) {
    match o
    case Done(t, _) =>
      var x := ComputePending(t.ctl); x.Pending? ==> Level(x.mode) >= t.ctl.prv
    case Trap(cause, _) => !TrapStops(c, cause) && Level(TrapTarget(c, cause)) >= c.prv
  }

  // ----- what an instruction does to the control part -----

  /** The control part is left alone, or changed by a CSR access or by a return. */
  ghost predicate Changes<C(!new)>(sys: Sys<C>, rel: (C, C) -> bool, c: C) {
    && rel(c, c) && rel(c, sys.mret(c).ctl)
    && (forall i: Instr, v: nat :: sys.csr(c, i, v).CsrOk? ==> rel(c, sys.csr(c, i, v).ctl))
  }

  predicate Related<C, V>(rel: (C, C) -> bool, c: C, o: S.Out<C, V>) {
    o.Done? ==> rel(c, o.next.ctl)
  }

  lemma ExecRelates<C(!new), V>(sys: Sys<C>, ops: S.Ops<V>, rel: (C, C) -> bool, s: S.Sim<C, V>, i: Instr)
    requires S.Valid(s) && Changes(sys, rel, s.ctl)
    ensures Related(rel, s.ctl, S.Exec(sys, ops, s, i))
  {
  }

  lemma FetchRelates<C(!new), V>(sys: Sys<C>, ops: S.Ops<V>, rel: (C, C) -> bool, s: S.Sim<C, V>)
    requires S.Valid(s) && Changes(sys, rel, s.ctl)
    ensures Related(rel, s.ctl, S.FetchExec(sys, ops, s))
  {
    match Route(sys.port, s.pc, 4, |s.mem|)
    case Miss(_) =>
    case Hit(m) => ExecRelates(sys, ops, rel, s, sys.decode(S.FetchWord(ops, s.mem[m..m + 4])));
  }

  /** From a proper state the privilege level stays proper. */
  predicate ProperLevel(c: Ctl, d: Ctl) {
    Proper(c) ==> d.prv != 2
  }

  lemma AccessKeepsLevel(c: Ctl, op: CsrOp, a: nat, rd: nat, source: nat, operand: Addr)
    requires CsrAccess(c, op, a, rd, source, operand).CsrOk?
    ensures CsrAccess(c, op, a, rd, source, operand).ctl.prv == c.prv
  {
  }

  lemma HartChanges(port: Port, c: Ctl)
    ensures Changes(Platform.Hart(port), ProperLevel, c)
  {
    var sys := Platform.Hart(port);
    forall i: Instr, v: nat | sys.csr(c, i, v).CsrOk?
      ensures ProperLevel(c, sys.csr(c, i, v).ctl)
    {
      var source := if i.op.csr in {CSRRS, CSRRC} then i.rs1 else i.zimm;
      AccessKeepsLevel(c, i.op.csr, i.csr, i.rd, source, v % WORDS);
    }
  }

  // ----- the steps of a run -----

  lemma ProperUpward<V>(c: Ctl, o: S.Out<Ctl, V>)
    requires Proper(c) && (o.Done? ==> Proper(o.next.ctl))
    ensures Upward(c, o)
  {
    match o
    case Done(t, _) => if ComputePending(t.ctl).Pending? { InterruptNotBelow(t.ctl); }
    case Trap(cause, _) => TrapNotBelow(c, cause);
  }

  lemma RetiredProper(r: Redirect<Ctl>)
    requires Proper(r.ctl)
    ensures Proper(Platform.Retired(r).ctl)
  {
  }

  lemma FinishProper<V>(port: Port, ops: S.Ops<V>, s: S.Sim<Ctl, V>, o: S.Out<Ctl, V>)
    requires S.Valid(s) && Proper(s.ctl) && (o.Done? ==> S.Valid(o.next) && Proper(o.next.ctl))
    ensures Proper(S.Finish(Platform.Hart(port), ops, s, o).next.ctl)
  {
    match o
    case Done(t, _) =>
      InterruptedProper(t.ctl, t.pc);
      RetiredProper(Interrupted(t.ctl, t.pc));
    case Trap(cause, tval) =>
      TrappedProper(s.ctl, s.pc, cause, tval);
      RetiredProper(Trapped(s.ctl, s.pc, cause, tval));
  }

  /**
    In every run of the machine whose instructions never leave the reserved value in MPP, each
    trap and each interrupt goes to a mode not below the one it interrupts.
   */
  lemma {:induction false} MachineNeverBelow<V>(port: Port, ops: S.Ops<V>, s: S.Sim<Ctl, V>, arrivals: seq<Ctl -> Ctl>)
    requires S.Valid(s) && Proper(s.ctl) && R.ArrivalsKeep(Proper, arrivals)
    requires Along(Platform.Hart(port), ops, s, arrivals, NoReserved)
    ensures Along(Platform.Hart(port), ops, s, arrivals, Upward)
    decreases |arrivals|
  {
    if arrivals != [] && s.status.Runnable? {
      var sys, a := Platform.Hart(port), arrivals[0];
      assert a in arrivals;
      var s1 := s.(ctl := a(s.ctl));
      var o := S.FetchExec(sys, ops, s1);
      HartChanges(port, s1.ctl);
      FetchRelates(sys, ops, ProperLevel, s1);
      ProperUpward(s1.ctl, o);
      FinishProper(port, ops, s1, o);
      MachineNeverBelow(port, ops, S.Step(sys, ops, s, a).next, arrivals[1..]);
    }
  }
}
