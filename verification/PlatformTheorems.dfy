/** The platform's hart as software observes it: CSR instructions, gates, call causes and the instruction counter. */
module PlatformTheorems {
  import opened Isa
  import opened Bits
  import opened Csr
  import opened CsrTheorems
  import opened CsrAccesses
  import T = Trap
  import Platform
  import P = PlainIss
  import S = ConcolicIss
  import M = MachineRuns

  // ----- gates and causes -----

  lemma GatesShown(st: Mstatus)
    ensures Pack(st) & MSTATUS_MASK & 0x10_0000 == st.rest & 0x10_0000
    ensures Pack(st) & MSTATUS_MASK & 0x20_0000 == st.rest & 0x20_0000
  {
  }

  lemma GateBits(st: Mstatus, x: bv32)
    requires x == Pack(st) & MSTATUS_MASK
    ensures x & 0x10_0000 == st.rest & 0x10_0000 && x & 0x20_0000 == st.rest & 0x20_0000
  {
    GatesShown(st);
  }

  lemma SatpShown(c: Ctl)
    ensures Shown(c, 0x180).Some? <==> c.csrs.mstatus.rest & TVM == 0
  {
    SimpleShown(c, 0x180);
  }

  /** satp can be read exactly while bit 20 of mstatus, as software sees it, is clear. */
  lemma SatpGate(c: Ctl, x: bv32)
    requires x == Pack(c.csrs.mstatus) & MSTATUS_MASK
    ensures Shown(c, 0x180).Some? <==> x & 0x10_0000 == 0
  {
    GateBits(c.csrs.mstatus, x);
    SatpShown(c);
  }

  /** WFI is illegal in user mode, and in supervisor mode exactly if bit 21 of mstatus is set. */
  lemma WaitGate(c: Ctl, x: bv32)
    requires x == Pack(c.csrs.mstatus) & MSTATUS_MASK
    ensures Platform.WfiIllegal(c) <==> c.prv == 0 || (c.prv == 1 && x & 0x20_0000 != 0)
  {
    GateBits(c.csrs.mstatus, x);
  }

  /** An environment call from a proper level traps with cause 8, 9 or 11 and its own address. */
  lemma CallTraps(port: Port, ops: P.Ops, s: P.Plain<Ctl>, i: Instr)
    requires P.Valid(s) && i.op == ECALL && s.ctl.prv != 2
    ensures P.Exec(Platform.Hart(port), ops, s, i) == Trap(8 + s.ctl.prv, s.pc)
  {
  }

  // ----- CSR instructions of the interpreter -----

  /** The source register's number and value, or the immediate for both; the number means nothing for CSRRW. */
  predicate Sources(s: P.Plain<Ctl>, i: Instr, source: nat, operand: nat)
    requires P.Valid(s) && i.op.Csr?
  {
    && source == (if i.op.csr in {CSRRS, CSRRC} then i.rs1 else i.zimm)
    && operand == if i.op.csr in {CSRRW, CSRRS, CSRRC} then s.regs[i.rs1] else i.zimm
  }

  /** Where the result of a CSR access goes. */
  function Outcome<C>(s: P.Plain<C>, i: Instr, x: CsrResult<C>): P.Out<C>
    requires P.Valid(s)
  {
    match x
    case CsrIllegal => Trap(2, i.raw)
    case CsrOk(c, v, w) =>
      Done(s.(pc := (s.pc + i.size) % WORDS, ctl := c, regs := if w then s.regs[i.rd := v % WORDS] else s.regs), [])
  }

  lemma ExecCsr<C>(sys: Sys<C>, ops: P.Ops, s: P.Plain<C>, i: Instr, operand: nat)
    requires P.Valid(s) && i.op.Csr?
    requires operand == if i.op.csr in {CSRRW, CSRRS, CSRRC} then s.regs[i.rs1] else i.zimm
    ensures P.Exec(sys, ops, s, i) == Outcome(s, i, sys.csr(s.ctl, i, operand))
  {
  }

  lemma HartCsr(port: Port, c: Ctl, i: Instr, operand: nat)
    ensures Platform.Hart(port).csr(c, i, operand) == Platform.CsrInstr(c, i, operand)
  {
  }

  lemma InstrIsAccess(c: Ctl, i: Instr, source: nat, operand: Addr)
    requires i.op.Csr? && source == if i.op.csr in {CSRRS, CSRRC} then i.rs1 else i.zimm
    ensures Platform.CsrInstr(c, i, operand) == CsrAccess(c, i.op.csr, i.csr, i.rd, source, operand)
  {
    assert operand % WORDS == operand;
  }

  /** What a CSR access gives reaches registers and control part; a refused one is an illegal instruction. */
  lemma AccessExecuted(port: Port, ops: P.Ops, s: P.Plain<Ctl>, i: Instr, source: nat, operand: Addr, x: CsrResult<Ctl>)
    requires P.Valid(s) && i.op.Csr? && Sources(s, i, source, operand)
    requires x == CsrAccess(s.ctl, i.op.csr, i.csr, i.rd, source, operand)
    ensures P.Exec(Platform.Hart(port), ops, s, i) == Outcome(s, i, x)
  {
    ExecCsr(Platform.Hart(port), ops, s, i, operand);
    HartCsr(port, s.ctl, i, operand);
    InstrIsAccess(s.ctl, i, source, operand);
  }

  lemma WholeWritable(a: nat)
    requires Whole(a)
    ensures a / 0x400 % 4 != 3 && Simple(a) && (InBank(a) || OwnWhole(a))
  {
  }

  lemma OwnReadable(r: Csrs, a: nat)
    requires OwnWhole(a)
    ensures ReadRegister(r, a).Some?
  {
    OwnIsPlain(a);
    OwnRead(r, a);
  }

  lemma BankReadable(r: Csrs, a: nat)
    requires InBank(a)
    ensures ReadRegister(r, a).Some?
  {
    BankNotWord(a);
    BankRead(r, a);
  }

  lemma WholeReadable(c: Ctl, a: nat)
    requires Whole(a)
    ensures Get(c, a).Some? && a / 0x400 % 4 != 3
  {
    WholeWritable(a);
    if InBank(a) {
      BankReadable(c.csrs, a);
    } else {
      OwnReadable(c.csrs, a);
    }
    SimpleShown(c, a);
  }

  lemma SwapResult(c: Ctl, op: CsrOp, a: nat, rd: nat, source: nat, operand: Addr, x: CsrResult<Ctl>)
    requires Swaps(op) && Whole(a) && a / 0x100 % 4 <= c.prv
    requires x == CsrAccess(c, op, a, rd, source, operand)
    ensures x.CsrOk? && x.writeRd == (rd != 0) && (rd != 0 ==> Shown(c, a) == Some(x.value))
    ensures Shown(x.ctl, a) == Some(operand)
  {
    WholeReadable(c, a);
    AccessSucceeds(c, op, a, rd, source, operand);
    AccessReturns(c, op, a, rd, source, operand);
    SwapWhole(c, op, a, rd, source, operand);
  }

  lemma SwapOutcome(s: P.Plain<Ctl>, i: Instr, x: CsrResult<Ctl>, was: Option<Addr>, o: P.Out<Ctl>)
    requires P.Valid(s) && o == Outcome(s, i, x)
    requires x.CsrOk? && x.writeRd == (i.rd != 0) && (i.rd != 0 ==> was == Some(x.value))
    ensures o.Done? && o.next.pc == (s.pc + i.size) % WORDS && o.next.mem == s.mem && o.next.ctl == x.ctl
    ensures if i.rd == 0 then o.next.regs == s.regs else was.Some? && o.next.regs == s.regs[i.rd := was.value]
  {
  }

  /** CSRRW and CSRRWI: rd takes what the register showed, and the register takes rs1 or the immediate. */
  lemma SwapExecuted(
    port: Port, ops: P.Ops, s: P.Plain<Ctl>, i: Instr, operand: Addr, was: Option<Addr>, o: P.Out<Ctl>)
    requires P.Valid(s) && i.op.Csr? && Swaps(i.op.csr) && Whole(i.csr) && i.csr / 0x100 % 4 <= s.ctl.prv
    requires operand == if i.op.csr == CSRRW then s.regs[i.rs1] else i.zimm
    requires was == Shown(s.ctl, i.csr) && o == P.Exec(Platform.Hart(port), ops, s, i)
    ensures o.Done? && o.next.pc == (s.pc + i.size) % WORDS && o.next.mem == s.mem
    ensures Shown(o.next.ctl, i.csr) == Some(operand)
    ensures if i.rd == 0 then o.next.regs == s.regs else was.Some? && o.next.regs == s.regs[i.rd := was.value]
  {
    var x := CsrAccess(s.ctl, i.op.csr, i.csr, i.rd, i.zimm, operand);
    AccessExecuted(port, ops, s, i, i.zimm, operand, x);
    SwapResult(s.ctl, i.op.csr, i.csr, i.rd, i.zimm, operand, x);
    SwapOutcome(s, i, x, was, o);
  }

  lemma ReadResult(c: Ctl, op: CsrOp, a: nat, rd: nat, operand: Addr, x: CsrResult<Ctl>)
    requires !Swaps(op) && a < 0x1000 && x == CsrAccess(c, op, a, rd, 0, operand)
    ensures x.CsrOk? <==> a / 0x100 % 4 <= c.prv && Get(c, a).Some?
    ensures x.CsrOk? ==> x.ctl == Clocked(c, a)
  {
    AccessSucceeds(c, op, a, rd, 0, operand);
  }

  /** CSRRS and CSRRC from x0, and their immediate forms with zero, read without writing. */
  lemma ReadExecuted(port: Port, ops: P.Ops, s: P.Plain<Ctl>, i: Instr, operand: Addr, o: P.Out<Ctl>)
    requires P.Valid(s) && i.op.Csr? && !Swaps(i.op.csr) && i.csr < 0x1000 && Sources(s, i, 0, operand)
    requires o == P.Exec(Platform.Hart(port), ops, s, i)
    ensures o.Done? <==> i.csr / 0x100 % 4 <= s.ctl.prv && Get(s.ctl, i.csr).Some?
    ensures if o.Done? then o.next.ctl == Clocked(s.ctl, i.csr) else o == Trap(2, i.raw)
  {
    var x := CsrAccess(s.ctl, i.op.csr, i.csr, i.rd, 0, operand);
    AccessExecuted(port, ops, s, i, 0, operand, x);
    ReadResult(s.ctl, i.op.csr, i.csr, i.rd, operand, x);
  }

  // ----- the instruction counter over a run -----

  /** minstret has advanced by `n` from one control part to the other, unless bit 2 of mcountinhibit is set. */
  predicate Advanced(c: Ctl, d: Ctl, n: nat) {
    && d.csrs.words.inhibit == c.csrs.words.inhibit
    && d.csrs.instret ==
       if c.csrs.words.inhibit & 4 != 0 then c.csrs.instret else (c.csrs.instret + n) % 0x1_0000_0000_0000_0000
  }

  predicate CounterKept(c: Ctl, d: Ctl) {
    d.csrs.instret == c.csrs.instret && d.csrs.words.inhibit == c.csrs.words.inhibit
  }

  /** The instruction writes neither minstret nor mcountinhibit. */
  predicate LeavesCounter<V>(c: Ctl, o: S.Out<Ctl, V>) {
    o.Done? ==> CounterKept(c, o.next.ctl)
  }

  lemma EnteredKeeps(c: Ctl, pc: Addr, m: T.Mode)
    ensures CounterKept(c, T.Entered(c, pc, m).ctl)
  {
    match m case M => case S => case U =>
  }

  lemma CauseKeeps(c: Ctl, m: T.Mode, cause: Addr, tval: Addr, q: T.Irq)
    ensures CounterKept(c, T.WithCause(c, m, cause, tval)) && CounterKept(c, T.WithIrq(c, m, q))
  {
    match m case M => case S => case U =>
  }

  lemma TrappedKeeps(c: Ctl, pc: Addr, cause: nat, tval: nat)
    ensures CounterKept(c, T.Trapped(c, pc, cause, tval).ctl)
  {
    var m := T.TrapTarget(c, cause);
    CauseKeeps(c, m, cause % T.INTERRUPT, tval % WORDS, T.MEI);
    EnteredKeeps(T.WithCause(c, m, cause % T.INTERRUPT, tval % WORDS), pc, m);
  }

  lemma InterruptedKeeps(c: Ctl, pc: Addr)
    ensures CounterKept(c, T.Interrupted(c, pc).ctl)
  {
    match T.ChoiceOf(T.ComputePending(c))
    case None =>
    case Some(k) =>
      CauseKeeps(c, k.mode, 0, 0, k.irq);
      EnteredKeeps(T.WithIrq(c, k.mode, k.irq), pc, k.mode);
  }

  lemma RetiredAdvances(c: Ctl, r: Redirect<Ctl>)
    requires CounterKept(c, r.ctl) && c.csrs.instret < 0x1_0000_0000_0000_0000
    ensures Advanced(c, Platform.Retired(r).ctl, 1)
  {
  }

  lemma FinishAdvances<V>(port: Port, ops: S.Ops<V>, s: S.Sim<Ctl, V>, o: S.Out<Ctl, V>)
    requires S.Valid(s) && (o.Done? ==> S.Valid(o.next)) && LeavesCounter(s.ctl, o)
    requires s.ctl.csrs.instret < 0x1_0000_0000_0000_0000
    ensures Advanced(s.ctl, S.Finish(Platform.Hart(port), ops, s, o).next.ctl, 1)
  {
    match o
    case Done(t, _) =>
      InterruptedKeeps(t.ctl, t.pc);
      RetiredAdvances(s.ctl, T.Interrupted(t.ctl, t.pc));
    case Trap(cause, tval) =>
      TrappedKeeps(s.ctl, s.pc, cause, tval);
      RetiredAdvances(s.ctl, T.Trapped(s.ctl, s.pc, cause, tval));
  }

  lemma WrapsOnce(x: nat, n: nat, m: nat)
    requires m > 0
    ensures ((x + 1) % m + n) % m == (x + (n + 1)) % m
  {
    var y := (x + 1) % m + n;
    DivModUnique(x + n + 1, m, (x + 1) / m + y / m, y % m);
  }

  lemma AdvancedAdds(c: Ctl, d: Ctl, e: Ctl, n: nat)
    requires Advanced(c, d, 1) && Advanced(d, e, n)
    ensures Advanced(c, e, n + 1)
  {
    WrapsOnce(c.csrs.instret, n, 0x1_0000_0000_0000_0000);
  }

  /** Signals on the interrupt lines leave the counter alone. */
  ghost predicate ArrivalsLeave(arrivals: seq<Ctl -> Ctl>) {
    forall a, c :: a in arrivals ==> CounterKept(c, a(c))
  }

  lemma RunUnfolds<V>(sys: Sys<Ctl>, ops: S.Ops<V>, s: S.Sim<Ctl, V>, arrivals: seq<Ctl -> Ctl>)
    requires S.Valid(s) && arrivals != [] && s.status.Runnable?
    ensures var t, rest := S.Step(sys, ops, s, arrivals[0]).next, arrivals[1..];
            && S.Run(sys, ops, s, arrivals).next == S.Run(sys, ops, t, rest).next
            && |S.Pcs(sys, ops, s, arrivals)| == 1 + |S.Pcs(sys, ops, t, rest)| > 1
  {
  }

  ghost predicate StepsCount<V(!new)>(sys: Sys<Ctl>, ops: S.Ops<V>) {
    forall s: S.Sim<Ctl, V>, o: S.Out<Ctl, V> ::
      S.Valid(s) && (o.Done? ==> S.Valid(o.next)) && LeavesCounter(s.ctl, o)
      && s.ctl.csrs.instret < 0x1_0000_0000_0000_0000 ==>
        Advanced(s.ctl, S.Finish(sys, ops, s, o).next.ctl, 1)
  }

  lemma {:induction false} RunCounts<V(!new)>(
    sys: Sys<Ctl>, ops: S.Ops<V>, s: S.Sim<Ctl, V>, arrivals: seq<Ctl -> Ctl>)
    requires S.Valid(s) && s.ctl.csrs.instret < 0x1_0000_0000_0000_0000 && ArrivalsLeave(arrivals)
    requires StepsCount(sys, ops) && M.Along(sys, ops, s, arrivals, LeavesCounter)
    ensures Advanced(s.ctl, S.Run(sys, ops, s, arrivals).next.ctl, |S.Pcs(sys, ops, s, arrivals)| - 1)
    decreases |arrivals|
  {
    if arrivals != [] && s.status.Runnable? {
      var a, rest := arrivals[0], arrivals[1..];
      assert a in arrivals;
      var t := S.Step(sys, ops, s, a).next;
      var s1 := s.(ctl := a(s.ctl));
      var o := S.FetchExec(sys, ops, s1);
      assert Advanced(s1.ctl, S.Finish(sys, ops, s1, o).next.ctl, 1);
      RunCounts(sys, ops, t, rest);
      RunUnfolds(sys, ops, s, arrivals);
      AdvancedAdds(s.ctl, t.ctl, S.Run(sys, ops, t, rest).next.ctl, |S.Pcs(sys, ops, t, rest)| - 1);
    }
  }

  /** Every step of a run counts once, whether it completes, traps or is interrupted. */
  lemma InstretCounts<V(!new)>(port: Port, ops: S.Ops<V>, s: S.Sim<Ctl, V>, arrivals: seq<Ctl -> Ctl>)
    requires S.Valid(s) && s.ctl.csrs.instret < 0x1_0000_0000_0000_0000 && ArrivalsLeave(arrivals)
    requires M.Along(Platform.Hart(port), ops, s, arrivals, LeavesCounter)
    ensures var sys := Platform.Hart(port);
            Advanced(s.ctl, S.Run(sys, ops, s, arrivals).next.ctl, |S.Pcs(sys, ops, s, arrivals)| - 1)
  {
    var sys := Platform.Hart(port);
    forall t: S.Sim<Ctl, V>, o: S.Out<Ctl, V> |
      S.Valid(t) && (o.Done? ==> S.Valid(o.next)) && LeavesCounter(t.ctl, o)
      && t.ctl.csrs.instret < 0x1_0000_0000_0000_0000
      ensures Advanced(t.ctl, S.Finish(sys, ops, t, o).next.ctl, 1)
    {
      FinishAdvances(port, ops, t, o);
    }
    RunCounts(sys, ops, s, arrivals);
  }
}
