/** The simulator's guarantees about concolic runs, for every control part, program and input. */
module PathTheorems {
  import opened Isa
  import opened Bits
  import opened Concolic
  import opened ConcolicOps
  import opened ConcolicSound
  import P = PlainIss
  import S = ConcolicIss
  import SP = SamePath

  type Sim<C> = S.Sim<C, Value>

  /** Every register is 32 and every memory cell 8 bits wide, in the concrete part and in the term. */
  ghost predicate Widths<C>(s: Sim<C>) {
    && |s.regs| == 32
    && (forall i :: 0 <= i < 32 ==> Wide(s.regs[i], 32))
    && (forall i :: 0 <= i < |s.mem| ==> Wide(s.mem[i], 8))
  }

  /** The plain machine the state stands for: by its concrete parts, or by its terms under an input. */
  ghost function Erased<C>(s: Sim<C>): P.Plain<C> {
    SP.View(Reads(Concretely), s)
  }

  ghost function Predicted<C>(s: Sim<C>, input: Input): P.Plain<C> {
    SP.View(Reads(Under(input)), s)
  }

  /** Under this input, every recorded branch condition has the truth value that was recorded. */
  predicate Satisfies(input: Input, trace: seq<S.BranchRecord<Value>>) {
    forall b :: b in trace ==> (Read(b.cond, Under(input)).value != 0) == b.taken
  }

  lemma WidthsAre<C>(s: Sim<C>, how: Reading)
    ensures Widths(s) <==> SP.WellFormed(Reads(how), s)
  {
  }

  lemma ConcreteReading()
    ensures SP.ReadsConcrete(SimOps(), Reads(Concretely))
  {
  }

  /** Erasing the terms gives exactly a run of the plain interpreter, and the widths are kept. */
  lemma {:induction false} Refinement<C>(sys: Sys<C>, s: Sim<C>, arrivals: seq<C -> C>)
    requires Widths(s)
    ensures Widths(S.Run(sys, SimOps(), s, arrivals).next)
    ensures Erased(S.Run(sys, SimOps(), s, arrivals).next) == P.Run(sys, RefOps(), Erased(s), arrivals)
    ensures S.Pcs(sys, SimOps(), s, arrivals) == P.Pcs(sys, RefOps(), Erased(s), arrivals)
  {
    var r := Reads(Concretely);
    WidthsAre(s, Concretely);
    ConcolicAgrees(Concretely);
    ConcreteReading();
    SP.ConcreteFollows(sys, SimOps(), r, s, arrivals);
    SP.RunView(sys, SimOps(), RefOps(), r, s, arrivals);
    WidthsAre(S.Run(sys, SimOps(), s, arrivals).next, Concretely);
  }

  /** Under the current input, every term evaluates to the concrete value beside it. */
  ghost predicate Consistent<C>(s: Sim<C>, input: Input) {
    Widths(s) && Predicted(s, input) == Erased(s)
  }

  /** Consistency with the current input survives any number of steps. */
  lemma Consistency<C>(sys: Sys<C>, s: Sim<C>, arrivals: seq<C -> C>, input: Input)
    requires Consistent(s, input)
    ensures Consistent(S.Run(sys, SimOps(), s, arrivals).next, input)
  {
    var r1, r2 := Reads(Concretely), Reads(Under(input));
    var end := S.Run(sys, SimOps(), s, arrivals).next;
    WidthsAre(s, Concretely);
    WidthsAre(s, Under(input));
    ConcolicAgrees(Concretely);
    ConcolicAgrees(Under(input));
    ConcreteReading();
    SP.RunKeepsAlike(sys, SimOps(), RefOps(), r1, r2, s, arrivals);
    WidthsAre(end, Concretely);
  }

  /**
    Same path: when the code bytes, addresses, jump targets and CSR operands of a run have no
    symbolic part, every input that satisfies the recorded branches drives the plain interpreter
    through the same program counters to the state the terms predict.
   */
  lemma SamePath<C>(sys: Sys<C>, s: Sim<C>, arrivals: seq<C -> C>, input: Input)
    requires Widths(s) && SP.ConcreteControl(sys, SimOps(), s, arrivals)
    requires Satisfies(input, S.Run(sys, SimOps(), s, arrivals).trace)
    ensures P.Pcs(sys, RefOps(), Predicted(s, input), arrivals) == S.Pcs(sys, SimOps(), s, arrivals)
    ensures P.Run(sys, RefOps(), Predicted(s, input), arrivals) ==
            Predicted(S.Run(sys, SimOps(), s, arrivals).next, input)
  {
    var r := Reads(Under(input));
    WidthsAre(s, Under(input));
    ConcolicAgrees(Under(input));
    assert SP.Keeps(r, S.Run(sys, SimOps(), s, arrivals).trace);
    SP.TraceDecides(sys, SimOps(), r, s, arrivals);
    SP.RunView(sys, SimOps(), RefOps(), r, s, arrivals);
  }

  // ----- why the control values must be concrete -----

  /** A hart whose memory decodes to `jalr x0, x1, 0` everywhere. */
  function JumpSys(): Sys<bool> {
    Sys(Port(0, 3),
        _ => Fields.Instr(JALR, 0, 1, 0, 0, 0, 0, 4, 0),
        (c, pc, cause, tval) => Redirect(c, 0), (c, pc) => Redirect(c, pc),
        (c, i, x) => CsrIllegal, c => 11, c => Redirect(c, 0), c => false)
  }

  function Quiet(c: bool): bool {
    c
  }

  function JumpStart(): Sim<bool> {
    State(seq(32, i => if i == 1 then Value(Mk(32, 0), Some(Variable(0, 32))) else Reg(0)),
          seq(4, _ => Literal(8, 0)), 0, false, Runnable)
  }

  lemma JumpWidths()
    ensures Widths(JumpStart())
  {
    var s := JumpStart();
    forall i | 0 <= i < 32 ensures Wide(s.regs[i], 32) {
      forall how: Reading ensures Read(s.regs[i], how).width == 32 {
        if i != 1 {
          assert s.regs[i] == Reg(0);
          LitReads(0, how);
        } else {
          assert s.regs[i] == Value(Mk(32, 0), Some(Variable(0, 32)));
          assert how.Under? ==> Read(s.regs[i], how) == Eval(Variable(0, 32), how.env);
        }
      }
    }
    forall i | 0 <= i < 4 ensures Wide(s.mem[i], 8) { }
  }

  lemma JumpSimulated(ops: S.Ops<Value>, s: Sim<bool>)
    requires s.pc == 0 && |s.regs| == 32 && |s.mem| == 4 && s.status.Runnable? && ops.concrete(s.regs[1]) == 0
    ensures S.Step(JumpSys(), ops, s, Quiet).trace == [] && S.Step(JumpSys(), ops, s, Quiet).next.pc == 0
  {
  }

  lemma JumpPlain(ops: P.Ops, p: P.Plain<bool>)
    requires p.pc == 0 && |p.regs| == 32 && |p.mem| == 4 && p.status.Runnable? && p.regs[1] == 8
    ensures P.Step(JumpSys(), ops, p, Quiet).pc == 8
  {
  }

  lemma JumpReads(input: Input)
    requires input(0) == 8
    ensures Predicted(JumpStart(), input).regs[1] == 8 && SimOps().concrete(JumpStart().regs[1]) == 0
  {
    Pow2Values();
    var v := Value(Mk(32, 0), Some(Variable(0, 32)));
    assert JumpStart().regs[1] == v && v.concrete.value == 0;
    assert SimOps().concrete(v) == v.concrete.value;
    assert Read(v, Under(input)) == Eval(Variable(0, 32), input);
  }

  lemma OneStep<C>(sys: Sys<C>, c: S.Ops<Value>, ops: P.Ops, s: Sim<C>, p: P.Plain<C>, arrive: C -> C)
    requires S.Valid(s) && P.Valid(p) && s.status.Runnable? && p.status.Runnable?
    ensures S.Pcs(sys, c, s, [arrive]) == [s.pc, S.Step(sys, c, s, arrive).next.pc]
    ensures P.Pcs(sys, ops, p, [arrive]) == [p.pc, P.Step(sys, ops, p, arrive).pc]
    ensures S.Run(sys, c, s, [arrive]).trace == S.Step(sys, c, s, arrive).trace
  {
    assert [arrive][1..] == [];
  }

  /** A jump through a symbolic register records nothing, so an input can satisfy the trace and leave the path. */
  lemma SymbolicTargetEscapes(input: Input)
    requires input(0) == 8
    ensures Widths(JumpStart())
    ensures Satisfies(input, S.Run(JumpSys(), SimOps(), JumpStart(), [Quiet]).trace)
    ensures P.Pcs(JumpSys(), RefOps(), Predicted(JumpStart(), input), [Quiet]) !=
            S.Pcs(JumpSys(), SimOps(), JumpStart(), [Quiet])
  {
    JumpWidths();
    JumpReads(input);
    JumpSimulated(SimOps(), JumpStart());
    JumpPlain(RefOps(), Predicted(JumpStart(), input));
    OneStep(JumpSys(), SimOps(), RefOps(), JumpStart(), Predicted(JumpStart(), input), Quiet);
  }
}
