/** Where the terms of a run come from: only from the terms the run starts with. */
module Provenance {
  import opened Isa
  import opened Bits
  import opened Concolic
  import opened ConcolicOps
  import opened ConcolicIss
  import Paths = PathTheorems

  // ----- a property of values that every operation passes on -----

  ghost predicate PairsPassedOn<V(!new)>(ops: Ops<V>, c: V -> bool) {
    && (forall o, a, b :: c(a) && c(b) ==> c(ops.alu(o, a, b)))
    && (forall o, a, b :: c(a) && c(b) ==> c(ops.mul(o, a, b)))
    && (forall o, a, b :: c(a) && c(b) ==> c(ops.div(o, a, b)))
    && (forall o, a, b :: c(a) && c(b) ==> c(ops.branch(o, a, b)))
    && (forall o, a, b :: c(a) && c(b) ==> c(ops.amo(o, a, b)))
  }

  ghost predicate OthersPassedOn<V(!new)>(ops: Ops<V>, c: V -> bool) {
    && (forall n :: c(ops.lit(n)))
    && (forall v :: c(v) && ops.toReg(v).Some? ==> c(ops.toReg(v).value))
    && (forall a :: c(a) ==> c(ops.shamt(a)) && c(ops.isZero(a)))
    && (forall v, k :: c(v) ==> c(ops.byte(v, k)))
  }

  ghost predicate LoadsPassedOn<V(!new)>(ops: Ops<V>, c: V -> bool) {
    forall l, bs: seq<V> :: All(c, bs) ==> c(ops.load(l, bs))
  }

  ghost predicate PassedOn<V(!new)>(ops: Ops<V>, c: V -> bool) {
    PairsPassedOn(ops, c) && OthersPassedOn(ops, c) && LoadsPassedOn(ops, c)
  }

  predicate All<V>(c: V -> bool, vs: seq<V>) {
    forall i :: 0 <= i < |vs| ==> c(vs[i])
  }

  predicate AllIn<C, V>(c: V -> bool, s: Sim<C, V>) {
    All(c, s.regs) && All(c, s.mem)
  }

  /** Every record has the property, and a symbolic condition. */
  predicate AllRecorded<V>(ops: Ops<V>, c: V -> bool, trace: seq<BranchRecord<V>>) {
    forall i :: 0 <= i < |trace| ==> c(trace[i].cond) && ops.symbolic(trace[i].cond)
  }

  predicate Passes<C, V>(ops: Ops<V>, c: V -> bool, o: Out<C, V>) {
    o.Done? ==> AllIn(c, o.next) && AllRecorded(ops, c, o.trace)
  }

  lemma SetPasses<C, V(!new)>(ops: Ops<V>, c: V -> bool, s: Sim<C, V>, rd: nat, v: V)
    requires PassedOn(ops, c) && Valid(s) && rd < 32 && AllIn(c, s) && c(v)
    ensures AllIn(c, Set(ops, s, rd, v))
  {
  }

  lemma StorePasses<V(!new)>(ops: Ops<V>, c: V -> bool, mem: seq<V>, at: nat, v: V, n: nat)
    requires PassedOn(ops, c) && All(c, mem) && c(v)
    ensures All(c, StoreBytes(ops, mem, at, v, n))
  {
  }

  lemma AccessesPass<C, V(!new)>(sys: Sys<C>, ops: Ops<V>, c: V -> bool, s: Sim<C, V>, i: Instr, a: nat, v: V)
    requires PassedOn(ops, c) && Valid(s) && AllIn(c, s) && c(v)
    ensures i.op.Load? ==> Passes(ops, c, LoadFrom(sys, ops, s, i.rd, i.op.load, a))
    ensures i.op.Store? ==> Passes(ops, c, StoreTo(sys, ops, s, i.op.store, a, v))
  {
    if i.op.Load? {
      match Route(sys.port, a, LoadSize(i.op.load), |s.mem|)
      case Miss(_) =>
      case Hit(m) => assert All(c, s.mem[m..m + LoadSize(i.op.load)]);
    }
    if i.op.Store? {
      match Route(sys.port, a, StoreSize(i.op.store), |s.mem|)
      case Miss(_) =>
      case Hit(m) => StorePasses(ops, c, s.mem, m, v, StoreSize(i.op.store));
    }
  }

  lemma AmoPasses<C, V(!new)>(sys: Sys<C>, ops: Ops<V>, c: V -> bool, s: Sim<C, V>, rd: nat, o: AmoOp, a: nat, v: V)
    requires PassedOn(ops, c) && Valid(s) && rd < 32 && AllIn(c, s) && c(v)
    ensures Passes(ops, c, AmoAt(sys, ops, s, rd, o, a, v))
  {
    match Route(sys.port, a, 4, |s.mem|)
    case Miss(_) =>
    case Hit(m) =>
      assert All(c, s.mem[m..m + 4]);
      var data := ops.load(LW, s.mem[m..m + 4]);
      StorePasses(ops, c, s.mem, m, ops.amo(o, data, v), 4);
  }

  lemma ExecPasses<C, V(!new)>(sys: Sys<C>, ops: Ops<V>, c: V -> bool, s: Sim<C, V>, i: Instr)
    requires PassedOn(ops, c) && Valid(s) && AllIn(c, s)
    ensures Passes(ops, c, Exec(sys, ops, s, i))
  {
    var next := s.(pc := Next(s.pc, i.size));
    var rs1, rs2 := s.regs[i.rs1], s.regs[i.rs2];
    match i.op
    case Load(_) => AccessesPass(sys, ops, c, next, i, ops.concrete(ops.alu(ADD, rs1, ops.lit(i.imm))), rs2);
    case Store(_) => AccessesPass(sys, ops, c, next, i, ops.concrete(ops.alu(ADD, rs1, ops.lit(i.imm))), rs2);
    case Amo(o) => AmoPasses(sys, ops, c, next, i.rd, o, ops.concrete(rs1), rs2);
    case _ =>
  }

  lemma StepPasses<C, V(!new)>(sys: Sys<C>, ops: Ops<V>, c: V -> bool, s: Sim<C, V>, arrive: C -> C)
    requires PassedOn(ops, c) && Valid(s) && AllIn(c, s)
    ensures AllIn(c, Step(sys, ops, s, arrive).next) && AllRecorded(ops, c, Step(sys, ops, s, arrive).trace)
  {
    var s1 := s.(ctl := arrive(s.ctl));
    match Route(sys.port, s1.pc, 4, |s1.mem|)
    case Miss(_) =>
    case Hit(m) => ExecPasses(sys, ops, c, s1, sys.decode(FetchWord(ops, s1.mem[m..m + 4])));
  }

  lemma {:induction false} RunPasses<C, V(!new)>(
    sys: Sys<C>, ops: Ops<V>, c: V -> bool, s: Sim<C, V>, arrivals: seq<C -> C>)
    requires PassedOn(ops, c) && Valid(s) && AllIn(c, s)
    ensures AllIn(c, Run(sys, ops, s, arrivals).next) && AllRecorded(ops, c, Run(sys, ops, s, arrivals).trace)
    decreases |arrivals|
  {
    if arrivals != [] && s.status.Runnable? {
      StepPasses(sys, ops, c, s, arrivals[0]);
      RunPasses(sys, ops, c, Step(sys, ops, s, arrivals[0]).next, arrivals[1..]);
    }
  }

  // ----- the variables of a term -----

  predicate Mentions(e: Expr, x: nat) {
    match e
    case Variable(name, _) => name == x
    case Const(_) => false
    case Binary(_, l, r) => Mentions(l, x) || Mentions(r, x)
    case Zext(a, _) => Mentions(a, x)
    case Sext(a, _) => Mentions(a, x)
    case Slice(a, _, _) => Mentions(a, x)
    case Concat(h, l) => Mentions(h, x) || Mentions(l, x)
    case Ite(c, t, f) => Mentions(c, x) || Mentions(t, x) || Mentions(f, x)
  }

  /** The value does not depend on the variable. */
  predicate Without(v: Value, x: nat) {
    v.symbolic.Some? ==> !Mentions(v.symbolic.value, x)
  }

  /** The value does not depend on the variable, or, if none is named, has no term at all. */
  predicate Free(v: Value, x: Option<nat>) {
    match x case Some(name) => Without(v, name) case None => v.symbolic.None?
  }

  lemma BinFree(op: BinOp, a: Value, b: Value, x: Option<nat>)
    requires Free(a, x) && Free(b, x)
    ensures Free(Bin(op, a, b), x) && Free(ConcatV(a, b), x)
  {
  }

  lemma UnaryFree(a: Value, off: nat, w: nat, x: Option<nat>)
    requires Free(a, x)
    ensures Free(ZextV(a, w), x) && Free(SextV(a, w), x) && Free(Extract(a, off, w), x)
  {
  }

  lemma SelectFree(c: Value, a: Value, b: Value, x: Option<nat>)
    requires Free(a, x) && Free(b, x) && Free(c, x)
    ensures Free(SelectV(c, a, b), x)
  {
  }

  lemma {:induction false} JoinedFree(bs: seq<Value>, x: Option<nat>)
    requires forall i :: 0 <= i < |bs| ==> Free(bs[i], x)
    ensures Free(Joined(bs), x)
    decreases |bs|
  {
    if |bs| > 1 {
      JoinedFree(bs[1..], x);
      BinFree(Add, Joined(bs[1..]), bs[0], x);
    }
  }

  lemma MulFree(o: MulOp, a: Value, b: Value, x: Option<nat>)
    requires Free(a, x) && Free(b, x)
    ensures Free(SimMul(o, a, b), x)
  {
    var l := if o.MULHU? then ZextV(a, 64) else SextV(a, 64);
    var r := if o.MULHU? || o.MULHSU? then ZextV(b, 64) else SextV(b, 64);
    UnaryFree(a, 0, 64, x);
    UnaryFree(b, 0, 64, x);
    BinFree(BinOp.Mul, l, r, x);
    UnaryFree(Bin(BinOp.Mul, l, r), if o.MUL? then 0 else 32, 32, x);
  }

  lemma DivFree(o: DivOp, a: Value, b: Value, x: Option<nat>)
    requires Free(a, x) && Free(b, x)
    ensures Free(SimDiv(o, a, b), x)
  {
    var p, q := Bin(Eq, a, Reg(0x8000_0000)), Bin(Eq, b, Reg(0xFFFF_FFFF));
    BinFree(Eq, a, Reg(0x8000_0000), x);
    BinFree(Eq, b, Reg(0xFFFF_FFFF), x);
    BinFree(And, p, q, x);
    match o
    case DIV => BinFree(Sdiv, a, b, x); SelectFree(SimOverflows(a, b), a, Bin(Sdiv, a, b), x);
    case REM => BinFree(Srem, a, b, x); SelectFree(SimOverflows(a, b), Reg(0), Bin(Srem, a, b), x);
    case DIVU => BinFree(Udiv, a, b, x);
    case REMU => BinFree(Urem, a, b, x);
  }

  lemma AmoFree(o: AmoOp, a: Value, b: Value, x: Option<nat>)
    requires Free(a, x) && Free(b, x)
    ensures Free(SimAmo(o, a, b), x)
  {
    BinFree(Sge, a, b, x);
    BinFree(Uge, a, b, x);
    match o
    case AMOSWAP =>
    case AMOADD => BinFree(Add, a, b, x);
    case AMOXOR => BinFree(Xor, a, b, x);
    case AMOAND => BinFree(And, a, b, x);
    case AMOOR => BinFree(Or, a, b, x);
    case AMOMIN => SelectFree(Bin(Sge, a, b), b, a, x);
    case AMOMINU => SelectFree(Bin(Uge, a, b), b, a, x);
    case AMOMAX => SelectFree(Bin(Sge, a, b), a, b, x);
    case AMOMAXU => SelectFree(Bin(Uge, a, b), a, b, x);
  }

  lemma SmallFree(op: AluOp, br: BranchOp, a: Value, b: Value, n: nat, x: Option<nat>)
    requires Free(a, x) && Free(b, x)
    ensures Free(SimAlu(op, a, b), x) && Free(SimBranch(br, a, b), x)
    ensures Free(SimShamt(a), x) && Free(SimIsZero(a), x) && Free(SimByte(a, n), x)
    ensures SimToReg(a).Some? ==> Free(SimToReg(a).value, x)
  {
    var compare :=
      match br case BEQ => Eq case BNE => Ne case BLT => Slt case BGE => Sge case BLTU => Ult case BGEU => Uge;
    BinFree(SolverOp(op), a, b, x);
    BinFree(compare, a, b, x);
    BinFree(Eq, a, Reg(0), x);
    UnaryFree(a, 0, 5, x);
    UnaryFree(Extract(a, 0, 5), 0, 32, x);
    UnaryFree(a, 8 * n, 8, x);
    UnaryFree(a, 0, 32, x);
  }

  function FreeOf(x: Option<nat>): Value -> bool {
    v => Free(v, x)
  }

  lemma PairsPass(x: Option<nat>)
    ensures PairsPassedOn(SimOps(), FreeOf(x))
  {
    forall o, a, b | Free(a, x) && Free(b, x)
      ensures Free(SimMul(o, a, b), x)
    {
      MulFree(o, a, b, x);
    }
    forall o, a, b | Free(a, x) && Free(b, x)
      ensures Free(SimDiv(o, a, b), x)
    {
      DivFree(o, a, b, x);
    }
    forall o, a, b | Free(a, x) && Free(b, x)
      ensures Free(SimAmo(o, a, b), x)
    {
      AmoFree(o, a, b, x);
    }
    forall o, a, b | Free(a, x) && Free(b, x)
      ensures Free(SimAlu(o, a, b), x)
    {
      SmallFree(o, BEQ, a, b, 0, x);
    }
    forall o, a, b | Free(a, x) && Free(b, x)
      ensures Free(SimBranch(o, a, b), x)
    {
      SmallFree(ADD, o, a, b, 0, x);
    }
  }

  lemma OthersPass(x: Option<nat>)
    ensures OthersPassedOn(SimOps(), FreeOf(x))
  {
    forall n: nat
      ensures Free(Reg(n), x)
    {
    }
    forall v | Free(v, x) && SimToReg(v).Some?
      ensures Free(SimToReg(v).value, x)
    {
      SmallFree(ADD, BEQ, v, v, 0, x);
    }
    forall a | Free(a, x)
      ensures Free(SimShamt(a), x) && Free(SimIsZero(a), x)
    {
      SmallFree(ADD, BEQ, a, a, 0, x);
    }
    forall v, k: nat | Free(v, x)
      ensures Free(SimByte(v, k), x)
    {
      SmallFree(ADD, BEQ, v, v, k, x);
    }
  }

  lemma LoadsPass(x: Option<nat>)
    ensures LoadsPassedOn(SimOps(), FreeOf(x))
  {
    forall l, bs: seq<Value> | All(FreeOf(x), bs)
      ensures Free(SimLoad(l, bs), x)
    {
      JoinedFree(bs, x);
      UnaryFree(Joined(bs), 0, 32, x);
    }
  }

  predicate AllFree(vs: seq<Value>, x: Option<nat>) {
    forall i :: 0 <= i < |vs| ==> Free(vs[i], x)
  }

  lemma FirstRecord(trace: seq<BranchRecord<Value>>, x: Option<nat>)
    requires trace != [] && AllRecorded(SimOps(), FreeOf(x), trace)
    ensures Free(trace[0].cond, x) && trace[0].cond.symbolic.Some?
  {
  }

  lemma RunFree<C>(sys: Sys<C>, s: Sim<C, Value>, arrivals: seq<C -> C>, x: Option<nat>)
    requires Valid(s) && AllFree(s.regs, x) && AllFree(s.mem, x)
    ensures var r := Run(sys, SimOps(), s, arrivals);
            && AllFree(r.next.regs, x) && AllFree(r.next.mem, x)
            && AllRecorded(SimOps(), FreeOf(x), r.trace)
  {
    PairsPass(x);
    OthersPass(x);
    LoadsPass(x);
    RunPasses(sys, SimOps(), FreeOf(x), s, arrivals);
  }

  // ----- the main results -----

  /** A run that starts without terms creates none and records nothing. */
  lemma ConcreteRun<C>(sys: Sys<C>, s: Sim<C, Value>, arrivals: seq<C -> C>)
    requires Valid(s) && forall v :: v in s.regs || v in s.mem ==> v.symbolic.None?
    ensures var r := Run(sys, SimOps(), s, arrivals);
            r.trace == [] && forall v :: v in r.next.regs || v in r.next.mem ==> v.symbolic.None?
  {
    RunFree(sys, s, arrivals, None);
    var r := Run(sys, SimOps(), s, arrivals);
    if r.trace != [] {
      FirstRecord(r.trace, None);
      assert false;
    }
  }

  /** An input variable that no register and no byte mentions never shows up in a term or a condition. */
  lemma NoNewVariables<C>(sys: Sys<C>, s: Sim<C, Value>, arrivals: seq<C -> C>, x: nat)
    requires Valid(s) && forall v :: v in s.regs || v in s.mem ==> Without(v, x)
    ensures var r := Run(sys, SimOps(), s, arrivals);
            && (forall v :: v in r.next.regs || v in r.next.mem ==> Without(v, x))
            && (forall b :: b in r.trace ==> Without(b.cond, x))
  {
    RunFree(sys, s, arrivals, Some(x));
  }

  /** A term that does not mention a variable has the same value whatever the variable holds. */
  lemma {:induction false} EvalWithout(e: Expr, x: nat, env: Input, other: Input)
    requires !Mentions(e, x) && forall y :: y != x ==> env(y) == other(y)
    ensures Eval(e, env) == Eval(e, other)
  {
    match e
    case Variable(_, _) =>
    case Const(_) =>
    case Binary(_, l, r) => EvalWithout(l, x, env, other); EvalWithout(r, x, env, other);
    case Zext(a, _) => EvalWithout(a, x, env, other);
    case Sext(a, _) => EvalWithout(a, x, env, other);
    case Slice(a, _, _) => EvalWithout(a, x, env, other);
    case Concat(h, l) => EvalWithout(h, x, env, other); EvalWithout(l, x, env, other);
    case Ite(c, t, f) =>
      EvalWithout(c, x, env, other);
      EvalWithout(t, x, env, other);
      EvalWithout(f, x, env, other);
  }

  /** So inputs that differ in such a variable alone satisfy the same path conditions. */
  lemma SamePaths<C>(sys: Sys<C>, s: Sim<C, Value>, arrivals: seq<C -> C>, x: nat, env: Input, other: Input)
    requires Valid(s) && forall v :: v in s.regs || v in s.mem ==> Without(v, x)
    requires forall y :: y != x ==> env(y) == other(y)
    ensures var trace := Run(sys, SimOps(), s, arrivals).trace;
            Paths.Satisfies(env, trace) <==> Paths.Satisfies(other, trace)
  {
    NoNewVariables(sys, s, arrivals, x);
    var trace := Run(sys, SimOps(), s, arrivals).trace;
    forall b | b in trace
      ensures Read(b.cond, Under(env)) == Read(b.cond, Under(other))
    {
      if b.cond.symbolic.Some? {
        EvalWithout(b.cond.symbolic.value, x, env, other);
      }
    }
  }
}
