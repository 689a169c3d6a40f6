/**
  The theorem concolic testing rests on: an input that agrees with the recorded branches
  drives the hart along the same path, and every term then predicts the value computed.
  It is proved for any value type that can be read as plain numbers operation by operation.
 */
module SamePath {
  import opened Isa
  import P = PlainIss
  import S = ConcolicIss

  /** A way of reading values as numbers, and which values are 32 and 8 bits wide. */
  datatype Reading<!V> = Reading(num: V -> nat, word: V -> bool, byte: V -> bool)

  function NumAt<V>(r: Reading<V>, vs: seq<V>, i: nat): nat
    requires i < |vs|
  {
    r.num(vs[i])
  }

  function Nums<V>(r: Reading<V>, vs: seq<V>): (ns: seq<nat>)
    ensures |ns| == |vs|
  {
    seq(|vs|, (i: nat) requires i < |vs| => NumAt(r, vs, i))
  }

  /** The plain state obtained by reading every register and memory byte. */
  function View<C, V>(r: Reading<V>, s: S.Sim<C, V>): P.Plain<C> {
    State(Nums(r, s.regs), Nums(r, s.mem), s.pc, s.ctl, s.status)
  }

  ghost predicate WellFormed<C, V>(r: Reading<V>, s: S.Sim<C, V>) {
    && |s.regs| == 32
    && (forall i :: 0 <= i < 32 ==> r.word(s.regs[i]))
    && (forall i :: 0 <= i < |s.mem| ==> r.byte(s.mem[i]))
  }

  /** Written to a register, the value is a word with the same number. */
  predicate Storable<V>(c: S.Ops<V>, r: Reading<V>, v: V) {
    var u := c.toReg(v);
    u.Some? && r.word(u.value) && r.num(u.value) == r.num(v)
  }

  ghost predicate LiteralsAgree<V(!new)>(c: S.Ops<V>, r: Reading<V>) {
    forall n: nat {:trigger c.lit(n)} :: r.word(c.lit(n)) && r.num(c.lit(n)) == P.U32(n)
  }

  ghost predicate WordsStore<V(!new)>(c: S.Ops<V>, r: Reading<V>) {
    forall v {:trigger c.toReg(v)} :: r.word(v) ==> Storable(c, r, v)
  }

  ghost predicate ShamtsAgree<V(!new)>(c: S.Ops<V>, r: Reading<V>) {
    forall a {:trigger c.shamt(a)} :: r.word(a) ==> r.word(c.shamt(a)) && r.num(c.shamt(a)) == r.num(a) % 32
  }

  ghost predicate RegistersAgree<V(!new)>(c: S.Ops<V>, r: Reading<V>) {
    LiteralsAgree(c, r) && WordsStore(c, r) && ShamtsAgree(c, r)
  }

  ghost predicate ArithmeticAgrees<V(!new)>(c: S.Ops<V>, p: P.Ops, r: Reading<V>) {
    && (forall o, a, b {:trigger c.alu(o, a, b)} :: r.word(a) && r.word(b) ==>
          Storable(c, r, c.alu(o, a, b)) && r.num(c.alu(o, a, b)) == p.alu(o, r.num(a), r.num(b)))
    && (forall a: nat, b: nat {:trigger p.alu(ADD, a, b)} :: p.alu(ADD, a, b) == P.U32(a + b))
  }

  ghost predicate AluAgrees<V(!new)>(c: S.Ops<V>, p: P.Ops, r: Reading<V>) {
    RegistersAgree(c, r) && ArithmeticAgrees(c, p, r)
  }

  ghost predicate MulDivAgrees<V(!new)>(c: S.Ops<V>, p: P.Ops, r: Reading<V>) {
    && (forall o, a, b {:trigger c.mul(o, a, b)} :: r.word(a) && r.word(b) ==>
          r.word(c.mul(o, a, b)) && r.num(c.mul(o, a, b)) == p.mul(o, r.num(a), r.num(b)))
    && (forall o, a, b {:trigger c.div(o, a, b)} :: r.word(a) && r.word(b) ==> r.word(c.div(o, a, b)))
    && (forall o, a, b {:trigger c.div(o, a, b)} :: r.word(a) && r.word(b) && r.num(b) != 0 ==>
          r.num(c.div(o, a, b)) == p.div(o, r.num(a), r.num(b)))
  }

  ghost predicate TestsAgree<V(!new)>(c: S.Ops<V>, p: P.Ops, r: Reading<V>) {
    && (forall a {:trigger c.isZero(a)} :: r.word(a) ==> (r.num(c.isZero(a)) != 0 <==> r.num(a) == 0))
    && (forall o, a, b {:trigger c.branch(o, a, b)} :: r.word(a) && r.word(b) ==>
          (r.num(c.branch(o, a, b)) != 0 <==> p.branch(o, r.num(a), r.num(b))))
  }

  ghost predicate MemoryAgrees<V(!new)>(c: S.Ops<V>, p: P.Ops, r: Reading<V>) {
    && (forall l, bs {:trigger c.load(l, bs)} :: |bs| == LoadSize(l) && (forall b :: b in bs ==> r.byte(b)) ==>
          r.word(c.load(l, bs)) && r.num(c.load(l, bs)) == p.load(l, Nums(r, bs)))
    && (forall v, k: nat {:trigger c.byte(v, k)} :: r.word(v) && k < 4 ==>
          r.byte(c.byte(v, k)) && r.num(c.byte(v, k)) == p.byte(r.num(v), k))
    && (forall o, a, b {:trigger c.amo(o, a, b)} :: r.word(a) && r.word(b) ==>
          r.word(c.amo(o, a, b)) && r.num(c.amo(o, a, b)) == p.amo(o, r.num(a), r.num(b)))
  }

  /** A value without a symbolic part is read as its concrete part. */
  ghost predicate ConstantsAgree<V(!new)>(c: S.Ops<V>, r: Reading<V>) {
    forall v {:trigger c.symbolic(v)} :: !c.symbolic(v) ==> r.num(v) == c.concrete(v)
  }

  /** The simulator's operations, read in this way, are the reference operations. */
  ghost predicate Agrees<V(!new)>(c: S.Ops<V>, p: P.Ops, r: Reading<V>) {
    && AluAgrees(c, p, r) && MulDivAgrees(c, p, r) && TestsAgree(c, p, r)
    && MemoryAgrees(c, p, r) && ConstantsAgree(c, r)
  }

  /** The values an instruction uses by their concrete part alone. */
  function OperandPins<C, V>(c: S.Ops<V>, s: S.Sim<C, V>, i: Instr): seq<V>
    requires S.Valid(s)
  {
    match i.op
    case JALR => [s.regs[i.rs1]]
    case Load(_) => [c.alu(ADD, s.regs[i.rs1], c.lit(i.imm))]
    case Store(_) => [c.alu(ADD, s.regs[i.rs1], c.lit(i.imm))]
    case Amo(_) => [s.regs[i.rs1]]
    case Csr(k) => if k in {CSRRW, CSRRS, CSRRC} then [s.regs[i.rs1]] else []
    case _ => []
  }

  function Pins<C, V>(sys: Sys<C>, c: S.Ops<V>, s: S.Sim<C, V>): seq<V>
    requires S.Valid(s)
  {
    match Route(sys.port, s.pc, 4, |s.mem|)
    case Miss(_) => []
    case Hit(m) => s.mem[m..m + 4] + OperandPins(c, s, sys.decode(S.FetchWord(c, s.mem[m..m + 4])))
  }

  /** Read in this way, the values are what the simulator used. */
  ghost predicate Pinned<V>(c: S.Ops<V>, r: Reading<V>, vs: seq<V>) {
    forall i :: 0 <= i < |vs| ==> r.num(vs[i]) == c.concrete(vs[i])
  }

  /** The recorded conditions have, under this reading, the truth values that were recorded. */
  ghost predicate Keeps<V>(r: Reading<V>, trace: seq<S.BranchRecord<V>>) {
    forall i :: 0 <= i < |trace| ==> (r.num(trace[i].cond) != 0) == trace[i].taken
  }

  lemma SetView<C, V>(c: S.Ops<V>, r: Reading<V>, s: S.Sim<C, V>, rd: nat, v: V)
    requires WellFormed(r, s) && Storable(c, r, v) && rd < 32
    ensures WellFormed(r, S.Set(c, s, rd, v))
    ensures View(r, S.Set(c, s, rd, v)) == P.Set(View(r, s), rd, r.num(v))
  {
    assert Nums(r, S.Set(c, s, rd, v).regs) == Nums(r, s.regs)[rd := r.num(v)];
  }

  lemma StoreView<V(!new)>(c: S.Ops<V>, p: P.Ops, r: Reading<V>, mem: seq<V>, at: nat, v: V, n: nat)
    requires MemoryAgrees(c, p, r) && r.word(v) && n <= 4
    requires forall i :: 0 <= i < |mem| ==> r.byte(mem[i])
    ensures forall i :: 0 <= i < |mem| ==> r.byte(S.StoreBytes(c, mem, at, v, n)[i])
    ensures Nums(r, S.StoreBytes(c, mem, at, v, n)) == P.StoreBytes(p, Nums(r, mem), at, r.num(v), n)
  {
  }

  /** Both interpreters did the same thing, up to the reading. */
  ghost predicate Same<C, V>(r: Reading<V>, c: S.Out<C, V>, p: P.Out<C>) {
    match c
    case Trap(cause, tval) => p == Trap(cause, tval)
    case Done(t, _) => WellFormed(r, t) && p == Done(View(r, t), [])
  }

  lemma ExecUpper<C, V(!new)>(sys: Sys<C>, c: S.Ops<V>, p: P.Ops, r: Reading<V>, s: S.Sim<C, V>, i: Instr)
    requires WellFormed(r, s) && AluAgrees(c, p, r) && i.op in {LUI, AUIPC}
    ensures Same(r, S.Exec(sys, c, s, i), P.Exec(sys, p, View(r, s), i))
  {
    var next := s.(pc := S.Next(s.pc, i.size));
    var x, y := c.lit(s.pc), c.lit(i.imm);
    assert r.word(x) && r.word(y) && r.num(x) == s.pc && r.num(y) == i.imm;
    if i.op.LUI? {
      assert c.toReg(y).Some?;
      SetView(c, r, next, i.rd, y);
    } else {
      assert r.num(c.alu(ADD, x, y)) == P.U32(s.pc + i.imm);
      SetView(c, r, next, i.rd, c.alu(ADD, x, y));
    }
  }

  lemma ExecJal<C, V(!new)>(sys: Sys<C>, c: S.Ops<V>, p: P.Ops, r: Reading<V>, s: S.Sim<C, V>, i: Instr)
    requires WellFormed(r, s) && AluAgrees(c, p, r) && i.op == JAL
    ensures Same(r, S.Exec(sys, c, s, i), P.Exec(sys, p, View(r, s), i))
  {
    SetView(c, r, s.(pc := S.Next(s.pc, i.imm)), i.rd, c.lit(S.Next(s.pc, i.size)));
  }

  lemma ExecJalr<C, V(!new)>(sys: Sys<C>, c: S.Ops<V>, p: P.Ops, r: Reading<V>, s: S.Sim<C, V>, i: Instr)
    requires WellFormed(r, s) && AluAgrees(c, p, r) && i.op == JALR
    requires Pinned(c, r, OperandPins(c, s, i))
    ensures Same(r, S.Exec(sys, c, s, i), P.Exec(sys, p, View(r, s), i))
  {
    var base := s.regs[i.rs1];
    assert OperandPins(c, s, i)[0] == base;
    assert NumAt(r, s.regs, i.rs1) == c.concrete(base);
    var target := S.Next(c.concrete(base), i.imm) / 2 * 2;
    assert target == P.U32(r.num(base) + i.imm) / 2 * 2;
    SetView(c, r, s.(pc := target), i.rd, c.lit(S.Next(s.pc, i.size)));
  }

  lemma ExecAlu<C, V(!new)>(sys: Sys<C>, c: S.Ops<V>, p: P.Ops, r: Reading<V>, s: S.Sim<C, V>, i: Instr)
    requires WellFormed(r, s) && AluAgrees(c, p, r) && (i.op.OpImm? || i.op.Op?)
    ensures Same(r, S.Exec(sys, c, s, i), P.Exec(sys, p, View(r, s), i))
  {
    var b := s.regs[i.rs2];
    var v := if i.op.OpImm? then c.alu(i.op.imm, s.regs[i.rs1], c.lit(i.imm))
             else c.alu(i.op.alu, s.regs[i.rs1], if i.op.alu in {SLL, SRL, SRA} then c.shamt(b) else b);
    SetView(c, r, s.(pc := S.Next(s.pc, i.size)), i.rd, v);
  }

  lemma ExecMul<C, V(!new)>(sys: Sys<C>, c: S.Ops<V>, p: P.Ops, r: Reading<V>, s: S.Sim<C, V>, i: Instr)
    requires WellFormed(r, s) && AluAgrees(c, p, r) && MulDivAgrees(c, p, r) && i.op.Mul?
    ensures Same(r, S.Exec(sys, c, s, i), P.Exec(sys, p, View(r, s), i))
  {
    var v := c.mul(i.op.mul, s.regs[i.rs1], s.regs[i.rs2]);
    assert c.toReg(v).Some?;
    SetView(c, r, s.(pc := S.Next(s.pc, i.size)), i.rd, v);
  }

  /** A condition that keeps its recorded truth value, or is not recorded, is read as it was taken. */
  lemma TrackedReads<V(!new)>(c: S.Ops<V>, r: Reading<V>, cond: V, at: nat)
    requires ConstantsAgree(c, r) && Keeps(r, S.Track(c, S.IsTrue(c, cond), cond, at))
    ensures (r.num(cond) != 0) == S.IsTrue(c, cond)
  {
    if c.symbolic(cond) {
      assert S.Track(c, S.IsTrue(c, cond), cond, at)[0].cond == cond;
    }
  }

  lemma ExecBranch<C, V(!new)>(sys: Sys<C>, c: S.Ops<V>, p: P.Ops, r: Reading<V>, s: S.Sim<C, V>, i: Instr)
    requires WellFormed(r, s) && TestsAgree(c, p, r) && ConstantsAgree(c, r) && i.op.Branch?
    requires Keeps(r, S.Exec(sys, c, s, i).trace)
    ensures Same(r, S.Exec(sys, c, s, i), P.Exec(sys, p, View(r, s), i))
  {
    TrackedReads(c, r, c.branch(i.op.branch, s.regs[i.rs1], s.regs[i.rs2]), s.pc);
  }

  lemma ExecDiv<C, V(!new)>(sys: Sys<C>, c: S.Ops<V>, p: P.Ops, r: Reading<V>, s: S.Sim<C, V>, i: Instr)
    requires WellFormed(r, s) && Agrees(c, p, r) && i.op.Div?
    requires Keeps(r, S.Exec(sys, c, s, i).trace)
    ensures Same(r, S.Exec(sys, c, s, i), P.Exec(sys, p, View(r, s), i))
  {
    var a, b := s.regs[i.rs1], s.regs[i.rs2];
    var zero := c.isZero(b);
    TrackedReads(c, r, zero, s.pc);
    var ans := if !S.IsTrue(c, zero) then c.div(i.op.div, a, b)
               else if i.op.div.DIV? || i.op.div.DIVU? then c.lit(WORDS - 1) else a;
    assert c.toReg(ans).Some?;
    SetView(c, r, s.(pc := S.Next(s.pc, i.size)), i.rd, ans);
  }

  lemma SliceView<V>(r: Reading<V>, mem: seq<V>, m: nat, n: nat)
    requires m + n <= |mem|
    ensures Nums(r, mem[m..m + n]) == Nums(r, mem)[m..m + n]
  {
  }

  lemma LoadView<V(!new)>(c: S.Ops<V>, p: P.Ops, r: Reading<V>, mem: seq<V>, l: LoadOp, m: nat)
    requires RegistersAgree(c, r) && MemoryAgrees(c, p, r) && m + LoadSize(l) <= |mem|
    requires forall i :: 0 <= i < |mem| ==> r.byte(mem[i])
    ensures var v := c.load(l, mem[m..m + LoadSize(l)]);
            && r.word(v) && Storable(c, r, v)
            && r.num(v) == p.load(l, Nums(r, mem)[m..m + LoadSize(l)])
  {
    var bs := mem[m..m + LoadSize(l)];
    SliceView(r, mem, m, LoadSize(l));
    assert forall b :: b in bs ==> r.byte(b);
    assert c.toReg(c.load(l, bs)).Some?;
  }

  /** The state after a load, and the reference's. */
  ghost predicate LoadDone<C, V(!new)>(c: S.Ops<V>, p: P.Ops, r: Reading<V>, s: S.Sim<C, V>, rd: nat, l: LoadOp, m: nat)
    requires S.Valid(s) && m + LoadSize(l) <= |s.mem| && rd < 32
  {
    var t := S.Set(c, s, rd, c.load(l, s.mem[m..m + LoadSize(l)]));
    WellFormed(r, t) && View(r, t) == P.Set(View(r, s), rd, p.load(l, Nums(r, s.mem)[m..m + LoadSize(l)]))
  }

  lemma LoadSet<C, V(!new)>(c: S.Ops<V>, p: P.Ops, r: Reading<V>, s: S.Sim<C, V>, rd: nat, l: LoadOp, m: nat)
    requires WellFormed(r, s) && RegistersAgree(c, r) && MemoryAgrees(c, p, r)
    requires m + LoadSize(l) <= |s.mem| && rd < 32
    ensures LoadDone(c, p, r, s, rd, l, m)
  {
    LoadView(c, p, r, s.mem, l, m);
    SetView(c, r, s, rd, c.load(l, s.mem[m..m + LoadSize(l)]));
  }

  lemma LoadSame<C, V(!new)>(sys: Sys<C>, c: S.Ops<V>, p: P.Ops, r: Reading<V>, s: S.Sim<C, V>, rd: nat, l: LoadOp, a: nat)
    requires S.Valid(s) && rd < 32
    requires match Route(sys.port, a, LoadSize(l), |s.mem|) case Miss(_) => true case Hit(m) => LoadDone(c, p, r, s, rd, l, m)
    ensures Same(r, S.LoadFrom(sys, c, s, rd, l, a), P.LoadFrom(sys, p, View(r, s), rd, l, a))
  {
  }

  lemma LoadFromView<C, V(!new)>(
    sys: Sys<C>, c: S.Ops<V>, p: P.Ops, r: Reading<V>, s: S.Sim<C, V>, rd: nat, l: LoadOp, a: nat)
    requires WellFormed(r, s) && RegistersAgree(c, r) && MemoryAgrees(c, p, r) && rd < 32
    ensures Same(r, S.LoadFrom(sys, c, s, rd, l, a), P.LoadFrom(sys, p, View(r, s), rd, l, a))
  {
    var x := Route(sys.port, a, LoadSize(l), |s.mem|);
    if x.Hit? {
      LoadSet(c, p, r, s, rd, l, x.local);
    }
    LoadSame(sys, c, p, r, s, rd, l, a);
  }

  lemma StoreToView<C, V(!new)>(
    sys: Sys<C>, c: S.Ops<V>, p: P.Ops, r: Reading<V>, s: S.Sim<C, V>, st: StoreOp, a: nat, v: V)
    requires WellFormed(r, s) && MemoryAgrees(c, p, r) && r.word(v)
    ensures Same(r, S.StoreTo(sys, c, s, st, a, v), P.StoreTo(sys, p, View(r, s), st, a, r.num(v)))
  {
    match Route(sys.port, a, StoreSize(st), |s.mem|)
    case Miss(_) =>
    case Hit(m) => StoreView(c, p, r, s.mem, m, v, StoreSize(st));
  }

  /** The state after an AMO, and the reference's. */
  ghost predicate AmoDone<C, V(!new)>(
    c: S.Ops<V>, p: P.Ops, r: Reading<V>, s: S.Sim<C, V>, rd: nat, o: AmoOp, m: nat, v: V)
    requires S.Valid(s) && m + 4 <= |s.mem| && rd < 32
  {
    var data, was := c.load(LW, s.mem[m..m + 4]), p.load(LW, Nums(r, s.mem)[m..m + 4]);
    var t := S.Set(c, s.(mem := S.StoreBytes(c, s.mem, m, c.amo(o, data, v), 4)), rd, data);
    && WellFormed(r, t)
    && View(r, t) == P.Set(View(r, s).(mem := P.StoreBytes(p, Nums(r, s.mem), m, p.amo(o, was, r.num(v)), 4)), rd, was)
  }

  lemma AmoSet<C, V(!new)>(c: S.Ops<V>, p: P.Ops, r: Reading<V>, s: S.Sim<C, V>, rd: nat, o: AmoOp, m: nat, v: V)
    requires WellFormed(r, s) && RegistersAgree(c, r) && MemoryAgrees(c, p, r)
    requires m + 4 <= |s.mem| && rd < 32 && r.word(v)
    ensures AmoDone(c, p, r, s, rd, o, m, v)
  {
    LoadView(c, p, r, s.mem, LW, m);
    var data := c.load(LW, s.mem[m..m + 4]);
    var val := c.amo(o, data, v);
    StoreView(c, p, r, s.mem, m, val, 4);
    SetView(c, r, s.(mem := S.StoreBytes(c, s.mem, m, val, 4)), rd, data);
  }

  lemma AmoSame<C, V(!new)>(
    sys: Sys<C>, c: S.Ops<V>, p: P.Ops, r: Reading<V>, s: S.Sim<C, V>, rd: nat, o: AmoOp, a: nat, v: V)
    requires S.Valid(s) && rd < 32
    requires match Route(sys.port, a, 4, |s.mem|) case Miss(_) => true case Hit(m) => AmoDone(c, p, r, s, rd, o, m, v)
    ensures Same(r, S.AmoAt(sys, c, s, rd, o, a, v), P.AmoAt(sys, p, View(r, s), rd, o, a, r.num(v)))
  {
  }

  lemma AmoAtView<C, V(!new)>(
    sys: Sys<C>, c: S.Ops<V>, p: P.Ops, r: Reading<V>, s: S.Sim<C, V>, rd: nat, o: AmoOp, a: nat, v: V)
    requires WellFormed(r, s) && RegistersAgree(c, r) && MemoryAgrees(c, p, r) && rd < 32 && r.word(v)
    ensures Same(r, S.AmoAt(sys, c, s, rd, o, a, v), P.AmoAt(sys, p, View(r, s), rd, o, a, r.num(v)))
  {
    var x := Route(sys.port, a, 4, |s.mem|);
    if x.Hit? {
      AmoSet(c, p, r, s, rd, o, x.local, v);
    }
    AmoSame(sys, c, p, r, s, rd, o, a, v);
  }

  lemma AddressView<C, V(!new)>(c: S.Ops<V>, p: P.Ops, r: Reading<V>, s: S.Sim<C, V>, i: Instr)
    requires WellFormed(r, s) && AluAgrees(c, p, r) && (i.op.Load? || i.op.Store?)
    requires Pinned(c, r, OperandPins(c, s, i))
    ensures c.concrete(c.alu(ADD, s.regs[i.rs1], c.lit(i.imm))) == P.U32(NumAt(r, s.regs, i.rs1) + i.imm)
  {
    var addr := OperandPins(c, s, i)[0];
    assert r.num(addr) == P.U32(r.num(s.regs[i.rs1]) + i.imm);
  }

  lemma AccessStarts<C, V(!new)>(sys: Sys<C>, c: S.Ops<V>, p: P.Ops, r: Reading<V>, s: S.Sim<C, V>, i: Instr)
    requires S.Valid(s) && (i.op.Load? || i.op.Store?)
    ensures var next := s.(pc := S.Next(s.pc, i.size)); var a := c.concrete(c.alu(ADD, s.regs[i.rs1], c.lit(i.imm)));
            S.Exec(sys, c, s, i) == if i.op.Load? then S.LoadFrom(sys, c, next, i.rd, i.op.load, a)
                                    else S.StoreTo(sys, c, next, i.op.store, a, s.regs[i.rs2])
    ensures var next := View(r, s.(pc := S.Next(s.pc, i.size))); var a := P.U32(NumAt(r, s.regs, i.rs1) + i.imm);
            P.Exec(sys, p, View(r, s), i) == if i.op.Load? then P.LoadFrom(sys, p, next, i.rd, i.op.load, a)
                                             else P.StoreTo(sys, p, next, i.op.store, a, NumAt(r, s.regs, i.rs2))
  {
  }

  lemma ExecLoad<C, V(!new)>(sys: Sys<C>, c: S.Ops<V>, p: P.Ops, r: Reading<V>, s: S.Sim<C, V>, i: Instr)
    requires WellFormed(r, s) && AluAgrees(c, p, r) && MemoryAgrees(c, p, r) && i.op.Load?
    requires Pinned(c, r, OperandPins(c, s, i))
    ensures Same(r, S.Exec(sys, c, s, i), P.Exec(sys, p, View(r, s), i))
  {
    AddressView(c, p, r, s, i);
    AccessStarts(sys, c, p, r, s, i);
    LoadFromView(sys, c, p, r, s.(pc := S.Next(s.pc, i.size)), i.rd, i.op.load,
                 c.concrete(c.alu(ADD, s.regs[i.rs1], c.lit(i.imm))));
  }

  lemma ExecStore<C, V(!new)>(sys: Sys<C>, c: S.Ops<V>, p: P.Ops, r: Reading<V>, s: S.Sim<C, V>, i: Instr)
    requires WellFormed(r, s) && AluAgrees(c, p, r) && MemoryAgrees(c, p, r) && i.op.Store?
    requires Pinned(c, r, OperandPins(c, s, i))
    ensures Same(r, S.Exec(sys, c, s, i), P.Exec(sys, p, View(r, s), i))
  {
    AddressView(c, p, r, s, i);
    AccessStarts(sys, c, p, r, s, i);
    StoreToView(sys, c, p, r, s.(pc := S.Next(s.pc, i.size)), i.op.store,
                c.concrete(c.alu(ADD, s.regs[i.rs1], c.lit(i.imm))), s.regs[i.rs2]);
  }

  lemma ExecAmo<C, V(!new)>(sys: Sys<C>, c: S.Ops<V>, p: P.Ops, r: Reading<V>, s: S.Sim<C, V>, i: Instr)
    requires WellFormed(r, s) && AluAgrees(c, p, r) && MemoryAgrees(c, p, r) && i.op.Amo?
    requires Pinned(c, r, OperandPins(c, s, i))
    ensures Same(r, S.Exec(sys, c, s, i), P.Exec(sys, p, View(r, s), i))
  {
    assert OperandPins(c, s, i)[0] == s.regs[i.rs1];
    AmoAtView(sys, c, p, r, s.(pc := S.Next(s.pc, i.size)), i.rd, i.op.amo, c.concrete(s.regs[i.rs1]), s.regs[i.rs2]);
  }

  lemma ExecControl<C, V(!new)>(sys: Sys<C>, c: S.Ops<V>, p: P.Ops, r: Reading<V>, s: S.Sim<C, V>, i: Instr)
    requires WellFormed(r, s) && AluAgrees(c, p, r)
    requires i.op.Csr? || i.op.Unsupported? || i.op in {UNDEF, FENCE, ECALL, EBREAK, MRET, WFI}
    requires Pinned(c, r, OperandPins(c, s, i))
    ensures Same(r, S.Exec(sys, c, s, i), P.Exec(sys, p, View(r, s), i))
  {
    if i.op.Csr? {
      var byReg := i.op.csr in {CSRRW, CSRRS, CSRRC};
      assert byReg ==> OperandPins(c, s, i)[0] == s.regs[i.rs1];
      match sys.csr(s.ctl, i, if byReg then c.concrete(s.regs[i.rs1]) else i.zimm) {
        case CsrIllegal =>
        case CsrOk(ctl, v, w) =>
          assert c.toReg(c.lit(v)).Some?;
          SetView(c, r, s.(pc := S.Next(s.pc, i.size), ctl := ctl), i.rd, c.lit(v));
      }
    }
  }

  /** One instruction: the simulator, read in a way that keeps the path, does what the reference does. */
  lemma ExecView<C, V(!new)>(sys: Sys<C>, c: S.Ops<V>, p: P.Ops, r: Reading<V>, s: S.Sim<C, V>, i: Instr)
    requires WellFormed(r, s) && Agrees(c, p, r)
    requires Pinned(c, r, OperandPins(c, s, i))
    requires S.Exec(sys, c, s, i).Done? ==> Keeps(r, S.Exec(sys, c, s, i).trace)
    ensures Same(r, S.Exec(sys, c, s, i), P.Exec(sys, p, View(r, s), i))
  {
    match i.op
    case LUI => ExecUpper(sys, c, p, r, s, i);
    case AUIPC => ExecUpper(sys, c, p, r, s, i);
    case JAL => ExecJal(sys, c, p, r, s, i);
    case JALR => ExecJalr(sys, c, p, r, s, i);
    case Branch(_) => ExecBranch(sys, c, p, r, s, i);
    case Load(_) => ExecLoad(sys, c, p, r, s, i);
    case Store(_) => ExecStore(sys, c, p, r, s, i);
    case OpImm(_) => ExecAlu(sys, c, p, r, s, i);
    case Op(_) => ExecAlu(sys, c, p, r, s, i);
    case Mul(_) => ExecMul(sys, c, p, r, s, i);
    case Div(_) => ExecDiv(sys, c, p, r, s, i);
    case Amo(_) => ExecAmo(sys, c, p, r, s, i);
    case _ => ExecControl(sys, c, p, r, s, i);
  }

  /** The simulator's step from `s` is followed by every reading that keeps its pins and its trace. */
  ghost predicate Follows<C, V>(sys: Sys<C>, c: S.Ops<V>, r: Reading<V>, s0: S.Sim<C, V>, arrive: C -> C)
    requires S.Valid(s0)
  {
    && Pinned(c, r, Pins(sys, c, s0.(ctl := arrive(s0.ctl))))
    && Keeps(r, S.Step(sys, c, s0, arrive).trace)
  }

  /** The pins of a fetched instruction are the code bytes and the pins of its operands. */
  lemma FetchPins<C, V>(sys: Sys<C>, c: S.Ops<V>, r: Reading<V>, s: S.Sim<C, V>, m: nat)
    requires S.Valid(s) && Route(sys.port, s.pc, 4, |s.mem|) == Hit(m) && m + 4 <= |s.mem|
    requires Pinned(c, r, Pins(sys, c, s))
    ensures var bytes := s.mem[m..m + 4];
            Pinned(c, r, bytes) && Pinned(c, r, OperandPins(c, s, sys.decode(S.FetchWord(c, bytes))))
  {
    var bytes := s.mem[m..m + 4];
    var i := sys.decode(S.FetchWord(c, bytes));
    var all := Pins(sys, c, s);
    assert all == bytes + OperandPins(c, s, i);
    forall k | 0 <= k < 4
      ensures r.num(bytes[k]) == c.concrete(bytes[k])
    {
      assert all[k] == bytes[k];
    }
    forall k | 0 <= k < |OperandPins(c, s, i)|
      ensures r.num(OperandPins(c, s, i)[k]) == c.concrete(OperandPins(c, s, i)[k])
    {
      assert all[k + 4] == OperandPins(c, s, i)[k];
    }
  }

  /** Both interpreters fetch and decode the same word. */
  lemma FetchWords<C, V>(c: S.Ops<V>, r: Reading<V>, s: S.Sim<C, V>, m: nat)
    requires S.Valid(s) && m + 4 <= |s.mem| && Pinned(c, r, s.mem[m..m + 4])
    ensures |View(r, s).mem| == |s.mem| && P.FetchWord(View(r, s).mem[m..m + 4]) == S.FetchWord(c, s.mem[m..m + 4])
  {
    SliceView(r, s.mem, m, 4);
    var bytes := s.mem[m..m + 4];
    assert forall k :: 0 <= k < 4 ==> Nums(r, bytes)[k] == r.num(bytes[k]);
  }

  lemma FetchPlain<C, V>(sys: Sys<C>, c: S.Ops<V>, p: P.Ops, r: Reading<V>, s: S.Sim<C, V>, m: nat)
    requires S.Valid(s) && Route(sys.port, s.pc, 4, |s.mem|) == Hit(m) && m + 4 <= |s.mem|
    requires Pinned(c, r, s.mem[m..m + 4])
    ensures var i := sys.decode(S.FetchWord(c, s.mem[m..m + 4]));
            S.FetchExec(sys, c, s) == S.Exec(sys, c, s, i) && P.FetchExec(sys, p, View(r, s)) == P.Exec(sys, p, View(r, s), i)
  {
    FetchWords(c, r, s, m);
  }

  lemma FetchView<C, V(!new)>(sys: Sys<C>, c: S.Ops<V>, p: P.Ops, r: Reading<V>, s: S.Sim<C, V>)
    requires WellFormed(r, s) && Agrees(c, p, r)
    requires Pinned(c, r, Pins(sys, c, s))
    requires S.FetchExec(sys, c, s).Done? ==> Keeps(r, S.FetchExec(sys, c, s).trace)
    ensures Same(r, S.FetchExec(sys, c, s), P.FetchExec(sys, p, View(r, s)))
  {
    match Route(sys.port, s.pc, 4, |s.mem|) {
      case Miss(_) =>
      case Hit(m) =>
        FetchPins(sys, c, r, s, m);
        FetchPlain(sys, c, p, r, s, m);
        ExecView(sys, c, p, r, s, sys.decode(S.FetchWord(c, s.mem[m..m + 4])));
    }
  }

  /** One step commutes with the reading. */
  lemma StepView<C, V(!new)>(sys: Sys<C>, c: S.Ops<V>, p: P.Ops, r: Reading<V>, s0: S.Sim<C, V>, arrive: C -> C)
    requires WellFormed(r, s0) && Agrees(c, p, r) && Follows(sys, c, r, s0, arrive)
    ensures WellFormed(r, S.Step(sys, c, s0, arrive).next)
    ensures View(r, S.Step(sys, c, s0, arrive).next) == P.Step(sys, p, View(r, s0), arrive)
  {
    var s := s0.(ctl := arrive(s0.ctl));
    FetchView(sys, c, p, r, s);
    assert c.toReg(c.lit(0)).Some?;
    match S.FetchExec(sys, c, s) {
      case Done(t, _) => SetView(c, r, t, 0, c.lit(0));
      case Trap(_, _) => SetView(c, r, s, 0, c.lit(0));
    }
  }

  /** Every step of the run is followed by the reading. */
  ghost predicate FollowsRun<C, V>(sys: Sys<C>, c: S.Ops<V>, r: Reading<V>, s: S.Sim<C, V>, arrivals: seq<C -> C>)
    requires S.Valid(s)
    decreases |arrivals|
  {
    arrivals == [] || !s.status.Runnable? ||
    (&& Follows(sys, c, r, s, arrivals[0])
     && FollowsRun(sys, c, r, S.Step(sys, c, s, arrivals[0]).next, arrivals[1..]))
  }

  /** A whole run commutes with every reading that follows it. */
  lemma {:induction false} RunView<C, V(!new)>(
    sys: Sys<C>, c: S.Ops<V>, p: P.Ops, r: Reading<V>, s: S.Sim<C, V>, arrivals: seq<C -> C>)
    requires WellFormed(r, s) && Agrees(c, p, r) && FollowsRun(sys, c, r, s, arrivals)
    ensures WellFormed(r, S.Run(sys, c, s, arrivals).next)
    ensures View(r, S.Run(sys, c, s, arrivals).next) == P.Run(sys, p, View(r, s), arrivals)
    ensures S.Pcs(sys, c, s, arrivals) == P.Pcs(sys, p, View(r, s), arrivals)
    decreases |arrivals|
  {
    if arrivals != [] && s.status.Runnable? {
      StepView(sys, c, p, r, s, arrivals[0]);
      RunView(sys, c, p, r, S.Step(sys, c, s, arrivals[0]).next, arrivals[1..]);
    }
  }

  ghost predicate ReadsConcrete<V(!new)>(c: S.Ops<V>, r: Reading<V>) {
    forall v :: r.num(v) == c.concrete(v)
  }

  lemma TraceIsConcrete<C, V>(sys: Sys<C>, c: S.Ops<V>, s0: S.Sim<C, V>, arrive: C -> C)
    requires S.Valid(s0)
    ensures forall b :: b in S.Step(sys, c, s0, arrive).trace ==> b.taken == (c.concrete(b.cond) != 0)
  {
    var s := s0.(ctl := arrive(s0.ctl));
    match Route(sys.port, s.pc, 4, |s.mem|) {
      case Miss(_) =>
      case Hit(m) =>
        var i := sys.decode(S.FetchWord(c, s.mem[m..m + 4]));
        ExecTraceIsConcrete(sys, c, s, i);
    }
  }

  lemma ExecTraceIsConcrete<C, V>(sys: Sys<C>, c: S.Ops<V>, s: S.Sim<C, V>, i: Instr)
    requires S.Valid(s)
    ensures var e := S.Exec(sys, c, s, i);
            e.Done? ==> forall b :: b in e.trace ==> b.taken == (c.concrete(b.cond) != 0)
  {
  }

  /** The concrete reading follows every run: erasing the symbolic parts loses nothing. */
  lemma {:induction false} ConcreteFollows<C, V(!new)>(
    sys: Sys<C>, c: S.Ops<V>, r: Reading<V>, s: S.Sim<C, V>, arrivals: seq<C -> C>)
    requires S.Valid(s) && ReadsConcrete(c, r)
    ensures FollowsRun(sys, c, r, s, arrivals)
    decreases |arrivals|
  {
    if arrivals != [] && s.status.Runnable? {
      TraceIsConcrete(sys, c, s, arrivals[0]);
      ConcreteFollows(sys, c, r, S.Step(sys, c, s, arrivals[0]).next, arrivals[1..]);
    }
  }

  /** The condition an instruction may record. */
  function Condition<C, V>(c: S.Ops<V>, s: S.Sim<C, V>, i: Instr): Option<V>
    requires S.Valid(s)
  {
    match i.op
    case Branch(b) => Some(c.branch(b, s.regs[i.rs1], s.regs[i.rs2]))
    case Div(_) => Some(c.isZero(s.regs[i.rs2]))
    case _ => None
  }

  lemma ExecTraceForm<C, V>(sys: Sys<C>, c: S.Ops<V>, s: S.Sim<C, V>, i: Instr)
    requires S.Valid(s)
    ensures var e := S.Exec(sys, c, s, i);
            e.Done? ==> forall b :: b in e.trace ==> Condition(c, s, i) == Some(b.cond)
  {
  }

  /** The state read alike in both ways. */
  ghost predicate Alike<C, V>(r1: Reading<V>, r2: Reading<V>, s: S.Sim<C, V>) {
    WellFormed(r1, s) && WellFormed(r2, s) && View(r1, s) == View(r2, s)
  }

  lemma AlikeRegs<C, V>(r1: Reading<V>, r2: Reading<V>, s: S.Sim<C, V>)
    requires Alike(r1, r2, s)
    ensures forall i :: 0 <= i < 32 ==> r1.num(s.regs[i]) == r2.num(s.regs[i])
    ensures forall i :: 0 <= i < |s.mem| ==> r1.num(s.mem[i]) == r2.num(s.mem[i])
  {
    forall i | 0 <= i < 32 ensures r1.num(s.regs[i]) == r2.num(s.regs[i]) {
      assert View(r1, s).regs[i] == View(r2, s).regs[i];
    }
    forall i | 0 <= i < |s.mem| ensures r1.num(s.mem[i]) == r2.num(s.mem[i]) {
      assert View(r1, s).mem[i] == View(r2, s).mem[i];
    }
  }

  lemma AlikeOperands<C, V(!new)>(
    c: S.Ops<V>, p: P.Ops, r1: Reading<V>, r2: Reading<V>, s: S.Sim<C, V>, i: Instr)
    requires Agrees(c, p, r1) && Agrees(c, p, r2) && Alike(r1, r2, s) && ReadsConcrete(c, r1)
    ensures Pinned(c, r2, OperandPins(c, s, i))
    ensures Condition(c, s, i).Some? ==>
              (r1.num(Condition(c, s, i).value) != 0) == (r2.num(Condition(c, s, i).value) != 0)
  {
    AlikeRegs(r1, r2, s);
    var x := c.lit(i.imm);
    assert r1.word(x) && r2.word(x) && r1.num(x) == r2.num(x);
    var sum := c.alu(ADD, s.regs[i.rs1], x);
    assert r1.num(sum) == r2.num(sum);
  }

  /** A reading that sees the concrete numbers follows the step. */
  lemma AlikeFollows<C, V(!new)>(
    sys: Sys<C>, c: S.Ops<V>, p: P.Ops, r1: Reading<V>, r2: Reading<V>, s0: S.Sim<C, V>, arrive: C -> C)
    requires Agrees(c, p, r1) && Agrees(c, p, r2) && Alike(r1, r2, s0) && ReadsConcrete(c, r1)
    ensures Follows(sys, c, r2, s0, arrive)
  {
    var s := s0.(ctl := arrive(s0.ctl));
    AlikeRegs(r1, r2, s);
    TraceIsConcrete(sys, c, s0, arrive);
    match Route(sys.port, s.pc, 4, |s.mem|) {
      case Miss(_) =>
      case Hit(m) =>
        var i := sys.decode(S.FetchWord(c, s.mem[m..m + 4]));
        AlikeOperands(c, p, r1, r2, s, i);
        ExecTraceForm(sys, c, s, i);
    }
  }

  /** Readings that agree before a run agree after it: terms keep evaluating to the concrete values. */
  lemma {:induction false} RunKeepsAlike<C, V(!new)>(
    sys: Sys<C>, c: S.Ops<V>, p: P.Ops, r1: Reading<V>, r2: Reading<V>, s: S.Sim<C, V>, arrivals: seq<C -> C>)
    requires Agrees(c, p, r1) && Agrees(c, p, r2) && Alike(r1, r2, s) && ReadsConcrete(c, r1)
    ensures Alike(r1, r2, S.Run(sys, c, s, arrivals).next)
    decreases |arrivals|
  {
    if arrivals != [] && s.status.Runnable? {
      var next := S.Step(sys, c, s, arrivals[0]).next;
      AlikeFollows(sys, c, p, r1, r2, s, arrivals[0]);
      AlikeFollows(sys, c, p, r1, r1, s, arrivals[0]);
      StepView(sys, c, p, r1, s, arrivals[0]);
      StepView(sys, c, p, r2, s, arrivals[0]);
      RunKeepsAlike(sys, c, p, r1, r2, next, arrivals[1..]);
    }
  }

  /** No value that the run uses by its concrete part has a symbolic part. */
  ghost predicate ConcreteControl<C, V>(sys: Sys<C>, c: S.Ops<V>, s0: S.Sim<C, V>, arrivals: seq<C -> C>)
    requires S.Valid(s0)
    decreases |arrivals|
  {
    arrivals == [] || !s0.status.Runnable? ||
    (&& (forall v :: v in Pins(sys, c, s0.(ctl := arrivals[0](s0.ctl))) ==> !c.symbolic(v))
     && ConcreteControl(sys, c, S.Step(sys, c, s0, arrivals[0]).next, arrivals[1..]))
  }

  /** Then the recorded branches are all a reading has to keep. */
  lemma {:induction false} TraceDecides<C, V(!new)>(
    sys: Sys<C>, c: S.Ops<V>, r: Reading<V>, s: S.Sim<C, V>, arrivals: seq<C -> C>)
    requires S.Valid(s) && ConstantsAgree(c, r) && ConcreteControl(sys, c, s, arrivals)
    requires Keeps(r, S.Run(sys, c, s, arrivals).trace)
    ensures FollowsRun(sys, c, r, s, arrivals)
    decreases |arrivals|
  {
    if arrivals != [] && s.status.Runnable? {
      var one := S.Step(sys, c, s, arrivals[0]);
      var rest := S.Run(sys, c, one.next, arrivals[1..]);
      var all := one.trace + rest.trace;
      assert forall k :: 0 <= k < |one.trace| ==> all[k] == one.trace[k];
      assert forall k :: 0 <= k < |rest.trace| ==> all[|one.trace| + k] == rest.trace[k];
      var pins := Pins(sys, c, s.(ctl := arrivals[0](s.ctl)));
      forall k | 0 <= k < |pins| ensures r.num(pins[k]) == c.concrete(pins[k]) {
        assert pins[k] in pins;
      }
      TraceDecides(sys, c, r, one.next, arrivals[1..]);
    }
  }
}
