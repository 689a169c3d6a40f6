/** Concolic values: a concrete bit-vector with an optional term over the symbolic input. */
module Concolic {
  import opened Bits
  import opened Isa

  /** The symbolic input: one unbounded cell per symbolic variable, read modulo its width. */
  type Input = nat -> nat

  datatype Expr =
    | Variable(name: nat, width: nat)
    | Const(bits: BV)
    | Binary(op: BinOp, left: Expr, right: Expr)
    | Zext(arg: Expr, to: nat)
    | Sext(arg: Expr, to: nat)
    | Slice(arg: Expr, off: nat, len: nat)
    | Concat(hi: Expr, lo: Expr)
    | Ite(cond: Expr, yes: Expr, no: Expr)

  function Eval(e: Expr, env: Input): (r: BV) {
    match e
    case Variable(x, w) => Mk(w, env(x))
    case Const(b) => b
    case Binary(op, l, r) => Apply(op, Eval(l, env), Eval(r, env))
    case Zext(a, w) => ZeroExtend(Eval(a, env), w)
    case Sext(a, w) => SignExtend(Eval(a, env), w)
    case Slice(a, off, len) => ExtractBits(Eval(a, env), off, len)
    case Concat(h, l) => Join(Eval(h, env), Eval(l, env))
    case Ite(c, t, f) => Select(Eval(c, env), Eval(t, env), Eval(f, env))
  }

  datatype Value = Value(concrete: BV, symbolic: Option<Expr>)

  function Term(v: Value): Expr {
    if v.symbolic.Some? then v.symbolic.value else Const(v.concrete)
  }

  /** One way of reading a value: by its concrete part, or by its term under an input. */
  datatype Reading = Concretely | Under(env: Input)

  function Read(v: Value, how: Reading): (r: BV) {
    match how
    case Concretely => v.concrete
    case Under(env) => if v.symbolic.Some? then Eval(v.symbolic.value, env) else v.concrete
  }

  function Literal(w: nat, n: int): Value {
    Value(Mk(w, n), None)
  }

  function Lift2(a: Value, b: Value, c: BV, t: Expr): Value {
    Value(c, if a.symbolic.Some? || b.symbolic.Some? then Some(t) else None)
  }

  function Bin(op: BinOp, a: Value, b: Value): Value {
    Lift2(a, b, Apply(op, a.concrete, b.concrete), Binary(op, Term(a), Term(b)))
  }

  function ZextV(a: Value, w: nat): Value {
    Lift2(a, a, ZeroExtend(a.concrete, w), Zext(Term(a), w))
  }

  function SextV(a: Value, w: nat): Value {
    Lift2(a, a, SignExtend(a.concrete, w), Sext(Term(a), w))
  }

  function Extract(a: Value, off: nat, len: nat): Value {
    Lift2(a, a, ExtractBits(a.concrete, off, len), Slice(Term(a), off, len))
  }

  function ConcatV(hi: Value, lo: Value): Value {
    Lift2(hi, lo, Join(hi.concrete, lo.concrete), Concat(Term(hi), Term(lo)))
  }

  function SelectV(c: Value, t: Value, f: Value): Value {
    Value(Select(c.concrete, t.concrete, f.concrete),
          if c.symbolic.Some? || t.symbolic.Some? || f.symbolic.Some?
          then Some(Ite(Term(c), Term(t), Term(f))) else None)
  }

  lemma ReadTerm(a: Value, env: Input)
    ensures Eval(Term(a), env) == Read(a, Under(env))
  {
  }

  // Every reading maps a concolic operation to the operation on the values read.

  lemma ReadBin(op: BinOp, a: Value, b: Value, how: Reading)
    ensures Read(Bin(op, a, b), how) == Apply(op, Read(a, how), Read(b, how))
  {
    if how.Under? && (a.symbolic.Some? || b.symbolic.Some?) {
      ReadTerm(a, how.env);
      ReadTerm(b, how.env);
      assert Eval(Binary(op, Term(a), Term(b)), how.env) == Apply(op, Eval(Term(a), how.env), Eval(Term(b), how.env));
    }
  }

  lemma ReadUnary(a: Value, off: nat, len: nat, how: Reading)
    ensures Read(ZextV(a, len), how) == ZeroExtend(Read(a, how), len)
    ensures Read(SextV(a, len), how) == SignExtend(Read(a, how), len)
    ensures Read(Extract(a, off, len), how) == ExtractBits(Read(a, how), off, len)
  {
  }

  lemma ReadConcat(a: Value, b: Value, how: Reading)
    ensures Read(ConcatV(a, b), how) == Join(Read(a, how), Read(b, how))
  {
    if how.Under? && (a.symbolic.Some? || b.symbolic.Some?) {
      ReadTerm(a, how.env);
      ReadTerm(b, how.env);
      assert Eval(Concat(Term(a), Term(b)), how.env) == Join(Eval(Term(a), how.env), Eval(Term(b), how.env));
    }
  }

  lemma ReadSelect(c: Value, a: Value, b: Value, how: Reading)
    ensures Read(SelectV(c, a, b), how) == Select(Read(c, how), Read(a, how), Read(b, how))
  {
    if how.Under? {
      ReadTerm(a, how.env);
      ReadTerm(b, how.env);
      ReadTerm(c, how.env);
    }
  }

  /** The value has width `w` however it is read. */
  ghost predicate Wide(v: Value, w: nat) {
    forall how: Reading :: Read(v, how).width == w
  }
}
