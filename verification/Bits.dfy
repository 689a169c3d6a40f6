/** Fixed-width bit-vectors, as the solver layer below the simulator computes on them. */
module Bits {

  function Pow2(n: nat): (p: nat)
    ensures p > 0
  {
    if n == 0 then 1 else 2 * Pow2(n - 1)
  }

  lemma {:induction false} Pow2Add(m: nat, n: nat)
    ensures Pow2(m + n) == Pow2(m) * Pow2(n)
  {
    if m > 0 {
      Pow2Add(m - 1, n);
    }
  }

  lemma Pow2Values()
    ensures Pow2(1) == 2 && Pow2(5) == 32 && Pow2(8) == 0x100 && Pow2(16) == 0x1_0000
    ensures Pow2(24) == 0x100_0000 && Pow2(31) == 0x8000_0000 && Pow2(32) == 0x1_0000_0000
    ensures Pow2(63) == 0x8000_0000_0000_0000 && Pow2(64) == 0x1_0000_0000_0000_0000
  {
    assert Pow2(5) == 32;
    Pow2Add(5, 3);
    Pow2Add(8, 8);
    Pow2Add(8, 16);
    Pow2Add(16, 16);
    Pow2Add(32, 32);
  }

  datatype Word = Word(width: nat, value: nat)

  /** A word whose value fits its width. */
  type BV = w: Word | w.value < Pow2(w.width) witness Word(0, 0)

  /** Reduction modulo `m`, kept behind a name so that proofs use it by its lemmas. */
  function Mod(v: int, m: nat): (r: nat)
    requires m > 0
    ensures r < m
    ensures 0 <= v < m ==> r == v
  {
    if 0 <= v < m then v else v % m
  }

  lemma ModIs(v: int, m: nat)
    requires m > 0
    ensures Mod(v, m) == v % m
  {
  }

  /** The integer `v` reduced to `w` bits. */
  function Mk(w: nat, v: int): (b: BV)
    ensures b.width == w
    ensures 0 <= v < Pow2(w) ==> b.value == v
  {
    Word(w, Mod(v, Pow2(w)))
  }

  /** Two's complement reading of a `w`-bit value. */
  function Signed(w: nat, v: nat): int {
    if w > 0 && v >= Pow2(w - 1) then v - Pow2(w) else v
  }

  datatype Logic = AndL | OrL | XorL

  function Bit(k: Logic, x: nat, y: nat): nat
    requires x < 2 && y < 2
  {
    match k
    case AndL => if x == 1 && y == 1 then 1 else 0
    case OrL => if x == 0 && y == 0 then 0 else 1
    case XorL => if x == y then 0 else 1
  }

  function Bitwise(k: Logic, x: nat, y: nat): nat {
    if x == 0 && y == 0 then 0
    else 2 * Bitwise(k, x / 2, y / 2) + Bit(k, x % 2, y % 2)
  }

  lemma {:induction false} BitwiseFits(k: Logic, x: nat, y: nat, w: nat)
    requires x < Pow2(w) && y < Pow2(w)
    ensures Bitwise(k, x, y) < Pow2(w)
  {
    if x != 0 || y != 0 {
      BitwiseFits(k, x / 2, y / 2, w - 1);
    }
  }

  /** Bit `i` of a number. */
  predicate BitAt(n: nat, i: nat) {
    n / Pow2(i) % 2 == 1
  }

  lemma DivModUnique(n: int, m: nat, q: int, r: nat)
    requires m > 0 && r < m && n == m * q + r
    ensures n / m == q && n % m == r
  {
    var e := n / m - q;
    assert m * e == r - n % m;
    assert -1 * m < m * e < 1 * m;
    assert e == 0;
  }

  lemma HalvesFirst(n: int, i: nat)
    requires i > 0
    ensures n / Pow2(i) == n / 2 / Pow2(i - 1)
  {
    var p := Pow2(i - 1);
    var q, r := n / 2 / p, n / 2 % p;
    assert n / 2 == p * q + r;
    var rest := 2 * r + n % 2;
    assert n == (2 * p) * q + rest && rest < 2 * p;
    DivModUnique(n, 2 * p, q, rest);
  }

  lemma BitShifts(n: nat, i: nat)
    ensures BitAt(n, i) <==> if i == 0 then n % 2 == 1 else BitAt(n / 2, i - 1)
  {
    if i > 0 {
      HalvesFirst(n, i);
    }
  }

  /** Each bit of the result is the conjunction, disjunction or exclusive or of the operands' bits. */
  lemma {:induction false} BitwiseBits(k: Logic, x: nat, y: nat, i: nat)
    ensures BitAt(Bitwise(k, x, y), i) <==>
            match k
            case AndL => BitAt(x, i) && BitAt(y, i)
            case OrL => BitAt(x, i) || BitAt(y, i)
            case XorL => BitAt(x, i) != BitAt(y, i)
    decreases i
  {
    var b := Bitwise(k, x, y);
    BitShifts(x, i);
    BitShifts(y, i);
    BitShifts(b, i);
    assert b / 2 == Bitwise(k, x / 2, y / 2);
    if i > 0 {
      BitwiseBits(k, x / 2, y / 2, i - 1);
    }
  }

  /** Division truncating toward zero; zero for a zero divisor. */
  function TruncDiv(a: int, b: int): int {
    if b == 0 then 0
    else if (a >= 0) == (b > 0) then Abs(a) / Abs(b)
    else -(Abs(a) / Abs(b))
  }

  /** Remainder of `TruncDiv`, with the sign of the dividend. */
  function TruncRem(a: int, b: int): int {
    a - b * TruncDiv(a, b)
  }

  function Abs(a: int): nat {
    if a >= 0 then a else -a
  }

  datatype BinOp =
    | Add | Sub | Mul
    | Slt | Ult | Sge | Uge | Eq | Ne
    | And | Or | Xor
    | Shl | Lshr | Ashr
    | Sdiv | Udiv | Srem | Urem

  function Truth(b: bool): (r: BV) {
    Mk(1, if b then 1 else 0)
  }

  /** The value of a binary solver operation; comparisons are one bit wide. */
  function Apply(op: BinOp, a: BV, b: BV): (r: BV)
    ensures r.width == (if op in {Slt, Ult, Sge, Uge, Eq, Ne} then 1 else a.width)
  {
    var w := a.width;
    match op
    case Add => Mk(w, a.value + b.value)
    case Sub => Mk(w, a.value - b.value)
    case Mul => Mk(w, a.value * b.value)
    case Slt => Truth(Signed(w, a.value) < Signed(w, b.value))
    case Ult => Truth(a.value < b.value)
    case Sge => Truth(Signed(w, a.value) >= Signed(w, b.value))
    case Uge => Truth(a.value >= b.value)
    case Eq => Truth(a.value == b.value)
    case Ne => Truth(a.value != b.value)
    case And => Mk(w, Bitwise(AndL, a.value, b.value))
    case Or => Mk(w, Bitwise(OrL, a.value, b.value))
    case Xor => Mk(w, Bitwise(XorL, a.value, b.value))
    case Shl => Mk(w, a.value * Pow2(b.value))
    case Lshr => Mk(w, a.value / Pow2(b.value))
    case Ashr => Mk(w, Signed(w, a.value) / Pow2(b.value))
    case Sdiv => Mk(w, TruncDiv(Signed(w, a.value), Signed(w, b.value)))
    case Udiv => Mk(w, if b.value == 0 then 0 else a.value / b.value)
    case Srem => Mk(w, TruncRem(Signed(w, a.value), Signed(w, b.value)))
    case Urem => Mk(w, if b.value == 0 then a.value else a.value % b.value)
  }

  function ZeroExtend(a: BV, w: nat): (r: BV)
    ensures r.width == w
  {
    Mk(w, a.value)
  }

  function SignExtend(a: BV, w: nat): (r: BV)
    ensures r.width == w
  {
    Mk(w, Signed(a.width, a.value))
  }

  function ExtractBits(a: BV, off: nat, w: nat): (r: BV)
    ensures r.width == w
  {
    Mk(w, a.value / Pow2(off))
  }

  /** Concatenation; the first argument supplies the high bits. */
  function Join(hi: BV, lo: BV): (r: BV)
    ensures r.width == hi.width + lo.width
  {
    Mk(hi.width + lo.width, hi.value * Pow2(lo.width) + lo.value)
  }

  function Select(c: BV, t: BV, f: BV): (r: BV)
    ensures r.width == t.width || r.width == f.width
  {
    if c.value != 0 then t else f
  }
}
