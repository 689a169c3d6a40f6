/** What a store leaves for the loads after it, and where an access goes, in numbers. */
module MemoryTheorems {
  import opened Isa
  import opened Bits
  import opened PlainIss
  import opened ConcolicOps

  // ----- the bus -----

  /** An access reaches a byte of the memory exactly if it starts in the mapped range and ends in the memory. */
  lemma RouteExact(port: Port, addr: nat, len: nat, size: nat, m: nat)
    ensures Route(port, addr, len, size) == Hit(m) <==>
            port.start <= addr <= port.end && addr == port.start + m && m + len <= size
    ensures Route(port, addr, len, size) == Miss(m) <==>
            if port.start <= addr <= port.end then addr == port.start + m && m + len > size else m == addr
  {
  }

  /** Accesses that share no address share no byte of the memory. */
  lemma RouteDisjoint(port: Port, a: nat, m: nat, n: nat, b: nat, k: nat, len: nat, size: nat)
    requires Route(port, a, n, size) == Hit(m) && Route(port, b, len, size) == Hit(k)
    ensures a + n <= b || b + len <= a <==> m + n <= k || k + len <= m
    ensures a == b <==> m == k
  {
  }

  // ----- faults -----

  /** The causes of failing accesses: 4 and 6 for alignment, 13 and 15 for addresses without memory. */
  lemma FaultCauses<C>(sys: Sys<C>, s: Plain<C>, rd: nat, l: LoadOp, st: StoreOp, o: AmoOp, a: nat, v: nat)
    requires Valid(s)
    ensures LoadFrom(sys, RefOps(), s, rd, l, a).Trap? ==>
              LoadFrom(sys, RefOps(), s, rd, l, a).cause ==
              if ((l.LH? || l.LHU?) && a % 2 != 0) || (l.LW? && a % 4 != 0) then 4 else 13
    ensures StoreTo(sys, RefOps(), s, st, a, v).Trap? ==>
              StoreTo(sys, RefOps(), s, st, a, v).cause ==
              if (st.SH? && a % 2 != 0) || (st.SW? && a % 4 != 0) then 6 else 15
    ensures AmoAt(sys, RefOps(), s, rd, o, a, v).Trap? ==>
              AmoAt(sys, RefOps(), s, rd, o, a, v).cause == if a % 4 != 0 then 6 else 13
  {
  }

  // ----- bytes of a word -----

  /** The base-256 digits of a number are its bytes, and sum up to it. */
  lemma DigitsAre(v: nat, b0: nat, b1: nat, b2: nat, b3: nat, q: nat)
    requires b0 < 0x100 && b1 < 0x100 && b2 < 0x100 && b3 < 0x100
    requires v == b0 + 0x100 * b1 + 0x1_0000 * b2 + 0x100_0000 * b3 + 0x1_0000_0000 * q
    ensures RefByte(v, 0) == b0 && RefByte(v, 1) == b1 && RefByte(v, 2) == b2 && RefByte(v, 3) == b3
    ensures v % 0x100 == b0 && v % 0x1_0000 == b0 + 0x100 * b1
    ensures v % 0x1_0000_0000 == b0 + 0x100 * b1 + 0x1_0000 * b2 + 0x100_0000 * b3
  {
    Pow2Values();
    var q3 := b3 + 0x100 * q;
    var q2 := b2 + 0x100 * q3;
    var q1 := b1 + 0x100 * q2;
    DivModUnique(v, 1, v, 0);
    DivModUnique(v, 0x100, q1, b0);
    DivModUnique(v, 0x1_0000, q2, b0 + 0x100 * b1);
    DivModUnique(v, 0x100_0000, q3, b0 + 0x100 * b1 + 0x1_0000 * b2);
    DivModUnique(v, 0x1_0000_0000, q, b0 + 0x100 * b1 + 0x1_0000 * b2 + 0x100_0000 * b3);
    DivModUnique(q1, 0x100, q2, b1);
    DivModUnique(q2, 0x100, q3, b2);
    DivModUnique(q3, 0x100, q, b3);
  }

  lemma LittleBytes(v: nat)
    ensures RefByte(v, 0) == v % 0x100
    ensures RefByte(v, 0) + 0x100 * RefByte(v, 1) == v % 0x1_0000
    ensures RefByte(v, 0) + 0x100 * RefByte(v, 1) + 0x1_0000 * RefByte(v, 2) + 0x100_0000 * RefByte(v, 3)
            == v % 0x1_0000_0000
  {
    var q1 := v / 0x100;
    var q2 := q1 / 0x100;
    var q3 := q2 / 0x100;
    DigitsAre(v, v % 0x100, q1 % 0x100, q2 % 0x100, q3 % 0x100, q3 / 0x100);
  }

  /** The stored bytes, lowest first. */
  function Stored(v: nat, n: nat): seq<nat> {
    seq(n, (k: nat) requires k < n => RefByte(v, k))
  }

  /** Right after a store the addressed bytes are the low bytes of the value, and all others are as before. */
  lemma StoreLeaves<C>(sys: Sys<C>, s: Plain<C>, st: StoreOp, a: nat, v: nat, m: nat)
    requires StoreTo(sys, RefOps(), s, st, a, v).Done?
    requires m == a - sys.port.start
    ensures var t, n := StoreTo(sys, RefOps(), s, st, a, v).next, (match st case SB => 1 case SH => 2 case SW => 4);
            && sys.port.start <= a && m + n <= |s.mem| == |t.mem|
            && t == s.(mem := t.mem) && t.mem[m..m + n] == Stored(v, n)
            && forall i :: 0 <= i < |s.mem| && !(m <= i < m + n) ==> t.mem[i] == s.mem[i]
  {
  }

  /** What a load of a width returns for a stored value: its low bits, extended by their sign or by zeros. */
  function Reloaded(l: LoadOp, v: nat): nat {
    match l
    case LB => if v % 0x100 < 0x80 then v % 0x100 else v % 0x100 + 0xFFFF_FF00
    case LBU => v % 0x100
    case LH => if v % 0x1_0000 < 0x8000 then v % 0x1_0000 else v % 0x1_0000 + 0xFFFF_0000
    case LHU => v % 0x1_0000
    case LW => v % 0x1_0000_0000
  }

  predicate SameWidth(st: StoreOp, l: LoadOp) {
    match st
    case SB => l.LB? || l.LBU?
    case SH => l.LH? || l.LHU?
    case SW => l.LW?
  }

  lemma LoadedIs(l: LoadOp, v: nat)
    ensures RefLoad(l, Stored(v, LoadSize(l))) == Reloaded(l, v)
  {
    LittleBytes(v);
  }

  /** A load from where a store of its width has just written returns the value written. */
  lemma LoadAfterStore<C>(sys: Sys<C>, s: Plain<C>, st: StoreOp, l: LoadOp, a: nat, v: nat, rd: nat)
    requires Valid(s) && rd < 32 && SameWidth(st, l) && StoreTo(sys, RefOps(), s, st, a, v).Done?
    ensures var t := StoreTo(sys, RefOps(), s, st, a, v).next;
            LoadFrom(sys, RefOps(), t, rd, l, a) == Ok(t.(regs := t.regs[rd := Reloaded(l, v)]))
  {
    StoreLeaves(sys, s, st, a, v, a - sys.port.start);
    LoadedIs(l, v);
  }

  lemma SliceAlike(mem: seq<nat>, now: seq<nat>, m: nat, n: nat, i: nat, k: nat)
    requires |now| == |mem| && i + k <= |mem| && (m + n <= i || i + k <= m)
    requires forall j :: 0 <= j < |mem| && !(m <= j < m + n) ==> now[j] == mem[j]
    ensures now[i..i + k] == mem[i..i + k]
  {
  }

  lemma LoadsAlike<C>(sys: Sys<C>, s: Plain<C>, t: Plain<C>, m: nat, n: nat, l: LoadOp, b: nat, rd: nat)
    requires Valid(s) && rd < 32 && t == s.(mem := t.mem) && |t.mem| == |s.mem|
    requires forall i :: 0 <= i < |s.mem| && !(m <= i < m + n) ==> t.mem[i] == s.mem[i]
    requires sys.port.start + m + n <= b || b + LoadSize(l) <= sys.port.start + m
    ensures match LoadFrom(sys, RefOps(), s, rd, l, b)
            case Trap(cause, tval) => LoadFrom(sys, RefOps(), t, rd, l, b) == Trap(cause, tval)
            case Done(u, _) => LoadFrom(sys, RefOps(), t, rd, l, b) == Ok(u.(mem := t.mem))
  {
    match Route(sys.port, b, LoadSize(l), |s.mem|)
    case Miss(_) =>
    case Hit(i) => SliceAlike(s.mem, t.mem, m, n, i, LoadSize(l));
  }

  /** A load that shares no address with the store before it is not affected by it. */
  lemma LoadElsewhere<C>(sys: Sys<C>, s: Plain<C>, st: StoreOp, l: LoadOp, a: nat, v: nat, b: nat, rd: nat)
    requires Valid(s) && rd < 32 && StoreTo(sys, RefOps(), s, st, a, v).Done?
    requires a + StoreSize(st) <= b || b + LoadSize(l) <= a
    ensures var t := StoreTo(sys, RefOps(), s, st, a, v).next;
            match LoadFrom(sys, RefOps(), s, rd, l, b)
            case Trap(cause, tval) => LoadFrom(sys, RefOps(), t, rd, l, b) == Trap(cause, tval)
            case Done(u, _) => LoadFrom(sys, RefOps(), t, rd, l, b) == Ok(u.(mem := t.mem))
  {
    var n, k := StoreSize(st), LoadSize(l);
    var t := StoreTo(sys, RefOps(), s, st, a, v).next;
    var m := a - sys.port.start;
    StoreLeaves(sys, s, st, a, v, m);
    LoadsAlike(sys, s, t, m, n, l, b, rd);
  }
}
