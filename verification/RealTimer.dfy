/** The real-time timer of the interrupt controller: tick conversion, compare writes and the chunked sleep. */
module RealTimer {

  const WORD64: nat := 0x1_0000_0000_0000_0000

  type U64 = n: nat | n < WORD64

  /** Nanoseconds on the clock since the start; the clock counts in a signed 64-bit number. */
  type Nanos = n: nat | n < 0x8000_0000_0000_0000

  /** 15625 / 512 in integer arithmetic. */
  const DIVIDEND: nat := 30

  const NS_MAX: nat := 999_999_999
  const US_MAX: nat := NS_MAX / 1000

  function UsecToTicks(us: U64): U64 {
    us / DIVIDEND
  }

  function TicksToUsec(ticks: U64): U64 {
    ticks * DIVIDEND % WORD64
  }

  function Mtime(now: Nanos): U64 {
    UsecToTicks(now / 1000)
  }

  function Sum(ns: seq<nat>): nat {
    if ns == [] then 0 else Sum(ns[..|ns| - 1]) + ns[|ns| - 1]
  }

  /** The number of full chunks slept before the last one. */
  function Chunks(d: nat): nat
    requires d > 0
  {
    (d - 1) / US_MAX
  }

  lemma SumAppend(ns: seq<nat>, x: nat)
    ensures Sum(ns + [x]) == Sum(ns) + x
  {
    assert (ns + [x])[..|ns|] == ns;
  }

  /**
    The timer thread: the sleeps it requests, in nanoseconds. `None` is the failed assertion on
    a zero duration.
   */
  method Callback(duration: U64) returns (fires: bool, slept: seq<nat>)
    ensures fires <==> duration > 0
    ensures fires ==> Sum(slept) == 1000 * duration + 999 * Chunks(duration)
    ensures forall x :: x in slept ==> x <= NS_MAX
  {
    var count: nat := duration;
    slept := [];
    ghost var k: nat := 0;
    while count > US_MAX
      invariant duration == count + k * US_MAX && (duration > 0 ==> count > 0)
      invariant Sum(slept) == k * NS_MAX
      invariant forall x :: x in slept ==> x <= NS_MAX
    {
      SumAppend(slept, NS_MAX);
      slept := slept + [NS_MAX];
      count := count - US_MAX;
      k := k + 1;
    }
    var ns := count * 1000 % WORD64;
    if !(ns > count) {
      return false, slept;
    }
    ChunkCount(duration, count, k);
    SumAppend(slept, ns);
    slept := slept + [ns];
    return true, slept;
  }

  lemma ChunkCount(d: nat, count: nat, k: nat)
    requires d == count + k * US_MAX && 0 < count <= US_MAX
    ensures Chunks(d) == k && k * NS_MAX + count * 1000 == 1000 * d + 999 * k
  {
    assert US_MAX == 999_999;
    assert d - 1 == 999_999 * k + (count - 1);
  }

  datatype Armed = Raised | Sleeping(usecs: U64)

  class Clint {
    const mtimecmp: array<U64>
    const pending: array<bool>
    var mtime: U64

    ghost predicate Valid()
    {
      mtimecmp.Length == pending.Length
    }

    constructor (harts: nat)
      ensures Valid() && fresh(mtimecmp) && fresh(pending) && mtimecmp.Length == harts
    {
      mtimecmp := new U64[harts](_ => 0);
      pending := new bool[harts](_ => false);
      mtime := 0;
    }

    method UpdateAndGetMtime(now: Nanos) returns (t: U64)
      modifies this`mtime
      ensures t == mtime == Mtime(now)
    {
      mtime := UsecToTicks(now / 1000);
      t := mtime;
    }

    /** A write to a compare register: the interrupt is raised now, or a timer is started. */
    method PostWriteMtimecmp(hart: nat, cmp: U64, now: Nanos) returns (a: Armed)
      requires Valid() && hart < mtimecmp.Length
      modifies this`mtime, mtimecmp, pending
      ensures mtimecmp[..] == old(mtimecmp[..])[hart := cmp]
      ensures pending[..] == old(pending[..])[hart := Mtime(now) >= cmp]
      ensures a == if Mtime(now) >= cmp then Raised else Sleeping(TicksToUsec(cmp - Mtime(now)))
    {
      mtimecmp[hart] := cmp;
      var time := UpdateAndGetMtime(now);
      if time >= cmp {
        pending[hart] := true;
        return Raised;
      }
      pending[hart] := false;
      return Sleeping(TicksToUsec(cmp - time));
    }

    /** The handler run when a timer has expired. */
    method Interrupt(now: Nanos)
      requires Valid()
      modifies this`mtime, pending
      ensures forall i :: 0 <= i < pending.Length ==> pending[i] == (old(pending[i]) || Mtime(now) >= mtimecmp[i])
    {
      var t := UpdateAndGetMtime(now);
      var i := 0;
      while i < pending.Length
        invariant 0 <= i <= pending.Length && mtime == Mtime(now)
        invariant forall j :: 0 <= j < i ==> pending[j] == (old(pending[j]) || Mtime(now) >= mtimecmp[j])
        invariant forall j :: i <= j < pending.Length ==> pending[j] == old(pending[j])
      {
        if mtime >= mtimecmp[i] {
          pending[i] := true;
        }
        i := i + 1;
      }
    }
  }

  // ----- the timer never fires early -----

  lemma MtimeIs(now: Nanos)
    ensures Mtime(now) == now / 30_000
  {
  }

  lemma TicksFit(ticks: U64)
    ensures ticks <= (WORD64 - 1) / DIVIDEND ==> TicksToUsec(ticks) == DIVIDEND * ticks
  {
  }

  /**
    A timer armed at `start` expires at `end`, no sooner than the sleeps it requested. It then
    finds the compare value reached exactly if the distance fits: in particular it never fires
    early below the overflow bound.
   */
  lemma FiresOnTime(start: Nanos, end: Nanos, cmp: U64, slept: seq<nat>)
    requires Mtime(start) < cmp
    requires var d := TicksToUsec(cmp - Mtime(start));
             d > 0 && Sum(slept) == 1000 * d + 999 * Chunks(d) && end >= start + Sum(slept)
    ensures Mtime(end) >= cmp <==> cmp - Mtime(start) <= (WORD64 - 1) / DIVIDEND
  {
    var goal := cmp - Mtime(start);
    MtimeIs(start);
    MtimeIs(end);
    TicksFit(goal);
    if goal <= (WORD64 - 1) / DIVIDEND {
      assert end >= 30_000 * (start / 30_000) + 30_000 * goal;
      assert end >= 30_000 * cmp;
    } else {
      assert end / 30_000 <= 0x8000_0000_0000_0000 / 30_000 < goal;
    }
  }

  /** The zero-duration assertion of the timer fails for exactly one distance. */
  lemma ZeroDurationExact(ticks: U64)
    requires ticks > 0
    ensures TicksToUsec(ticks) == 0 <==> ticks == 0x8000_0000_0000_0000
  {
    if TicksToUsec(ticks) == 0 {
      var k := ticks * DIVIDEND / WORD64;
      assert 15 * ticks == 0x8000_0000_0000_0000 * k;
      // 2^63 leaves the remainder 8 modulo 15, so 15 divides k.
      var u := ticks - 0x8000_0000_0000_0000 / 15 * k;
      assert 15 * u == 8 * k;
      var m := 2 * u - k;
      assert k == 15 * m;
      assert ticks == 0x8000_0000_0000_0000 * m;
    }
  }
}
