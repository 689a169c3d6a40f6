/** The interrupt controller for one hart: gateway, arbitration, claim and priority writes. */
module Plic {

  /** Interrupt 0 does not exist; `priority` has one word more than there are interrupts. */
  datatype Config = Config(enabled: seq<bool>, pending: seq<bool>, priority: seq<nat>, threshold: nat)

  predicate Valid(c: Config) {
    |c.pending| >= 1 && |c.enabled| == |c.pending| && |c.priority| == |c.pending| + 1
  }

  /** Enabled, pending and of non-zero priority; above the threshold if that is considered. */
  predicate Candidate(c: Config, threshold: bool, i: nat)
    requires Valid(c)
  {
    && 1 <= i < |c.pending| && c.enabled[i] && c.pending[i] && c.priority[i] > 0
    && (threshold ==> c.priority[i] > c.threshold)
  }

  /** Higher priority first, then the smaller number. */
  predicate Before(c: Config, i: nat, j: nat)
    requires Valid(c) && i < |c.pending| && j < |c.pending|
  {
    c.priority[i] > c.priority[j] || (c.priority[i] == c.priority[j] && i < j)
  }

  /** The first candidate, or 0 if there is none. */
  ghost predicate IsNext(c: Config, threshold: bool, id: nat)
    requires Valid(c)
  {
    if id == 0 then forall i: nat :: !Candidate(c, threshold, i)
    else Candidate(c, threshold, id) && forall i: nat :: Candidate(c, threshold, i) ==> i == id || Before(c, id, i)
  }

  /** The scan over the first `n` interrupts, as a function. */
  function Scan(c: Config, threshold: bool, n: nat): (id: nat)
    requires Valid(c) && 1 <= n <= |c.pending|
    ensures id < n
    ensures id != 0 ==> Candidate(c, threshold, id)
    ensures forall i: nat :: i < n && Candidate(c, threshold, i) ==> id != 0 && (i == id || Before(c, id, i))
  {
    if n == 1 then 0
    else
      var best := Scan(c, threshold, n - 1);
      if Candidate(c, threshold, n - 1) && (best == 0 || c.priority[n - 1] > c.priority[best]) then n - 1 else best
  }

  function Next(c: Config, threshold: bool): (id: nat)
    requires Valid(c)
    ensures id < |c.pending| && IsNext(c, threshold, id)
  {
    Scan(c, threshold, |c.pending|)
  }

  /** `IsNext` determines the interrupt. */
  lemma NextUnique(c: Config, threshold: bool, i: nat, j: nat)
    requires Valid(c) && IsNext(c, threshold, i) && IsNext(c, threshold, j)
    ensures i == j
  {
  }

  function Claimed(c: Config): Config
    requires Valid(c)
  {
    c.(pending := c.pending[Next(c, false) := false])
  }

  function Min(x: nat, y: nat): nat {
    if x < y then x else y
  }

  function Clamped(max: nat, p: seq<nat>): (r: seq<nat>)
    ensures |r| == |p|
  {
    seq(|p|, (i: nat) requires i < |p| => if i < |p| - 1 then Min(p[i], max) else p[i])
  }

  class Controller {
    const enabled: array<bool>
    const pending: array<bool>
    const priority: array<nat>
    const maxPriority: nat
    var threshold: nat
    var claim: nat
    var eip: bool

    ghost predicate Ready()
      reads this, enabled, pending, priority
    {
      enabled != pending && Valid(Now())
    }

    function Now(): Config
      reads this, enabled, pending, priority
    {
      Config(enabled[..], pending[..], priority[..], threshold)
    }

    constructor (interrupts: nat, max: nat)
      requires interrupts >= 1
      ensures Ready() && fresh(enabled) && fresh(pending) && fresh(priority)
      ensures maxPriority == max && pending.Length == interrupts && !eip
      ensures forall i :: 0 <= i < interrupts ==> !enabled[i] && !pending[i] && priority[i] == 1
    {
      enabled := new bool[interrupts](_ => false);
      pending := new bool[interrupts](_ => false);
      priority := new nat[interrupts + 1](i => if i < interrupts then 1 else 0);
      maxPriority, threshold, claim, eip := max, 0, 0, false;
    }

    method GatewayTrigger(irq: nat)
      requires Ready() && 0 < irq < pending.Length
      modifies pending
      ensures Ready() && Now() == old(Now()).(pending := old(pending[..])[irq := true])
    {
      pending[irq] := true;
    }

    /** `hart_get_next_pending_interrupt`. */
    method NextPending(considerThreshold: bool) returns (minId: nat)
      requires Ready()
      ensures minId < pending.Length && minId == Next(Now(), considerThreshold)
    {
      minId := 0;
      var maxPrio := 0;
      var i := 1;
      while i < pending.Length
        invariant 1 <= i <= pending.Length
        invariant minId == Scan(Now(), considerThreshold, i)
        invariant maxPrio == if minId == 0 then 0 else priority[minId]
      {
        if enabled[i] {
          if pending[i] {
            var prio := priority[i];
            if prio > 0 && (!considerThreshold || prio > threshold) {
              if prio > maxPrio {
                maxPrio := prio;
                minId := i;
              }
            }
          }
        }
        i := i + 1;
      }
    }

    /** A read of the claim register. */
    method Claim() returns (id: nat)
      requires Ready()
      modifies pending, this`claim
      ensures Ready() && id == Next(old(Now()), false) && claim == id
      ensures Now() == Claimed(old(Now()))
    {
      id := NextPending(false);
      claim := id;
      pending[id] := false;
    }

    /** A write to a priority register: all priorities but the word past the last one are clamped. */
    method WritePriority(i: nat, v: nat)
      requires Ready() && i < priority.Length
      modifies priority
      ensures Ready() && Now() == old(Now()).(priority := Clamped(maxPriority, old(priority[..])[i := v]))
      ensures forall k :: 0 <= k < pending.Length && k != i ==>
                            priority[k] == if old(priority[k]) > maxPriority then maxPriority else old(priority[k])
      ensures i < pending.Length ==> priority[i] == if v > maxPriority then maxPriority else v
      ensures priority[pending.Length] == if i == pending.Length then v else old(priority[pending.Length])
    {
      ghost var was := old(priority[..])[i := v];
      priority[i] := v;
      var k := 0;
      while k < priority.Length - 1
        invariant 0 <= k <= priority.Length - 1
        invariant forall j :: 0 <= j < k ==> priority[j] == Min(was[j], maxPriority)
        invariant forall j :: k <= j < priority.Length ==> priority[j] == was[j]
      {
        priority[k] := Min(priority[k], maxPriority);
        k := k + 1;
      }
      assert priority[..] == Clamped(maxPriority, was);
    }

    method WriteThreshold(v: nat)
      requires Ready()
      modifies this`threshold
      ensures Ready() && Now() == old(Now()).(threshold := v)
    {
      threshold := v;
    }

    method WriteEnabled(i: nat, on: bool)
      requires Ready() && i < enabled.Length
      modifies enabled
      ensures Ready() && Now() == old(Now()).(enabled := old(enabled[..])[i := on])
    {
      enabled[i] := on;
    }

    /** One round of the notification thread: the hart is interrupted unless it already is. */
    method Notify() returns (raised: bool)
      requires Ready()
      modifies this`eip
      ensures Ready() && Now() == old(Now())
      ensures raised == (!old(eip) && Next(Now(), true) > 0) && eip == (old(eip) || raised)
    {
      raised := false;
      if !eip {
        var id := NextPending(true);
        if id > 0 {
          eip := true;
          raised := true;
        }
      }
    }
  }
}
