/**
  LR, SC and AMO over the shared bus lock, as interleaved steps of any number of harts and of
  writing peripherals. A step is at most one bus access with its access check; the simulator's
  cooperative threads interleave no finer.
 */
module Atomics {
  import opened Isa
  import opened BusLock

  /** A value object holding an address; SC compares the objects, not the addresses. */
  type Ref = nat

  datatype Phase =
    | Idle
    | Executing
    | AmoLocked(addr: nat)
    | AmoRead(addr: nat, was: seq<nat>)
    | LrLocked(ref: Ref)
    | ScReady(ref: Ref)
    | Finishing

  datatype Hart = Hart(phase: Phase, counter: nat, lrAddr: Option<Ref>)

  datatype Machine = Machine(lock: Owner, harts: seq<Hart>, mem: nat -> nat)

  datatype Step =
    | Fetch(h: nat)
    | Compute(h: nat)
    | Load(h: nat, addr: nat, was: seq<nat>)
    | Store(h: nat, addr: nat, bytes: seq<nat>)
    | AmoLock(h: nat, ref: Ref)
    | AmoLoad(h: nat, addr: nat, was: seq<nat>)
    | AmoStore(h: nat, addr: nat, was: seq<nat>, bytes: seq<nat>)
    | LrLock(h: nat, ref: Ref)
    | LrLoad(h: nat, ref: Ref, was: seq<nat>)
    | ScCheck(h: nat, ref: Ref)
    | ScStore(h: nat, ref: Ref, bytes: seq<nat>)
    | Wfi(h: nat)
    | Trap(h: nat)
    | Interrupt(h: nat)
    | Finish(h: nat)
    | PeripheralWrite(addr: nat, bytes: seq<nat>)

  predicate IsStore(a: Step) {
    a.Store? || a.AmoStore? || a.ScStore? || a.PeripheralWrite?
  }

  function Written(mem: nat -> nat, addr: nat, bytes: seq<nat>): nat -> nat {
    (x: nat) => if addr <= x < addr + |bytes| then bytes[x - addr] else mem(x)
  }

  /** The four bytes of the word at an address. */
  function Word(mem: nat -> nat, addr: nat): seq<nat> {
    [mem(addr), mem(addr + 1), mem(addr + 2), mem(addr + 3)]
  }

  function At(s: Machine, h: nat, p: Phase): Machine
    requires h < |s.harts|
  {
    s.(harts := s.harts[h := s.harts[h].(phase := p)])
  }

  function Count(s: Machine, h: nat, n: nat): Machine
    requires h < |s.harts|
  {
    s.(harts := s.harts[h := s.harts[h].(counter := n)])
  }

  /** `release_lr_sc_reservation`. */
  function Released(s: Machine, h: nat): Machine
    requires h < |s.harts|
  {
    Count(s, h, 0).(lock := Unlocked(s.lock, h))
  }

  /** A hart's store: the bytes are written and its lock is given back. */
  function Stored(s: Machine, h: nat, addr: nat, bytes: seq<nat>): Machine {
    s.(mem := Written(s.mem, addr, bytes), lock := Unlocked(s.lock, h))
  }

  /** `performance_and_sync_update` at the end of a step. */
  function Finished(s: Machine, h: nat): Machine
    requires h < |s.harts|
  {
    var n := s.harts[h].counter;
    if n == 0 then At(s, h, Idle)
    else if n == 1 then At(Released(s, h), h, Idle)
    else At(Count(s, h, n - 1), h, Idle)
  }

  /** Can the step happen now? Harts and peripherals wait for the lock where the code does. */
  predicate Enabled(addrOf: Ref -> nat, s: Machine, a: Step) {
    if a.PeripheralWrite? then s.lock == None
    else
      a.h < |s.harts| &&
      var p := s.harts[a.h].phase;
      match a
      case Fetch(h) => p == Idle && Admits(s.lock, h)
      case Compute(h) => p == Executing
      case Load(h, x, was) => p == Executing && Admits(s.lock, h) && was == Word(s.mem, x)
      case Store(h, _, _) => p == Executing && Admits(s.lock, h)
      case AmoLock(h, _) => p == Executing && Admits(s.lock, h)
      case AmoLoad(h, x, was) => p == AmoLocked(x) && Admits(s.lock, h) && was == Word(s.mem, x)
      case AmoStore(h, x, was, bytes) => p == AmoRead(x, was) && Admits(s.lock, h) && |bytes| == 4
      case LrLock(h, _) => p == Executing && Admits(s.lock, h)
      case LrLoad(h, r, was) => p == LrLocked(r) && Admits(s.lock, h) && was == Word(s.mem, addrOf(r))
      case ScCheck(h, _) => p == Executing
      case ScStore(h, r, bytes) => p == ScReady(r) && Admits(s.lock, h) && |bytes| == 4
      case Wfi(h) => p == Executing
      case Trap(h) => p != Finishing
      case Interrupt(h) => p == Finishing
      case Finish(h) => p == Finishing
  }

  function Next(addrOf: Ref -> nat, s: Machine, a: Step): Machine
    requires Enabled(addrOf, s, a)
  {
    match a
    case PeripheralWrite(x, bytes) => s.(mem := Written(s.mem, x, bytes))
    case Fetch(h) => At(s, h, Executing)
    case Compute(h) => At(s, h, Finishing)
    case Load(h, _, _) => At(s, h, Finishing)
    case Store(h, x, bytes) => At(Stored(s, h, x, bytes), h, Finishing)
    case AmoLock(h, r) => At(s.(lock := Some(h)), h, AmoLocked(addrOf(r)))
    case AmoLoad(h, x, was) => At(s, h, AmoRead(x, was))
    case AmoStore(h, x, _, bytes) => At(Stored(s, h, x, bytes), h, Finishing)
    case LrLock(h, r) =>
      s.(lock := Some(h), harts := s.harts[h := s.harts[h].(phase := LrLocked(r), lrAddr := Some(r))])
    case LrLoad(h, _, _) =>
      At(if s.harts[h].counter == 0 then Count(s, h, 17) else s, h, Finishing)
    case ScCheck(h, r) =>
      if s.lock == Some(h) && s.harts[h].lrAddr == Some(r) then At(s, h, ScReady(r))
      else At(Released(s, h), h, Finishing)
    case ScStore(h, r, bytes) => At(Count(Stored(s, h, addrOf(r), bytes), h, 0), h, Finishing)
    case Wfi(h) => At(Released(s, h), h, Finishing)
    case Trap(h) => At(Released(s, h), h, Finishing)
    case Interrupt(h) => Released(s, h)
    case Finish(h) => Finished(s, h)
  }

  /** The harts stand at a step boundary and nobody holds the lock. */
  predicate Initial(s: Machine) {
    s.lock == None && forall h :: 0 <= h < |s.harts| ==> s.harts[h] == Hart(Idle, 0, None)
  }

  /** The state after a trace, if every step of it is enabled in turn. */
  function Run(addrOf: Ref -> nat, s: Machine, trace: seq<Step>): Option<Machine>
    decreases |trace|
  {
    if trace == [] then Some(s)
    else
      var before := Run(addrOf, s, trace[..|trace| - 1]);
      if before.Some? && Enabled(addrOf, before.value, trace[|trace| - 1])
      then Some(Next(addrOf, before.value, trace[|trace| - 1])) else None
  }
}
