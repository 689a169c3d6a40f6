/** Atomicity of LR/SC and AMO over every interleaving, and the bound on holding the lock. */
module AtomicsProof {
  import opened Isa
  import opened BusLock
  import opened Atomics

  type Addressing = Ref -> nat

  // ----- what every step keeps -----

  predicate Holds(s: Machine, h: nat) {
    s.lock == Some(h)
  }

  /** The lock is held for the LR/SC reservation rather than by a running LR or AMO. */
  predicate Resting(p: Phase) {
    p.Idle? || p.Executing? || p.ScReady? || p.Finishing?
  }

  predicate HartSound(s: Machine, h: nat)
    requires h < |s.harts|
  {
    var t := s.harts[h];
    && (t.phase.AmoLocked? || t.phase.AmoRead? || t.phase.LrLocked? || t.phase.ScReady? ==> Holds(s, h))
    && (t.phase.LrLocked? || t.phase.ScReady? ==> t.lrAddr == Some(t.phase.ref))
    && t.counter <= 17 && (t.counter == 17 ==> t.phase.Finishing?)
    && (Holds(s, h) && Resting(t.phase) ==> t.counter >= 1)
  }

  predicate Sound(s: Machine) {
    && (s.lock.Some? ==> s.lock.value < |s.harts|)
    && forall h :: 0 <= h < |s.harts| ==> HartSound(s, h)
  }

  lemma OwnSound(addrOf: Addressing, s: Machine, a: Step)
    requires Sound(s) && Enabled(addrOf, s, a) && !a.PeripheralWrite?
    ensures HartSound(Next(addrOf, s, a), a.h)
  {
    assert HartSound(s, a.h);
  }

  /** A step leaves the other harts alone, and whether they hold the lock. */
  lemma OthersUnmoved(addrOf: Addressing, s: Machine, a: Step, h: nat)
    requires Sound(s) && Enabled(addrOf, s, a) && h < |s.harts| && (a.PeripheralWrite? || a.h != h)
    ensures var t := Next(addrOf, s, a);
            h < |t.harts| && t.harts[h] == s.harts[h] && (Holds(t, h) <==> Holds(s, h))
  {
    if !a.PeripheralWrite? {
      assert HartSound(s, a.h);
    }
  }

  lemma OtherSound(addrOf: Addressing, s: Machine, a: Step, h: nat)
    requires Sound(s) && Enabled(addrOf, s, a) && h < |s.harts| && (a.PeripheralWrite? || a.h != h)
    ensures h < |Next(addrOf, s, a).harts| && HartSound(Next(addrOf, s, a), h)
  {
    assert HartSound(s, h);
    OthersUnmoved(addrOf, s, a, h);
  }

  lemma StepSound(addrOf: Addressing, s: Machine, a: Step)
    requires Sound(s) && Enabled(addrOf, s, a)
    ensures Sound(Next(addrOf, s, a))
  {
    var t := Next(addrOf, s, a);
    forall h | 0 <= h < |t.harts|
      ensures HartSound(t, h)
    {
      if !a.PeripheralWrite? && a.h == h {
        OwnSound(addrOf, s, a);
      } else {
        OtherSound(addrOf, s, a, h);
      }
    }
  }

  // ----- what happens while the lock is held -----

  predicate Accesses(a: Step) {
    a.Fetch? || a.Load? || a.Store? || a.AmoLoad? || a.AmoStore? || a.LrLoad? || a.ScStore? || a.PeripheralWrite?
  }

  /** A store by anybody, or any bus access by somebody other than hart `h`. */
  predicate Disturbs(a: Step, h: nat) {
    IsStore(a) || (Accesses(a) && (a.PeripheralWrite? || a.h != h))
  }

  predicate Quiet(trace: seq<Step>, from: nat, h: nat) {
    forall k :: from <= k < |trace| ==> !Disturbs(trace[k], h)
  }

  predicate LrFor(trace: seq<Step>, i: nat, h: nat, r: Ref) {
    i < |trace| && trace[i].LrLoad? && trace[i].h == h && trace[i].ref == r && Quiet(trace, i + 1, h)
  }

  predicate AmoFor(trace: seq<Step>, i: nat, h: nat, x: nat, was: seq<nat>) {
    i < |trace| && trace[i] == AmoLoad(h, x, was) && Quiet(trace, i + 1, h)
  }

  /** Behind a held reservation stands an LR of the same hart, undisturbed, and memory holds what it read. */
  ghost predicate Reserved(addrOf: Addressing, trace: seq<Step>, s: Machine, h: nat)
    requires h < |s.harts|
  {
    s.harts[h].lrAddr.Some? &&
    var r := s.harts[h].lrAddr.value;
    exists i: nat :: LrFor(trace, i, h, r) && trace[i].was == Word(s.mem, addrOf(r))
  }

  ghost predicate History(addrOf: Addressing, trace: seq<Step>, s: Machine, h: nat)
    requires h < |s.harts|
  {
    var p := s.harts[h].phase;
    && (Holds(s, h) && Resting(p) ==> Reserved(addrOf, trace, s, h))
    && (p.AmoRead? ==> p.was == Word(s.mem, p.addr) && exists i: nat :: AmoFor(trace, i, h, p.addr, p.was))
  }

  ghost predicate Histories(addrOf: Addressing, trace: seq<Step>, s: Machine) {
    forall h :: 0 <= h < |s.harts| ==> History(addrOf, trace, s, h)
  }

  lemma QuietExtends(trace: seq<Step>, from: nat, h: nat, a: Step)
    requires Quiet(trace, from, h) && !Disturbs(a, h)
    ensures Quiet(trace + [a], from, h)
  {
  }

  lemma ReservedExtends(addrOf: Addressing, trace: seq<Step>, s: Machine, t: Machine, h: nat, a: Step)
    requires h < |s.harts| == |t.harts| && Reserved(addrOf, trace, s, h)
    requires !Disturbs(a, h) && t.mem == s.mem && t.harts[h].lrAddr == s.harts[h].lrAddr
    ensures Reserved(addrOf, trace + [a], t, h)
  {
    var r := s.harts[h].lrAddr.value;
    var i: nat :| LrFor(trace, i, h, r) && trace[i].was == Word(s.mem, addrOf(r));
    QuietExtends(trace, i + 1, h, a);
    assert LrFor(trace + [a], i, h, r) && (trace + [a])[i] == trace[i];
  }

  lemma AmoExtends(trace: seq<Step>, h: nat, x: nat, was: seq<nat>, a: Step)
    requires (exists i: nat :: AmoFor(trace, i, h, x, was)) && !Disturbs(a, h)
    ensures exists i: nat :: AmoFor(trace + [a], i, h, x, was)
  {
    var i: nat :| AmoFor(trace, i, h, x, was);
    QuietExtends(trace, i + 1, h, a);
    assert AmoFor(trace + [a], i, h, x, was);
  }

  /** While a hart holds the lock, nobody else gets through. */
  lemma OthersWait(addrOf: Addressing, s: Machine, a: Step, h: nat)
    requires Sound(s) && Enabled(addrOf, s, a) && Holds(s, h)
    requires a.PeripheralWrite? || a.h != h
    ensures !Disturbs(a, h) && Next(addrOf, s, a).mem == s.mem
  {
    if !a.PeripheralWrite? {
      assert HartSound(s, a.h);
    }
  }

  /** The history of a hart survives the steps of everybody else. */
  lemma ForeignStep(addrOf: Addressing, trace: seq<Step>, s: Machine, a: Step, h: nat)
    requires Sound(s) && Enabled(addrOf, s, a) && h < |s.harts| && History(addrOf, trace, s, h)
    requires a.PeripheralWrite? || a.h != h
    ensures History(addrOf, trace + [a], Next(addrOf, s, a), h)
  {
    var t := Next(addrOf, s, a);
    var p := s.harts[h].phase;
    assert HartSound(s, h);
    assert t.harts[h] == s.harts[h];
    assert Holds(t, h) ==> Holds(s, h);
    if Holds(s, h) {
      OthersWait(addrOf, s, a, h);
      if Resting(p) {
        ReservedExtends(addrOf, trace, s, t, h, a);
      }
      if p.AmoRead? {
        AmoExtends(trace, h, p.addr, p.was, a);
      }
    }
  }

  lemma OwnStep(addrOf: Addressing, trace: seq<Step>, s: Machine, a: Step)
    requires Sound(s) && Enabled(addrOf, s, a) && !a.PeripheralWrite? && History(addrOf, trace, s, a.h)
    ensures History(addrOf, trace + [a], Next(addrOf, s, a), a.h)
  {
    var t, h := Next(addrOf, s, a), a.h;
    var longer := trace + [a];
    var p := s.harts[h].phase;
    assert HartSound(s, h);
    assert longer[|trace|] == a;
    if a.LrLoad? {
      assert LrFor(longer, |trace|, h, a.ref);
      assert t.harts[h].lrAddr == Some(a.ref);
    } else if a.AmoLoad? {
      assert AmoFor(longer, |trace|, h, a.addr, a.was);
    } else if Holds(t, h) && Resting(t.harts[h].phase) {
      assert Holds(s, h) && Resting(p) && !Disturbs(a, h);
      ReservedExtends(addrOf, trace, s, t, h, a);
    }
  }

  lemma {:induction false} RunSound(addrOf: Addressing, s: Machine, trace: seq<Step>)
    requires Initial(s) && Run(addrOf, s, trace).Some?
    ensures Sound(Run(addrOf, s, trace).value) && Histories(addrOf, trace, Run(addrOf, s, trace).value)
    decreases |trace|
  {
    if trace != [] {
      var n := |trace| - 1;
      var a, before := trace[n], trace[..n];
      assert trace == before + [a];
      RunSound(addrOf, s, before);
      var u := Run(addrOf, s, before).value;
      StepSound(addrOf, u, a);
      var t := Next(addrOf, u, a);
      forall h | 0 <= h < |t.harts|
        ensures History(addrOf, trace, t, h)
      {
        if a.PeripheralWrite? || a.h != h {
          ForeignStep(addrOf, before, u, a, h);
        } else {
          OwnStep(addrOf, before, u, a);
        }
      }
    }
  }

  lemma {:induction false} PrefixRuns(addrOf: Addressing, s: Machine, trace: seq<Step>, j: nat)
    requires j <= |trace| && Run(addrOf, s, trace).Some?
    ensures Run(addrOf, s, trace[..j]).Some?
    ensures j < |trace| ==> Enabled(addrOf, Run(addrOf, s, trace[..j]).value, trace[j])
    decreases |trace|
  {
    if j < |trace| - 1 {
      var n := |trace| - 1;
      PrefixRuns(addrOf, s, trace[..n], j);
      assert trace[..n][..j] == trace[..j];
    } else if j == |trace| {
      assert trace[..j] == trace;
    }
  }

  // ----- what stores write and loads read -----

  /** The bytes a step stores, and where; none for the other steps. */
  datatype Effect = Nothing | Bytes(addr: nat, bytes: seq<nat>)

  function EffectOf(addrOf: Addressing, a: Step): Effect {
    match a
    case Store(_, x, bytes) => Bytes(x, bytes)
    case AmoStore(_, x, _, bytes) => Bytes(x, bytes)
    case ScStore(_, r, bytes) => Bytes(addrOf(r), bytes)
    case PeripheralWrite(x, bytes) => Bytes(x, bytes)
    case _ => Nothing
  }

  /** A store sets the addressed bytes and no others; all other steps leave memory alone. */
  lemma StoreWrites(addrOf: Addressing, s: Machine, a: Step, x: nat)
    requires Enabled(addrOf, s, a)
    ensures match EffectOf(addrOf, a)
            case Nothing => Next(addrOf, s, a).mem(x) == s.mem(x)
            case Bytes(at, bytes) =>
              && (forall k :: 0 <= k < |bytes| && x == at + k ==> Next(addrOf, s, a).mem(x) == bytes[k])
              && (x < at || at + |bytes| <= x ==> Next(addrOf, s, a).mem(x) == s.mem(x))
  {
  }

  /** The byte the last store of a trace to an address wrote there. */
  function LastStored(addrOf: Addressing, trace: seq<Step>, x: nat): Option<nat>
    decreases |trace|
  {
    if trace == [] then None
    else
      var n := |trace| - 1;
      match EffectOf(addrOf, trace[n])
      case Nothing => LastStored(addrOf, trace[..n], x)
      case Bytes(at, bytes) => if at <= x < at + |bytes| then Some(bytes[x - at]) else LastStored(addrOf, trace[..n], x)
  }

  /** The byte at an address after a trace, going by its stores alone. */
  function ByteAfter(addrOf: Addressing, s: Machine, trace: seq<Step>, x: nat): nat {
    match LastStored(addrOf, trace, x) case None => s.mem(x) case Some(b) => b
  }

  /** Memory after a run is what the last stores left. */
  lemma {:induction false} MemoryIsLastStored(addrOf: Addressing, s: Machine, trace: seq<Step>, x: nat)
    requires Run(addrOf, s, trace).Some?
    ensures Run(addrOf, s, trace).value.mem(x) == ByteAfter(addrOf, s, trace, x)
    decreases |trace|
  {
    if trace != [] {
      var n := |trace| - 1;
      MemoryIsLastStored(addrOf, s, trace[..n], x);
      StoreWrites(addrOf, Run(addrOf, s, trace[..n]).value, trace[n], x);
    }
  }

  /** The word a load, an LR or the load of an AMO reads. */
  datatype Reading = NoRead | Reads(addr: nat, was: seq<nat>)

  function ReadingOf(addrOf: Addressing, a: Step): Reading {
    match a
    case Load(_, x, was) => Reads(x, was)
    case AmoLoad(_, x, was) => Reads(x, was)
    case LrLoad(_, r, was) => Reads(addrOf(r), was)
    case _ => NoRead
  }

  lemma ReadIsWord(addrOf: Addressing, u: Machine, a: Step)
    requires Enabled(addrOf, u, a) && ReadingOf(addrOf, a).Reads?
    ensures ReadingOf(addrOf, a).was == Word(u.mem, ReadingOf(addrOf, a).addr)
  {
  }

  lemma ReadBytes(addrOf: Addressing, u: Machine, a: Step, r: Reading, k: nat)
    requires Enabled(addrOf, u, a) && ReadingOf(addrOf, a) == r && r.Reads? && k < 4
    ensures |r.was| == 4 && r.was[k] == u.mem(r.addr + k)
  {
    ReadIsWord(addrOf, u, a);
  }

  /** Every byte read in a run is the one the last store before it wrote. */
  lemma ReadsLastStored(addrOf: Addressing, s: Machine, trace: seq<Step>, j: nat, r: Reading, k: nat)
    requires Run(addrOf, s, trace).Some? && j < |trace| && ReadingOf(addrOf, trace[j]) == r && r.Reads? && k < 4
    ensures |r.was| == 4 && r.was[k] == ByteAfter(addrOf, s, trace[..j], r.addr + k)
  {
    PrefixRuns(addrOf, s, trace, j);
    MemoryIsLastStored(addrOf, s, trace[..j], r.addr + k);
    ReadBytes(addrOf, Run(addrOf, s, trace[..j]).value, trace[j], r, k);
  }

  // ----- the main theorems -----

  /** No store, and no bus access by anybody else, between two points of a trace. */
  predicate QuietBetween(trace: seq<Step>, i: nat, j: nat, h: nat) {
    forall k :: i < k < j && k < |trace| ==> !Disturbs(trace[k], h)
  }

  lemma BetweenPrefix(trace: seq<Step>, i: nat, j: nat, h: nat)
    requires j <= |trace| && Quiet(trace[..j], i + 1, h)
    ensures QuietBetween(trace, i, j, h)
  {
    forall k | i < k < j && k < |trace|
      ensures !Disturbs(trace[k], h)
    {
      assert trace[..j][k] == trace[k];
    }
  }

  /** The state in which step `j` of a run is taken. */
  function StateAt(addrOf: Addressing, s: Machine, trace: seq<Step>, j: nat): Machine {
    if j <= |trace| && Run(addrOf, s, trace[..j]).Some? then Run(addrOf, s, trace[..j]).value else s
  }

  /** Soundness and histories hold where step `j` is taken, and the step is enabled there. */
  lemma Before(addrOf: Addressing, s: Machine, trace: seq<Step>, j: nat)
    requires Initial(s) && Run(addrOf, s, trace).Some? && j < |trace|
    ensures var u := StateAt(addrOf, s, trace, j);
            Sound(u) && Histories(addrOf, trace[..j], u) && Enabled(addrOf, u, trace[j])
  {
    PrefixRuns(addrOf, s, trace, j);
    RunSound(addrOf, s, trace[..j]);
  }

  /** Right after the store of a word, memory holds it. */
  lemma StoreLeaves(addrOf: Addressing, s: Machine, trace: seq<Step>, j: nat, x: nat, bytes: seq<nat>)
    requires Run(addrOf, s, trace).Some? && j < |trace| && EffectOf(addrOf, trace[j]) == Bytes(x, bytes)
    requires trace[j].ScStore? || trace[j].AmoStore?
    ensures Word(StateAt(addrOf, s, trace, j + 1).mem, x) == bytes
  {
    PrefixRuns(addrOf, s, trace, j);
    PrefixRuns(addrOf, s, trace, j + 1);
    assert trace[..j + 1][..j] == trace[..j];
    var u := StateAt(addrOf, s, trace, j);
    StoreWrites(addrOf, u, trace[j], x);
    StoreWrites(addrOf, u, trace[j], x + 1);
    StoreWrites(addrOf, u, trace[j], x + 2);
    StoreWrites(addrOf, u, trace[j], x + 3);
  }

  /** Step `i` is an LR of the hart for the word SC is about to write, and nothing came in between. */
  predicate ReadBy(addrOf: Addressing, trace: seq<Step>, i: nat, j: nat, u: Machine)
    requires j < |trace| && trace[j].ScStore?
  {
    && i < j && trace[i].LrLoad? && trace[i].h == trace[j].h && addrOf(trace[i].ref) == addrOf(trace[j].ref)
    && QuietBetween(trace, i, j, trace[j].h)
    && Word(u.mem, addrOf(trace[j].ref)) == trace[i].was
  }

  lemma ReservedRead(addrOf: Addressing, trace: seq<Step>, j: nat, u: Machine)
    requires j < |trace| && trace[j].ScStore? && trace[j].h < |u.harts| && Reserved(addrOf, trace[..j], u, trace[j].h)
    requires u.harts[trace[j].h].lrAddr == Some(trace[j].ref)
    ensures exists i: nat :: ReadBy(addrOf, trace, i, j, u)
  {
    var h, r := trace[j].h, trace[j].ref;
    var i: nat :| LrFor(trace[..j], i, h, r) && trace[..j][i].was == Word(u.mem, addrOf(r));
    BetweenPrefix(trace, i, j, h);
    assert trace[..j][i] == trace[i];
    assert ReadBy(addrOf, trace, i, j, u);
  }

  /**
    A successful SC has an earlier LR by the same hart to the same address, with no store by
    anybody in between, so memory still holds the word the LR read; the SC replaces it.
   */
  lemma {:induction false} StoreConditionalAtomic(addrOf: Addressing, s: Machine, trace: seq<Step>, j: nat)
    requires Initial(s) && Run(addrOf, s, trace).Some? && j < |trace| && trace[j].ScStore?
    ensures exists i: nat :: ReadBy(addrOf, trace, i, j, StateAt(addrOf, s, trace, j))
    ensures Word(StateAt(addrOf, s, trace, j + 1).mem, addrOf(trace[j].ref)) == trace[j].bytes
  {
    var u, h := StateAt(addrOf, s, trace, j), trace[j].h;
    Before(addrOf, s, trace, j);
    StoreLeaves(addrOf, s, trace, j, addrOf(trace[j].ref), trace[j].bytes);
    assert HartSound(u, h) && History(addrOf, trace[..j], u, h);
    ReservedRead(addrOf, trace, j, u);
  }

  predicate LoadedBy(trace: seq<Step>, i: nat, j: nat)
    requires j < |trace| && trace[j].AmoStore?
  {
    var a := trace[j];
    i < j && trace[i] == AmoLoad(a.h, a.addr, a.was) && QuietBetween(trace, i, j, a.h)
  }

  lemma LoadFound(trace: seq<Step>, j: nat)
    requires j < |trace| && trace[j].AmoStore?
    requires exists i: nat :: AmoFor(trace[..j], i, trace[j].h, trace[j].addr, trace[j].was)
    ensures exists i: nat :: LoadedBy(trace, i, j)
  {
    var a := trace[j];
    var i: nat :| AmoFor(trace[..j], i, a.h, a.addr, a.was);
    BetweenPrefix(trace, i, j, a.h);
    assert trace[..j][i] == trace[i];
    assert LoadedBy(trace, i, j);
  }

  /** The store of an AMO finds the lock held and memory as its load left it, with nothing in between, and replaces it. */
  lemma {:induction false} AmoAtomic(addrOf: Addressing, s: Machine, trace: seq<Step>, j: nat)
    requires Initial(s) && Run(addrOf, s, trace).Some? && j < |trace| && trace[j].AmoStore?
    ensures var u := StateAt(addrOf, s, trace, j); Holds(u, trace[j].h) && Word(u.mem, trace[j].addr) == trace[j].was
    ensures exists i: nat :: LoadedBy(trace, i, j)
    ensures Word(StateAt(addrOf, s, trace, j + 1).mem, trace[j].addr) == trace[j].bytes
  {
    var u, a := StateAt(addrOf, s, trace, j), trace[j];
    StoreLeaves(addrOf, s, trace, j, a.addr, a.bytes);
    Before(addrOf, s, trace, j);
    assert HartSound(u, a.h) && History(addrOf, trace[..j], u, a.h);
    LoadFound(trace, j);
  }

  // ----- bounded holding -----

  /** Between steps, a hart owning the lock has its counter in 1..16. */
  lemma CounterBetweenSteps(addrOf: Addressing, s: Machine, trace: seq<Step>, h: nat)
    requires Initial(s) && Run(addrOf, s, trace).Some?
    requires var t := Run(addrOf, s, trace).value; h < |t.harts| && t.harts[h].phase.Idle? && Holds(t, h)
    ensures 1 <= Run(addrOf, s, trace).value.harts[h].counter <= 16
  {
    RunSound(addrOf, s, trace);
    assert HartSound(Run(addrOf, s, trace).value, h);
  }

  function Finishes(trace: seq<Step>, h: nat): nat
    decreases |trace|
  {
    if trace == [] then 0
    else Finishes(trace[..|trace| - 1], h) + if trace[|trace| - 1] == Finish(h) then 1 else 0
  }

  /** Hart `h` holds the lock in every state of the run. */
  predicate HeldThroughout(addrOf: Addressing, s: Machine, trace: seq<Step>, h: nat)
    decreases |trace|
  {
    && Run(addrOf, s, trace).Some? && Holds(Run(addrOf, s, trace).value, h)
    && (trace == [] || HeldThroughout(addrOf, s, trace[..|trace| - 1], h))
  }

  lemma CounterStep(addrOf: Addressing, s: Machine, a: Step, h: nat)
    requires h < |s.harts| && s.harts[h].counter >= 1 && Enabled(addrOf, s, a)
    requires Holds(s, h) && Holds(Next(addrOf, s, a), h)
    ensures var t := Next(addrOf, s, a);
            |t.harts| == |s.harts| && t.harts[h].counter >= 1
            && t.harts[h].counter == s.harts[h].counter - if a == Finish(h) then 1 else 0
  {
  }

  /** While the lock stays held, every finished step lowers the counter by one; a further LR does not raise it. */
  lemma {:induction false} CounterFalls(addrOf: Addressing, s: Machine, trace: seq<Step>, h: nat)
    requires Sound(s) && h < |s.harts| && s.harts[h].counter >= 1 && HeldThroughout(addrOf, s, trace, h)
    ensures var t := Run(addrOf, s, trace).value;
            |t.harts| == |s.harts| && t.harts[h].counter >= 1 &&
            t.harts[h].counter + Finishes(trace, h) == s.harts[h].counter
    decreases |trace|
  {
    if trace != [] {
      var before := trace[..|trace| - 1];
      CounterFalls(addrOf, s, before, h);
      CounterStep(addrOf, Run(addrOf, s, before).value, trace[|trace| - 1], h);
    }
  }

  /**
    A hart that owns the lock at a step boundary has released it at least once before it has
    finished as many further steps as its counter says, and so within 16 steps.
   */
  lemma LockReleased(addrOf: Addressing, s: Machine, trace: seq<Step>, h: nat)
    requires Sound(s) && h < |s.harts| && s.harts[h].phase.Idle? && Holds(s, h)
    requires Run(addrOf, s, trace).Some? && Finishes(trace, h) >= s.harts[h].counter
    ensures !HeldThroughout(addrOf, s, trace, h) && s.harts[h].counter <= 16
  {
    assert HartSound(s, h);
    if HeldThroughout(addrOf, s, trace, h) {
      CounterFalls(addrOf, s, trace, h);
    }
  }

  // ----- reference identity -----

  /** SC may fail although address and memory are unchanged: another object with the same address does not match. */
  lemma IdentityIsStricter(addrOf: Addressing, s: Machine, h: nat, r: Ref, q: Ref)
    requires h < |s.harts| && s.harts[h].phase == Executing && Holds(s, h) && s.harts[h].lrAddr == Some(r)
    requires r != q && addrOf(r) == addrOf(q)
    ensures Next(addrOf, s, ScCheck(h, q)).harts[h].phase == Finishing && !Holds(Next(addrOf, s, ScCheck(h, q)), h)
    ensures Next(addrOf, s, ScCheck(h, r)).harts[h].phase == ScReady(r)
  {
  }
}
