/** Runs of the control part alone: privilege never drops on a trap, unless software uses the reserved level. */
module ControlRuns {
  import opened Isa
  import opened Csr
  import opened Trap
  import opened TrapTheorems

  datatype Event =
    | Jump(target: Addr)
    | WriteCsr(addr: nat, value: Addr)
    | Exception(cause: nat, tval: nat)
    | Poll
    | Mret
    | Signal(irq: Irq, up: bool)

  /** Neither the privilege level nor MPP is the reserved encoding. */
  predicate Proper(c: Ctl) {
    c.prv != 2 && c.csrs.mstatus.mpp != 2
  }

  function Raised(x: bv32, q: Irq, up: bool): bv32 {
    if up then x | Line(q) else x & !Line(q)
  }

  /** An interrupt source raises or lowers its bit of mip. */
  function Signalled(c: Ctl, q: Irq, up: bool): Ctl {
    c.(csrs := c.csrs.(words := c.csrs.words.(mip := Raised(c.csrs.words.mip, q, up))))
  }

  lemma LineInside(x: bv32, q: Irq)
    requires Inside(x)
    ensures Inside(x | Line(q)) && Inside(x & !Line(q))
  {
  }

  lemma HasWithout(x: bv32, q: Irq, p: Irq)
    ensures Has(x & !Line(q), p) <==> p != q && Has(x, p)
  {
  }

  lemma HasWith(x: bv32, q: Irq, p: Irq)
    ensures Has(x | Line(q), p) <==> p == q || Has(x, p)
  {
    match q case MEI => case MSI => case MTI => case SEI => case SSI => case STI => case UEI => case USI => case UTI =>
  }

  lemma RaisedIs(x: bv32, q: Irq, up: bool, p: Irq)
    ensures Has(Raised(x, q, up), p) <==> if p == q then up else Has(x, p)
  {
    if up {
      HasWith(x, q, p);
    } else {
      HasWithout(x, q, p);
    }
  }

  /** An interrupt source sets or clears its own pending bit and no other. */
  lemma SignalledBit(c: Ctl, q: Irq, up: bool, p: Irq)
    ensures Has(Signalled(c, q, up).csrs.words.mip, p) <==> if p == q then up else Has(c.csrs.words.mip, p)
  {
    RaisedIs(c.csrs.words.mip, q, up, p);
  }

  /** The interrupt sources keep mip inside its mask, and the privilege as it is. */
  lemma SignalledSound(c: Ctl, q: Irq, up: bool)
    requires Sound(c)
    ensures Sound(Signalled(c, q, up)) && (Proper(c) ==> Proper(Signalled(c, q, up)))
  {
    LineInside(c.csrs.words.mip, q);
  }

  function After(r: Redirect<Ctl>, e: Event): Redirect<Ctl> {
    var c := r.ctl;
    match e
    case Jump(t) => Redirect(c, t)
    case WriteCsr(a, v) =>
      if InvalidAccess(c.prv, a, true) then r
      else (match Set(c.csrs, a, v) case None => r case Some(s) => Redirect(c.(csrs := s), r.pc))
    case Exception(cause, tval) => Trapped(c, r.pc, cause, tval)
    case Poll => Interrupted(c, r.pc)
    case Mret => Returned(c, M)
    case Signal(q, up) => Redirect(Signalled(c, q, up), r.pc)
  }

  function AfterAll(r: Redirect<Ctl>, es: seq<Event>): Redirect<Ctl>
    decreases |es|
  {
    if es == [] then r else AfterAll(After(r, es[0]), es[1..])
  }

  /** The event does not write the reserved encoding to MPP. */
  predicate KeepsMpp(e: Event) {
    e.WriteCsr? && e.addr == 0x300 ==> ((e.value as bv32) >> 11) & 3 != 2
  }

  /** If the event is a trap or an interrupt, it goes to a mode at least as privileged. */
  predicate NotBelow(c: Ctl, e: Event) {
    && (e.Exception? ==> Level(TrapTarget(c, e.cause)) >= c.prv)
    && (e.Poll? && ComputePending(c).Pending? ==> Level(ComputePending(c).mode) >= c.prv)
  }

  lemma EnteredProper(c: Ctl, pc: Addr, m: Mode)
    requires Proper(c)
    ensures Proper(Entered(c, pc, m).ctl)
  {
  }

  lemma WrittenMpp(st: Mstatus, b: bv32)
    ensures (b >> 11) & 3 != 2 ==> WriteMstatus(st, b).mpp != 2
    ensures WriteSstatus(st, b).mpp == st.mpp && WriteUstatus(st, b).mpp == st.mpp
  {
  }

  lemma WriteProper(c: Ctl, a: nat, v: Addr)
    requires Proper(c) && KeepsMpp(WriteCsr(a, v)) && Set(c.csrs, a, v).Some?
    ensures Proper(c.(csrs := Set(c.csrs, a, v).value))
  {
    WrittenMpp(c.csrs.mstatus, v as bv32);
  }

  lemma TrappedProper(c: Ctl, pc: Addr, cause: nat, tval: nat)
    requires Proper(c)
    ensures Proper(Trapped(c, pc, cause, tval).ctl)
  {
    var m := TrapTarget(c, cause);
    EnteredProper(WithCause(c, m, cause % INTERRUPT, tval % WORDS), pc, m);
  }

  lemma TakenProper(c: Ctl, pc: Addr, x: Option<Choice>)
    requires Proper(c)
    ensures Proper(Take(c, pc, x).ctl)
  {
    match x
    case None =>
    case Some(k) => EnteredProper(WithIrq(c, k.mode, k.irq), pc, k.mode);
  }

  lemma InterruptedProper(c: Ctl, pc: Addr)
    requires Proper(c)
    ensures Proper(Interrupted(c, pc).ctl)
  {
    TakenProper(c, pc, Chosen(c));
  }

  lemma AfterProper(r: Redirect<Ctl>, e: Event)
    requires Proper(r.ctl) && KeepsMpp(e)
    ensures Proper(After(r, e).ctl)
  {
    match e
    case Jump(_) =>
    case WriteCsr(a, v) => if Set(r.ctl.csrs, a, v).Some? { WriteProper(r.ctl, a, v); }
    case Exception(cause, tval) => TrappedProper(r.ctl, r.pc, cause, tval);
    case Poll => InterruptedProper(r.ctl, r.pc);
    case Mret =>
    case Signal(_, _) =>
  }

  /** While software never writes the reserved MPP value, no trap or interrupt of a run lowers the privilege. */
  lemma {:induction false} NeverBelow(r: Redirect<Ctl>, es: seq<Event>, i: nat)
    requires Proper(r.ctl) && i < |es| && forall e :: e in es ==> KeepsMpp(e)
    ensures NotBelow(AfterAll(r, es[..i]).ctl, es[i])
    decreases |es|
  {
    if i == 0 {
      TrapNotBelow(r.ctl, if es[0].Exception? then es[0].cause else 0);
      if ComputePending(r.ctl).Pending? {
        InterruptNotBelow(r.ctl);
      }
    } else {
      AfterProper(r, es[0]);
      NeverBelow(After(r, es[0]), es[1..], i - 1);
      assert es[..i][0] == es[0] && es[..i][1..] == es[1..][..i - 1];
    }
  }

  lemma ReservedWritten(c: Ctl, pc: Addr)
    requires c.prv == MACHINE
    ensures var r := After(Redirect(c, pc), WriteCsr(0x300, 0x1000)).ctl;
            r.csrs.mstatus.mpp == 2 && r.csrs.words == c.csrs.words
  {
    assert ((0x1000 as bv32) >> 11) & 3 == 2;
  }

  lemma AfterTwo(r: Redirect<Ctl>, e: Event, f: Event)
    ensures AfterAll(r, [e, f]) == After(After(r, e), f)
  {
    assert [e, f][1..] == [f];
    assert AfterAll(After(r, e), [f]) == AfterAll(After(After(r, e), f), []);
  }

  /** The reserved value does lower it: return to level 2, then take a delegated trap. */
  lemma ReservedLevelDrops(c: Ctl, pc: Addr)
    requires c.prv == MACHINE && Asked(2, c.csrs.words.medeleg)
    ensures var r := AfterAll(Redirect(c, pc), [WriteCsr(0x300, 0x1000), Mret]);
            r.ctl.prv == 2 && !NotBelow(r.ctl, Exception(2, 0))
  {
    ReservedWritten(c, pc);
    AfterTwo(Redirect(c, pc), WriteCsr(0x300, 0x1000), Mret);
    TrapNotBelow(AfterAll(Redirect(c, pc), [WriteCsr(0x300, 0x1000), Mret]).ctl, 2);
  }
}
