/** Traps, interrupts and trap return: selection of the target mode, entry and return. */
module Trap {
  import opened Isa
  import opened Csr

  /** The modes a trap handler can run in. */
  datatype Mode = M | S | U

  function Level(m: Mode): Prv {
    match m case M => MACHINE case S => SUPERVISOR case U => USER
  }

  function MppBits(p: Prv): bv2 {
    if p == 0 then 0 else if p == 1 then 1 else if p == 2 then 2 else 3
  }

  function MppLevel(b: bv2): Prv {
    if b == 0 then 0 else if b == 1 then 1 else if b == 2 then 2 else 3
  }

  function SppBit(p: Prv): bv1 {
    if p % 2 == 1 then 1 else 0
  }

  /** xIE of a mode. */
  function Enabled(st: Mstatus, m: Mode): bool {
    match m case M => st.mie == 1 case S => st.sie == 1 case U => st.uie == 1
  }

  /** xPIE takes xIE, xIE is cleared and xPP takes the privilege; SPP is one bit wide. */
  function EnterStatus(st: Mstatus, m: Mode, p: Prv): Mstatus {
    match m
    case M => st.(mpie := st.mie, mie := 0, mpp := MppBits(p))
    case S => st.(spie := st.sie, sie := 0, spp := SppBit(p))
    case U => st.(upie := st.uie, uie := 0)
  }

  function ReturnStatus(st: Mstatus, m: Mode): Mstatus {
    match m
    case M => st.(mie := st.mpie, mpie := 1, mpp := 0)
    case S => st.(sie := st.spie, spie := 1, spp := 0)
    case U => st.(uie := st.upie, upie := 1)
  }

  function Previous(st: Mstatus, m: Mode): Prv {
    match m
    case M => MppLevel(st.mpp)
    case S => if st.spp == 1 then SUPERVISOR else USER
    case U => USER
  }

  function BankOf(r: Csrs, m: Mode): Bank {
    match m case M => r.m case S => r.s case U => r.u
  }

  function WithBank(r: Csrs, m: Mode, b: Bank): Csrs {
    match m case M => r.(m := b) case S => r.(s := b) case U => r.(u := b)
  }

  const INTERRUPT: nat := 0x8000_0000

  /** The handler's address: the base, plus four bytes per cause for vectored interrupts. */
  function HandlerPc(b: Bank): Addr {
    var vectored := b.cause >= INTERRUPT && b.tvec % 4 == 1;
    (b.tvec / 4 * 4 + if vectored then 4 * (b.cause - INTERRUPT) else 0) % WORDS
  }

  function Entered(c: Ctl, pc: Addr, m: Mode): Redirect<Ctl> {
    var b := BankOf(c.csrs, m).(epc := pc);
    var r := WithBank(c.csrs.(mstatus := EnterStatus(c.csrs.mstatus, m, c.prv)), m, b);
    Redirect(c.(prv := Level(m), csrs := r), HandlerPc(b))
  }

  function Returned(c: Ctl, m: Mode): Redirect<Ctl> {
    var st := c.csrs.mstatus;
    Redirect(c.(prv := Previous(st, m), csrs := c.csrs.(mstatus := ReturnStatus(st, m))), BankOf(c.csrs, m).epc)
  }

  // ----- traps -----

  function CauseBit(cause: nat): bv32 {
    if cause < 32 then (1 as bv32) << cause else 0
  }

  predicate Asked(cause: nat, deleg: bv32) {
    CauseBit(cause) & deleg != 0
  }

  /** `prepare_trap`: where delegation sends a trap. */
  function TargetOf(p: Prv, medeleg: bool, sedeleg: bool): Mode {
    if p == MACHINE || !medeleg then M
    else if p == SUPERVISOR || !sedeleg then S
    else U
  }

  function TrapTarget(c: Ctl, cause: nat): Mode {
    TargetOf(c.prv, Asked(cause, c.csrs.words.medeleg), Asked(cause, c.csrs.words.sedeleg))
  }

  /** The assertion of `prepare_trap` fails: the reserved level, with the trap delegated twice. */
  predicate TrapStops(c: Ctl, cause: nat) {
    c.prv == 2 && Asked(cause, c.csrs.words.medeleg) && Asked(cause, c.csrs.words.sedeleg)
  }

  function WithCause(c: Ctl, m: Mode, cause: Addr, tval: Addr): Ctl {
    c.(csrs := WithBank(c.csrs, m, BankOf(c.csrs, m).(cause := cause, tval := tval)))
  }

  function Trapped(c: Ctl, pc: Addr, cause: nat, tval: nat): Redirect<Ctl> {
    var m := TrapTarget(c, cause);
    Entered(WithCause(c, m, cause % INTERRUPT, tval % WORDS), pc, m)
  }

  // ----- interrupts -----

  datatype Irq = MEI | MSI | MTI | SEI | SSI | STI | UEI | USI | UTI

  /** The interrupt's bit in mie, mip, mideleg and sideleg. */
  function Line(q: Irq): bv32 {
    match q
    case MEI => 0x800 case MSI => 0x8 case MTI => 0x80
    case SEI => 0x200 case SSI => 0x2 case STI => 0x20
    case UEI => 0x100 case USI => 0x1 case UTI => 0x10
  }

  predicate Has(x: bv32, q: Irq) {
    match q
    case MEI => x & 0x800 != 0 case MSI => x & 0x8 != 0 case MTI => x & 0x80 != 0
    case SEI => x & 0x200 != 0 case SSI => x & 0x2 != 0 case STI => x & 0x20 != 0
    case UEI => x & 0x100 != 0 case USI => x & 0x1 != 0 case UTI => x & 0x10 != 0
  }

  function Number(q: Irq): nat {
    match q
    case MEI => 11 case MSI => 3 case MTI => 7
    case SEI => 9 case SSI => 1 case STI => 5
    case UEI => 8 case USI => 0 case UTI => 4
  }

  /** The outcome of the computation; `B` is the type of a set of pending bits. */
  datatype Pending<B> = NonePending | Pending(mode: Mode, bits: B)

  /** Interrupts for the mode are not masked at this level. */
  predicate May(p: Prv, st: Mstatus, m: Mode) {
    p < Level(m) || (p == Level(m) && Enabled(st, m))
  }

  /** The choice between the bits offered to the three modes. */
  function Select<B>(p: Prv, st: Mstatus, some: B -> bool, forM: B, forS: B, forU: B): Pending<B> {
    if some(forM) && May(p, st, M) then Pending(M, forM)
    else if some(forS) && May(p, st, S) then Pending(S, forS)
    else if some(forU) && p == USER && Enabled(st, U) then Pending(U, forU)
    else NonePending
  }

  predicate Nonzero(x: bv32) {
    x != 0
  }

  function PendingWords(p: Prv, st: Mstatus, mie: bv32, mip: bv32, mideleg: bv32, sideleg: bv32): Pending<bv32> {
    var all := mie & mip;
    var rest := all & mideleg;
    if all == 0 then NonePending
    else Select(p, st, Nonzero, all & !mideleg, rest & !sideleg, rest & sideleg)
  }

  /** `compute_pending_interrupts`. */
  function ComputePending(c: Ctl): Pending<bv32> {
    PendingWords(c.prv, c.csrs.mstatus, c.csrs.words.mie, c.csrs.words.mip, c.csrs.words.mideleg, c.csrs.words.sideleg)
  }

  /** The order in which `prepare_interrupt` looks at the pending bits. */
  function First(bits: bv32): Option<Irq> {
    if Has(bits, MEI) then Some(MEI)
    else if Has(bits, MSI) then Some(MSI)
    else if Has(bits, MTI) then Some(MTI)
    else if Has(bits, SEI) then Some(SEI)
    else if Has(bits, SSI) then Some(SSI)
    else if Has(bits, STI) then Some(STI)
    else if Has(bits, UEI) then Some(UEI)
    else if Has(bits, USI) then Some(USI)
    else if Has(bits, UTI) then Some(UTI)
    else None
  }

  datatype Choice = Choice(mode: Mode, irq: Irq)

  /** The interrupt that is prepared; `None` if there is none, or at the throw of `prepare_interrupt`. */
  function ChoiceOf(p: Pending<bv32>): Option<Choice> {
    match p
    case NonePending => None
    case Pending(m, bits) => match First(bits) case None => None case Some(q) => Some(Choice(m, q))
  }

  function WithIrq(c: Ctl, m: Mode, q: Irq): Ctl {
    c.(csrs := WithBank(c.csrs, m, BankOf(c.csrs, m).(cause := INTERRUPT + Number(q))))
  }

  /** Computing, preparing and entering an interrupt; nothing happens when none can be taken. */
  function Interrupted(c: Ctl, pc: Addr): Redirect<Ctl> {
    Take(c, pc, ChoiceOf(ComputePending(c)))
  }

  function Take(c: Ctl, pc: Addr, x: Option<Choice>): Redirect<Ctl> {
    match x
    case None => Redirect(c, pc)
    case Some(k) => Entered(WithIrq(c, k.mode, k.irq), pc, k.mode)
  }

  // ----- the reachable states -----

  predicate SoundBank(b: Bank) {
    b.epc % 2 == 0 && b.tvec % 4 < 2
  }

  /** xepc even and xtvec bit 1 clear. */
  predicate SoundBanks(r: Csrs) {
    SoundBank(r.m) && SoundBank(r.s) && SoundBank(r.u)
  }

  predicate Inside(x: bv32) {
    x & !MIE_MASK == 0
  }

  /** The interrupt registers hold nothing outside MIE_MASK. */
  predicate LinesInside(w: Words) {
    Inside(w.mie) && Inside(w.mip) && Inside(w.mideleg) && Inside(w.sideleg)
  }

  predicate Sound(c: Ctl) {
    SoundBanks(c.csrs) && LinesInside(c.csrs.words)
  }

  // ----- the hart's fields, updated in place -----

  class Hart {
    var ctl: Ctl
    var pc: Addr
    var lastPc: Addr

    constructor (c: Ctl, entry: Addr)
      ensures ctl == c && pc == entry && lastPc == entry
    {
      ctl, pc, lastPc := c, entry, entry;
    }

    method SetStatus(st: Mstatus)
      modifies this`ctl
      ensures ctl == old(ctl).(csrs := old(ctl).csrs.(mstatus := st))
    {
      ctl := ctl.(csrs := ctl.csrs.(mstatus := st));
    }

    /** `switch_to_trap_handler`. */
    method SwitchToTrapHandler(target: Mode)
      modifies this`ctl, this`pc
      ensures Redirect(ctl, pc) == Entered(old(ctl), old(pc), target)
    {
      var pp := ctl.prv;
      ctl := ctl.(prv := Level(target));
      ctl := ctl.(csrs := WithBank(ctl.csrs, target, BankOf(ctl.csrs, target).(epc := pc)));
      var st := ctl.csrs.mstatus;
      match target {
        case M =>
          st := st.(mpie := st.mie);
          st := st.(mie := 0);
          st := st.(mpp := MppBits(pp));
        case S =>
          st := st.(spie := st.sie);
          st := st.(sie := 0);
          st := st.(spp := SppBit(pp));
        case U =>
          st := st.(upie := st.uie);
          st := st.(uie := 0);
      }
      SetStatus(st);
      JumpToHandler(BankOf(ctl.csrs, target));
    }

    method JumpToHandler(b: Bank)
      modifies this`pc
      ensures pc == HandlerPc(b)
    {
      pc := b.tvec / 4 * 4;
      if b.cause >= INTERRUPT && b.tvec % 4 == 1 {
        pc := (pc + 4 * (b.cause - INTERRUPT)) % WORDS;
      }
    }

    /** `return_from_trap_handler`. */
    method ReturnFromTrapHandler(m: Mode)
      modifies this`ctl, this`pc
      ensures Redirect(ctl, pc) == Returned(old(ctl), m)
    {
      var st := ctl.csrs.mstatus;
      ctl := ctl.(prv := Previous(st, m));
      match m {
        case M =>
          st := st.(mie := st.mpie);
          st := st.(mpie := 1);
          st := st.(mpp := 0);
        case S =>
          st := st.(sie := st.spie);
          st := st.(spie := 1);
          st := st.(spp := 0);
        case U =>
          st := st.(uie := st.upie);
          st := st.(upie := 1);
      }
      pc := BankOf(ctl.csrs, m).epc;
      SetStatus(st);
    }

    /** `prepare_trap`: the pc goes back to the trapping instruction; `None` is its failed assertion. */
    method PrepareTrap(cause: nat, tval: nat) returns (target: Option<Mode>)
      modifies this`ctl, this`pc
      ensures pc == lastPc
      ensures target == if TrapStops(old(ctl), cause) then None else Some(TrapTarget(old(ctl), cause))
      ensures ctl == if target.None? then old(ctl)
                     else WithCause(old(ctl), target.value, cause % INTERRUPT, tval % WORDS)
    {
      pc := lastPc;
      var m;
      if ctl.prv == MACHINE || !Asked(cause, ctl.csrs.words.medeleg) {
        m := M;
      } else if ctl.prv == SUPERVISOR || !Asked(cause, ctl.csrs.words.sedeleg) {
        m := S;
      } else if ctl.prv == USER {
        m := U;
      } else {
        return None;
      }
      ctl := WithCause(ctl, m, cause % INTERRUPT, tval % WORDS);
      return Some(m);
    }

    method TakeTrap(cause: nat, tval: nat) returns (ok: bool)
      modifies this`ctl, this`pc
      ensures ok <==> !TrapStops(old(ctl), cause)
      ensures ok ==> Redirect(ctl, pc) == Trapped(old(ctl), lastPc, cause, tval)
    {
      var target := PrepareTrap(cause, tval);
      if target.None? {
        return false;
      }
      SwitchToTrapHandler(target.value);
      return true;
    }

    /** The end of a step without a trap; `prepare_interrupt` always finds a bit to report. */
    method TakeInterrupt()
      requires LinesInside(ctl.csrs.words)
      modifies this`ctl, this`pc
      ensures Redirect(ctl, pc) == Interrupted(old(ctl), old(pc))
    {
      var x := ComputePending(ctl);
      if x.Pending? {
        PendingHasFirst(ctl);
        var q := First(x.bits).value;
        ctl := WithIrq(ctl, x.mode, q);
        SwitchToTrapHandler(x.mode);
      }
    }
  }

  lemma SomeLine(bits: bv32)
    requires Inside(bits) && bits != 0
    ensures First(bits).Some?
  {
  }

  /** Whatever is offered to a mode lies inside the mask if mie does. */
  lemma OffersInside(mie: bv32, mip: bv32, mideleg: bv32, sideleg: bv32)
    requires Inside(mie)
    ensures Inside(mie & mip & !mideleg) && Inside(mie & mip & mideleg & !sideleg) && Inside(mie & mip & mideleg & sideleg)
  {
  }

  /** If every offer that is not empty has a first interrupt, so has the selected one. */
  lemma SelectHasFirst<B>(
    first: B -> Option<Irq>, p: Prv, st: Mstatus, some: B -> bool, forM: B, forS: B, forU: B)
    requires some(forM) ==> first(forM).Some?
    requires some(forS) ==> first(forS).Some?
    requires some(forU) ==> first(forU).Some?
    ensures var x := Select(p, st, some, forM, forS, forU); x.Pending? ==> first(x.bits).Some?
  {
  }

  lemma OfferHasFirst(bits: bv32)
    requires Inside(bits)
    ensures Nonzero(bits) ==> First(bits).Some?
  {
    if bits != 0 { SomeLine(bits); }
  }

  /** The throw of `prepare_interrupt` is not reachable while mie lies inside its mask. */
  lemma WordsHaveFirst(p: Prv, st: Mstatus, mie: bv32, mip: bv32, mideleg: bv32, sideleg: bv32)
    requires Inside(mie)
    ensures var x := PendingWords(p, st, mie, mip, mideleg, sideleg); x.Pending? ==> First(x.bits).Some?
  {
    var m, s, u := mie & mip & !mideleg, mie & mip & mideleg & !sideleg, mie & mip & mideleg & sideleg;
    OffersInside(mie, mip, mideleg, sideleg);
    OfferHasFirst(m);
    OfferHasFirst(s);
    OfferHasFirst(u);
    SelectHasFirst(First, p, st, Nonzero, m, s, u);
  }

  lemma PendingHasFirst(c: Ctl)
    requires LinesInside(c.csrs.words) && ComputePending(c).Pending?
    ensures First(ComputePending(c).bits).Some?
  {
    var w := c.csrs.words;
    WordsHaveFirst(c.prv, c.csrs.mstatus, w.mie, w.mip, w.mideleg, w.sideleg);
  }

  /** With a stray bit in both registers the throw would be reached. */
  lemma StrayBitThrows(st: Mstatus)
    ensures var x := PendingWords(USER, st, 0x1000, 0x1000, 0, 0); x.Pending? && First(x.bits).None?
  {
  }
}
