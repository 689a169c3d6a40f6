/** What every trap, interrupt, return and CSR write keeps, and what whole runs of them restore. */
module TrapTheorems {
  import opened Isa
  import opened Csr
  import opened Trap

  // ----- entry and return are inverse -----

  /** Can xPP of the mode hold the privilege? */
  predicate Storable(m: Mode, p: Prv) {
    m == M || (m == S && p <= SUPERVISOR) || p == USER
  }

  /** What is left of a trap after the return: xPIE set, xPP cleared and xepc holding the pc. */
  function Footprint(r: Csrs, pc: Addr, m: Mode): Csrs {
    var st := match m
      case M => r.mstatus.(mpie := 1, mpp := 0)
      case S => r.mstatus.(spie := 1, spp := 0)
      case U => r.mstatus.(upie := 1);
    WithBank(r.(mstatus := st), m, BankOf(r, m).(epc := pc))
  }

  lemma EnterReturn(c: Ctl, pc: Addr, m: Mode)
    ensures var back := Returned(Entered(c, pc, m).ctl, m);
            && back.pc == pc && back.ctl.csrs == Footprint(c.csrs, pc, m)
            && (back.ctl.prv == c.prv <==> Storable(m, c.prv))
  {
    match m case M => case S => case U =>
  }

  // ----- delegation -----

  /** A trap goes to a mode at least as privileged, unless it is delegated out of the reserved level. */
  lemma TrapNotBelow(c: Ctl, cause: nat)
    ensures Level(TrapTarget(c, cause)) >= c.prv <==> !(c.prv == 2 && Asked(cause, c.csrs.words.medeleg))
  {
  }

  /** Delegation lets a mode handle the trap. */
  predicate Delegated(m: Mode, medeleg: bool, sedeleg: bool) {
    match m case M => true case S => medeleg case U => medeleg && sedeleg
  }

  predicate LeastTarget(t: Mode, p: Prv, medeleg: bool, sedeleg: bool) {
    && Delegated(t, medeleg, sedeleg) && Level(t) >= p
    && forall m: Mode :: Delegated(m, medeleg, sedeleg) && Level(m) >= p ==> Level(t) <= Level(m)
  }

  lemma TargetOfLeast(p: Prv, medeleg: bool, sedeleg: bool)
    requires p != 2
    ensures LeastTarget(TargetOf(p, medeleg, sedeleg), p, medeleg, sedeleg)
  {
  }

  /** The target is the least privileged mode that delegation allows and that is not below the interrupted one. */
  lemma TargetLeast(c: Ctl, cause: nat)
    requires c.prv != 2
    ensures LeastTarget(TrapTarget(c, cause), c.prv, Asked(cause, c.csrs.words.medeleg), Asked(cause, c.csrs.words.sedeleg))
  {
    TargetOfLeast(c.prv, Asked(cause, c.csrs.words.medeleg), Asked(cause, c.csrs.words.sedeleg));
  }

  // ----- interrupt selection -----

  /** The mode delegation sends an interrupt to. */
  function Dest(mideleg: bv32, sideleg: bv32, q: Irq): Mode {
    if !Has(mideleg, q) then M else if !Has(sideleg, q) then S else U
  }

  function DestOf(c: Ctl, q: Irq): Mode {
    Dest(c.csrs.words.mideleg, c.csrs.words.sideleg, q)
  }

  /** Pending, enabled, and not masked by the running privilege level. */
  predicate Takeable(c: Ctl, q: Irq) {
    && Has(c.csrs.words.mie, q) && Has(c.csrs.words.mip, q)
    && May(c.prv, c.csrs.mstatus, DestOf(c, q))
  }

  /** The order of section 3.1.9: external, software, timer; machine, supervisor, user. */
  function Rank(q: Irq): nat {
    match q
    case MEI => 0 case MSI => 1 case MTI => 2
    case SEI => 3 case SSI => 4 case STI => 5
    case UEI => 6 case USI => 7 case UTI => 8
  }

  /** `k` is for a more privileged mode than `p`, or for the same one and not lower in the order. */
  predicate Outranks(k: Choice, p: Irq, dest: Mode) {
    Level(dest) < Level(k.mode) || (dest == k.mode && Rank(k.irq) <= Rank(p))
  }

  function Chosen(c: Ctl): Option<Choice> {
    ChoiceOf(ComputePending(c))
  }

  /** The offer made to a mode. */
  function To<B>(m: Mode, forM: B, forS: B, forU: B): B {
    match m case M => forM case S => forS case U => forU
  }

  /** The selection takes the offer of the highest mode that is not masked and has one. */
  lemma SelectHighest<B>(p: Prv, st: Mstatus, some: B -> bool, forM: B, forS: B, forU: B, m: Mode)
    ensures var x := Select(p, st, some, forM, forS, forU);
            && (x.Pending? ==> x.bits == To(x.mode, forM, forS, forU) && May(p, st, x.mode))
            && (some(To(m, forM, forS, forU)) && May(p, st, m) ==> x.Pending? && Level(m) <= Level(x.mode))
  {
  }

  lemma MayNotBelow(p: Prv, st: Mstatus, m: Mode)
    requires May(p, st, m)
    ensures Level(m) >= p
  {
  }

  lemma HasBoth(a: bv32, b: bv32, q: Irq)
    ensures Has(a & b, q) <==> Has(a, q) && Has(b, q)
  {
  }

  lemma HasSome(a: bv32, q: Irq)
    ensures Has(a, q) ==> a != 0
  {
  }

  lemma FirstIsLeast(bits: bv32, q: Irq)
    ensures Has(bits, q) ==> First(bits).Some? && Rank(First(bits).value) <= Rank(q)
    ensures First(bits) == Some(q) ==> Has(bits, q)
  {
  }

  function Offer(mie: bv32, mip: bv32, mideleg: bv32, sideleg: bv32, m: Mode): bv32 {
    match m
    case M => mie & mip & !mideleg
    case S => mie & mip & mideleg & !sideleg
    case U => mie & mip & mideleg & sideleg
  }

  lemma OfferedM(mie: bv32, mip: bv32, mideleg: bv32, sideleg: bv32, q: Irq)
    ensures Has(mie & mip & !mideleg, q) <==> Has(mie, q) && Has(mip, q) && Dest(mideleg, sideleg, q) == M
  {
  }

  lemma OfferedS(mie: bv32, mip: bv32, mideleg: bv32, sideleg: bv32, q: Irq)
    ensures Has(mie & mip & mideleg & !sideleg, q) <==> Has(mie, q) && Has(mip, q) && Dest(mideleg, sideleg, q) == S
  {
  }

  lemma OfferedU(mie: bv32, mip: bv32, mideleg: bv32, sideleg: bv32, q: Irq)
    ensures Has(mie & mip & mideleg & sideleg, q) <==> Has(mie, q) && Has(mip, q) && Dest(mideleg, sideleg, q) == U
  {
  }

  /** An interrupt is offered to the mode delegation sends it to, and to no other. */
  lemma OfferedTo(bits: bv32, mie: bv32, mip: bv32, mideleg: bv32, sideleg: bv32, q: Irq, m: Mode)
    requires bits == Offer(mie, mip, mideleg, sideleg, m)
    ensures Has(bits, q) <==> Has(mie, q) && Has(mip, q) && Dest(mideleg, sideleg, q) == m
  {
    match m
    case M => OfferedM(mie, mip, mideleg, sideleg, q);
    case S => OfferedS(mie, mip, mideleg, sideleg, q);
    case U => OfferedU(mie, mip, mideleg, sideleg, q);
  }

  lemma PendingIsOffer(p: Prv, st: Mstatus, mie: bv32, mip: bv32, mideleg: bv32, sideleg: bv32, m: Mode)
    ensures var x := PendingWords(p, st, mie, mip, mideleg, sideleg);
            && (x.Pending? ==> x.bits == Offer(mie, mip, mideleg, sideleg, x.mode) && May(p, st, x.mode))
            && (mie & mip != 0 && Offer(mie, mip, mideleg, sideleg, m) != 0 && May(p, st, m) ==>
                  x.Pending? && Level(m) <= Level(x.mode))
  {
    SelectHighest(p, st, Nonzero, mie & mip & !mideleg, mie & mip & mideleg & !sideleg, mie & mip & mideleg & sideleg, m);
  }

  lemma InterruptNotBelow(c: Ctl)
    requires ComputePending(c).Pending?
    ensures Level(ComputePending(c).mode) >= c.prv
  {
    var w := c.csrs.words;
    PendingIsOffer(c.prv, c.csrs.mstatus, w.mie, w.mip, w.mideleg, w.sideleg, M);
    MayNotBelow(c.prv, c.csrs.mstatus, ComputePending(c).mode);
  }

  lemma WordsChosenSound(p: Prv, st: Mstatus, mie: bv32, mip: bv32, mideleg: bv32, sideleg: bv32)
    ensures match ChoiceOf(PendingWords(p, st, mie, mip, mideleg, sideleg))
            case None => true
            case Some(k) => Has(mie, k.irq) && Has(mip, k.irq) && k.mode == Dest(mideleg, sideleg, k.irq) &&
                            May(p, st, k.mode)
  {
    var x := PendingWords(p, st, mie, mip, mideleg, sideleg);
    if x.Pending? && First(x.bits).Some? {
      var q := First(x.bits).value;
      PendingIsOffer(p, st, mie, mip, mideleg, sideleg, x.mode);
      FirstIsLeast(x.bits, q);
      OfferedTo(x.bits, mie, mip, mideleg, sideleg, q, x.mode);
    }
  }

  /** The interrupt chosen is pending, enabled, not masked, and goes to the mode delegation names. */
  lemma ChosenSound(c: Ctl)
    requires Chosen(c).Some?
    ensures var k := Chosen(c).value; Takeable(c, k.irq) && k.mode == DestOf(c, k.irq)
  {
    var w := c.csrs.words;
    WordsChosenSound(c.prv, c.csrs.mstatus, w.mie, w.mip, w.mideleg, w.sideleg);
  }

  lemma OfferThere(bits: bv32, mie: bv32, mip: bv32, mideleg: bv32, sideleg: bv32, q: Irq, d: Mode)
    requires Has(mie, q) && Has(mip, q) && d == Dest(mideleg, sideleg, q) && bits == Offer(mie, mip, mideleg, sideleg, d)
    ensures mie & mip != 0 && bits != 0 && Has(bits, q)
  {
    OfferedTo(bits, mie, mip, mideleg, sideleg, q, d);
    HasSome(bits, q);
    HasBoth(mie, mip, q);
    HasSome(mie & mip, q);
  }

  lemma Wins(x: Pending<bv32>, q: Irq, d: Mode)
    requires x.Pending? && First(x.bits).Some? && Level(d) <= Level(x.mode) && (x.mode == d ==> Has(x.bits, q))
    ensures ChoiceOf(x).Some? && Outranks(ChoiceOf(x).value, q, d)
  {
    FirstIsLeast(x.bits, q);
  }

  lemma WordsChosenHighest(p: Prv, st: Mstatus, mie: bv32, mip: bv32, mideleg: bv32, sideleg: bv32, q: Irq, d: Mode)
    requires Inside(mie) && Has(mie, q) && Has(mip, q) && May(p, st, d) && d == Dest(mideleg, sideleg, q)
    ensures var k := ChoiceOf(PendingWords(p, st, mie, mip, mideleg, sideleg)); k.Some? && Outranks(k.value, q, d)
  {
    OfferThere(Offer(mie, mip, mideleg, sideleg, d), mie, mip, mideleg, sideleg, q, d);
    PendingIsOffer(p, st, mie, mip, mideleg, sideleg, d);
    WordsHaveFirst(p, st, mie, mip, mideleg, sideleg);
    Wins(PendingWords(p, st, mie, mip, mideleg, sideleg), q, d);
  }

  /** If any interrupt can be taken, one is chosen, and it outranks every takeable one. */
  lemma ChosenHighest(c: Ctl, p: Irq)
    requires Inside(c.csrs.words.mie) && Takeable(c, p)
    ensures Chosen(c).Some? && Outranks(Chosen(c).value, p, DestOf(c, p))
  {
    var w := c.csrs.words;
    WordsChosenHighest(c.prv, c.csrs.mstatus, w.mie, w.mip, w.mideleg, w.sideleg, p, DestOf(c, p));
  }

  /** A mode's interrupts get through below its level, and at its level if its enable is set. */
  predicate Open(p: Prv, st: Mstatus, m: Mode) {
    match m
    case M => p < 3 || st.mie == 1
    case S => p == 0 || (p == 1 && st.sie == 1)
    case U => p == 0 && st.uie == 1
  }

  lemma MayIsOpen(p: Prv, st: Mstatus, m: Mode)
    ensures May(p, st, m) <==> Open(p, st, m)
  {
    match m case M => case S => case U =>
  }

  /** Enabled, pending and open at the running level. */
  predicate Waiting(c: Ctl, q: Irq) {
    Has(c.csrs.words.mie, q) && Has(c.csrs.words.mip, q) && Open(c.prv, c.csrs.mstatus, DestOf(c, q))
  }

  lemma TakenIsWaiting(c: Ctl, x: Option<Choice>)
    requires x == Chosen(c) && x.Some?
    ensures Waiting(c, x.value.irq)
  {
    ChosenSound(c);
    MayIsOpen(c.prv, c.csrs.mstatus, DestOf(c, x.value.irq));
  }

  lemma WaitingIsTaken(c: Ctl, x: Option<Choice>, q: Irq)
    requires x == Chosen(c) && Inside(c.csrs.words.mie) && Waiting(c, q)
    ensures x.Some?
  {
    MayIsOpen(c.prv, c.csrs.mstatus, DestOf(c, q));
    ChosenHighest(c, q);
  }

  /** An interrupt is taken exactly if one is enabled, pending and open at the running level. */
  lemma TakenExactly(c: Ctl, x: Option<Choice>)
    requires x == Chosen(c) && Inside(c.csrs.words.mie)
    ensures x.Some? <==> exists q: Irq :: Waiting(c, q)
  {
    if x.Some? {
      TakenIsWaiting(c, x);
    } else {
      forall q: Irq
        ensures !Waiting(c, q)
      {
        if Waiting(c, q) {
          WaitingIsTaken(c, x, q);
        }
      }
    }
  }

  lemma EntryShields(c: Ctl, pc: Addr, m: Mode)
    ensures var e := Entered(c, pc, m).ctl;
            e.prv == Level(m) && !Enabled(e.csrs.mstatus, m) && e.csrs.words == c.csrs.words
  {
  }

  /** Right after entry only interrupts for a more privileged mode can be taken. */
  lemma HandlerShielded(c: Ctl, pc: Addr, m: Mode, q: Irq)
    requires Takeable(Entered(c, pc, m).ctl, q)
    ensures Level(DestOf(c, q)) > Level(m)
  {
    var e := Entered(c, pc, m).ctl;
    EntryShields(c, pc, m);
    assert DestOf(e, q) == DestOf(c, q);
    if DestOf(c, q) != m {
      MayNotBelow(e.prv, e.csrs.mstatus, DestOf(c, q));
    }
  }

  // ----- what a trap or an interrupt leaves in the registers -----

  /** The bank of the mode holds `b`, and the other two are as they were. */
  predicate OnlyBank(r: Csrs, was: Csrs, m: Mode, b: Bank) {
    match m
    case M => r.m == b && r.s == was.s && r.u == was.u
    case S => r.m == was.m && r.s == b && r.u == was.u
    case U => r.m == was.m && r.s == was.s && r.u == b
  }

  /** The trap vector of a mode. */
  function Vector(r: Csrs, m: Mode): Addr {
    match m case M => r.m.tvec case S => r.s.tvec case U => r.u.tvec
  }

  function TrapValue(r: Csrs, m: Mode): Addr {
    match m case M => r.m.tval case S => r.s.tval case U => r.u.tval
  }

  /** xIE moves to xPIE, xPP takes the privilege, and nothing else of the status changes. */
  predicate StatusEntered(st: Mstatus, was: Mstatus, m: Mode, p: Prv) {
    match m
    case M => st == was.(mie := 0, mpie := was.mie, mpp := st.mpp) && st.mpp as nat == p
    case S => st == was.(sie := 0, spie := was.sie, spp := st.spp) && st.spp as nat == p % 2
    case U => st == was.(uie := 0, upie := was.uie)
  }

  lemma EntryStatus(st: Mstatus, m: Mode, p: Prv)
    ensures StatusEntered(EnterStatus(st, m, p), st, m, p)
  {
  }

  /**
    After a trap the target mode runs at its vector's base, its bank holds the cause, the value
    and the address of the trapping instruction, and the other banks are as they were.
   */
  lemma TrapRecorded(c: Ctl, pc: Addr, cause: nat, tval: nat)
    ensures var m := TrapTarget(c, cause); var r := Trapped(c, pc, cause, tval); var v := Vector(c.csrs, m);
            && OnlyBank(r.ctl.csrs, c.csrs, m, Bank(v, pc, cause % 0x8000_0000, tval % 0x1_0000_0000))
            && StatusEntered(r.ctl.csrs.mstatus, c.csrs.mstatus, m, c.prv)
            && r.ctl.prv == Level(m) && r.pc == v / 4 * 4
  {
    EntryStatus(c.csrs.mstatus, TrapTarget(c, cause), c.prv);
  }

  /** The nine cause numbers: the level of the source's mode, plus 4 for a timer and 8 for an external one. */
  function CauseNumber(q: Irq): nat {
    var kind := if q.MEI? || q.SEI? || q.UEI? then 8 else if q.MTI? || q.STI? || q.UTI? then 4 else 0;
    kind + if q.MEI? || q.MTI? || q.MSI? then 3 else if q.SEI? || q.STI? || q.SSI? then 1 else 0
  }

  /** An interrupt's cause number is the position of its bit. */
  lemma LineIsCause(x: bv32, q: Irq)
    ensures Trap.Number(q) == CauseNumber(q) < 32
    ensures Line(q) == (1 as bv32) << CauseNumber(q)
    ensures Has(x, q) <==> x & ((1 as bv32) << CauseNumber(q)) != 0
  {
    match q case MEI => case MSI => case MTI => case SEI => case SSI => case STI => case UEI => case USI => case UTI =>
  }

  /**
    Taking an interrupt records its cause with the interrupt bit and leaves xtval alone; the
    handler starts at the vector's base, plus four bytes per cause if the vector's mode is 1.
   */
  lemma InterruptRecorded(c: Ctl, pc: Addr)
    requires Chosen(c).Some?
    ensures var k := Chosen(c).value; var m, n := k.mode, CauseNumber(k.irq); var r := Interrupted(c, pc);
            var v := Vector(c.csrs, m);
            && OnlyBank(r.ctl.csrs, c.csrs, m, Bank(v, pc, 0x8000_0000 + n, TrapValue(c.csrs, m)))
            && StatusEntered(r.ctl.csrs.mstatus, c.csrs.mstatus, m, c.prv)
            && r.ctl.prv == Level(m) && r.pc == (v / 4 * 4 + if v % 4 == 1 then 4 * n else 0) % 0x1_0000_0000
  {
    TakenRecorded(c, pc, Chosen(c).value);
  }

  lemma TakenRecorded(c: Ctl, pc: Addr, k: Choice)
    ensures var m, n := k.mode, CauseNumber(k.irq); var r := Take(c, pc, Some(k)); var v := Vector(c.csrs, m);
            && OnlyBank(r.ctl.csrs, c.csrs, m, Bank(v, pc, 0x8000_0000 + n, TrapValue(c.csrs, m)))
            && StatusEntered(r.ctl.csrs.mstatus, c.csrs.mstatus, m, c.prv)
            && r.ctl.prv == Level(m) && r.pc == (v / 4 * 4 + if v % 4 == 1 then 4 * n else 0) % 0x1_0000_0000
  {
    EntryStatus(c.csrs.mstatus, k.mode, c.prv);
  }

  /** Delegation looks at the bit whose position is the cause. */
  lemma CausePositions()
    ensures CauseBit(0) == 0x1 && CauseBit(1) == 0x2 && CauseBit(2) == 0x4 && CauseBit(3) == 0x8
    ensures CauseBit(4) == 0x10 && CauseBit(5) == 0x20 && CauseBit(6) == 0x40 && CauseBit(7) == 0x80
    ensures CauseBit(8) == 0x100 && CauseBit(9) == 0x200 && CauseBit(11) == 0x800
    ensures CauseBit(12) == 0x1000 && CauseBit(13) == 0x2000 && CauseBit(15) == 0x8000
  {
  }

  /** The traps software can delegate: to S all of them, on to U all but the calls from S and M. */
  lemma Delegable(cause: nat)
    requires cause in {0, 1, 2, 3, 4, 5, 6, 7, 8, 9, 11, 12, 13, 15}
    ensures Asked(cause, MEDELEG_MASK) && (Asked(cause, SEDELEG_MASK) <==> cause != 9 && cause != 11)
  {
    CausePositions();
  }

  /** Which interrupts the views of mie and mip show and let software write. */
  lemma ViewsAre(q: Irq)
    ensures var level := CauseNumber(q) % 4;
            && Has(MIE_MASK, q) && (Has(SIE_MASK, q) <==> level < 3) && (Has(UIE_MASK, q) <==> level == 0)
            && (Has(MIP_WRITE_MASK, q) <==> level < 3)
            && (Has(SIP_MASK, q) <==> q == SSI || q == USI) && (Has(UIP_MASK, q) <==> q == USI)
  {
    match q case MEI => case MSI => case MTI => case SEI => case SSI => case STI => case UEI => case USI => case UTI =>
  }

  /** The nine interrupts are all there is in these registers. */
  lemma NothingElse()
    ensures MIE_MASK ==
            Line(MEI) | Line(MSI) | Line(MTI) | Line(SEI) | Line(SSI) | Line(STI) | Line(UEI) | Line(USI) | Line(UTI)
    ensures SIE_MASK & !MIE_MASK == 0 && UIE_MASK & !MIE_MASK == 0 && MIP_WRITE_MASK & !MIE_MASK == 0
    ensures SIP_MASK & !MIE_MASK == 0 && UIP_MASK & !MIE_MASK == 0
  {
  }

  // ----- what every step keeps -----

  lemma EnteredSound(c: Ctl, pc: Addr, m: Mode)
    requires Sound(c) && pc % 2 == 0
    ensures Sound(Entered(c, pc, m).ctl) && Entered(c, pc, m).pc % 2 == 0
  {
    HandlerEven(BankOf(c.csrs, m).(epc := pc));
  }

  lemma MultipleOfFour(k: nat)
    ensures 4 * k % WORDS % 2 == 0
  {
    var q := 4 * k / WORDS;
    assert 4 * k % WORDS == 2 * (2 * k - 0x8000_0000 * q);
  }

  lemma HandlerEven(b: Bank)
    ensures HandlerPc(b) % 2 == 0
  {
    var off := if b.cause >= INTERRUPT && b.tvec % 4 == 1 then b.cause - INTERRUPT else 0;
    assert HandlerPc(b) == 4 * (b.tvec / 4 + off) % WORDS;
    MultipleOfFour(b.tvec / 4 + off);
  }

  lemma TrappedSound(c: Ctl, pc: Addr, cause: nat, tval: nat)
    requires Sound(c) && pc % 2 == 0
    ensures Sound(Trapped(c, pc, cause, tval).ctl) && Trapped(c, pc, cause, tval).pc % 2 == 0
  {
    var m := TrapTarget(c, cause);
    EnteredSound(WithCause(c, m, cause % INTERRUPT, tval % WORDS), pc, m);
  }

  lemma TakenSound(c: Ctl, pc: Addr, x: Option<Choice>)
    requires Sound(c) && pc % 2 == 0
    ensures Sound(Take(c, pc, x).ctl) && Take(c, pc, x).pc % 2 == 0
  {
    match x
    case None =>
    case Some(k) => EnteredSound(WithIrq(c, k.mode, k.irq), pc, k.mode);
  }

  lemma InterruptedSound(c: Ctl, pc: Addr)
    requires Sound(c) && pc % 2 == 0
    ensures Sound(Interrupted(c, pc).ctl) && Interrupted(c, pc).pc % 2 == 0
  {
    TakenSound(c, pc, Chosen(c));
  }

  lemma ReturnedSound(c: Ctl, m: Mode)
    requires Sound(c)
    ensures Sound(Returned(c, m).ctl) && Returned(c, m).pc % 2 == 0
  {
  }

  lemma EpcEven(x: Addr, v: Addr)
    requires x % 2 == 0
    ensures EpcWrite(x, v) % 2 == 0
  {
  }

  lemma HalfEven(x: nat)
    requires x % 4 < 2
    ensures x / 2 % 2 == 0
  {
    var q := x / 4;
    assert x == 2 * (2 * q) + x % 4;
    assert x / 2 == 2 * q;
  }

  lemma TvecLow(x: Addr, v: Addr)
    requires x % 4 < 2
    ensures TvecWrite(x, v) % 4 < 2
  {
    HalfEven(x);
    var w := v / 4;
    assert TvecWrite(x, v) == 4 * w + v % 2;
  }

  lemma BankWriteSound(b: Bank, reg: nat, v: Addr)
    requires SoundBank(b)
    ensures SoundBank(WriteBank(b, reg, v))
  {
    EpcEven(b.epc, v);
    TvecLow(b.tvec, v);
  }

  lemma MaskedInside(x: bv32, mask: bv32, v: bv32)
    requires Inside(x) && Inside(mask)
    ensures Inside(Masked(x, mask, v))
  {
  }

  predicate InterruptReg(k: WordReg) {
    k.Mie? || k.Mip? || k.Mideleg? || k.Sideleg?
  }

  /** All eight addresses write under masks that lie inside MIE_MASK. */
  lemma RowsInside(a: nat)
    ensures match RowOf(a) case None => true case Some(row) => InterruptReg(row.reg) ==> Inside(row.write)
  {
  }

  /** The predicate holds of the four interrupt registers. */
  predicate EachLine(ok: bv32 -> bool, w: Words) {
    ok(w.mie) && ok(w.mip) && ok(w.mideleg) && ok(w.sideleg)
  }

  lemma WithEach(ok: bv32 -> bool, w: Words, k: WordReg, x: bv32)
    requires EachLine(ok, w) && (InterruptReg(k) ==> ok(x))
    ensures EachLine(ok, WithWord(w, k, x))
  {
  }

  lemma WordOfEach(ok: bv32 -> bool, w: Words, k: WordReg)
    requires EachLine(ok, w) && InterruptReg(k)
    ensures ok(Word(w, k))
  {
  }

  lemma WordSetInside(w: Words, k: WordReg, mask: bv32, v: bv32)
    requires LinesInside(w) && (InterruptReg(k) ==> Inside(mask))
    ensures LinesInside(WithWord(w, k, Masked(Word(w, k), mask, v)))
  {
    if InterruptReg(k) {
      WordOfEach(Inside, w, k);
      MaskedInside(Word(w, k), mask, v);
    }
    WithEach(Inside, w, k, Masked(Word(w, k), mask, v));
  }

  lemma TrapSetSound(r: Csrs, a: nat, v: Addr)
    requires SoundBanks(r)
    ensures match SetTraps(r, a, v) case None => true case Some(d) => SoundBanks(d) && d.words == r.words
  {
    if a >= 0x300 {
      BankWriteSound(r.m, a - 0x300, v);
    }
    if a >= 0x100 {
      BankWriteSound(r.s, a - 0x100, v);
    }
    BankWriteSound(r.u, a, v);
  }

  /**
    No CSR write makes an xepc odd, sets bit 1 of an xtvec, or leaves a bit outside MIE_MASK in
    mie, mip, mideleg or sideleg.
   */
  lemma SetSound(c: Ctl, a: nat, v: Addr)
    requires Sound(c) && Set(c.csrs, a, v).Some?
    ensures Sound(c.(csrs := Set(c.csrs, a, v).value))
  {
    match RowOf(a)
    case None => TrapSetSound(c.csrs, a, v);
    case Some(row) =>
      RowsInside(a);
      WordSetInside(c.csrs.words, row.reg, row.write, v as bv32);
  }
}
