/** Properly nested trap handlers unwind to the interrupted context. */
module Nesting {
  import opened Isa
  import opened Csr
  import opened Trap
  import opened TrapTheorems

  /**
    What the software of one privilege level does: it jumps, it writes CSRs, and it is
    interrupted by handlers that are themselves such scripts.
   */
  datatype Script =
    | Done
    | Goto(target: Addr, next: Script)
    | Write(addr: nat, value: Addr, next: Script)
    | Raise(mode: Mode, cause: Addr, tval: Addr, body: Script, next: Script)

  predicate WellNested(p: Prv, s: Script)
    decreases s
  {
    match s
    case Done => true
    case Goto(t, n) => t % 2 == 0 && WellNested(p, n)
    case Write(_, _, n) => WellNested(p, n)
    case Raise(m, _, _, body, n) => Level(m) >= p && WellNested(Level(m), body) && WellNested(p, n)
  }

  /** A CSR write, without effect where the access is refused. */
  function Written(c: Ctl, a: nat, v: Addr): Ctl {
    if InvalidAccess(c.prv, a, true) then c
    else match Set(c.csrs, a, v) case None => c case Some(r) => c.(csrs := r)
  }

  function StatusAddr(m: Mode): nat { match m case M => 0x300 case S => 0x100 case U => 0x000 }
  function EpcAddr(m: Mode): nat { match m case M => 0x341 case S => 0x141 case U => 0x041 }

  function StatusMask(m: Mode): bv32 { match m case M => MSTATUS_MASK case S => SSTATUS_MASK case U => USTATUS_MASK }

  function WriteStatus(st: Mstatus, m: Mode, b: bv32): Mstatus {
    match m case M => WriteMstatus(st, b) case S => WriteSstatus(st, b) case U => WriteUstatus(st, b)
  }

  /** xstatus as the handler reads it on entry. */
  function SavedStatus(c: Ctl, m: Mode): bv32 {
    Pack(c.csrs.mstatus) & StatusMask(m)
  }

  /** The end of a handler: xstatus and xepc are written back. */
  function Restored(c: Ctl, m: Mode, status: bv32, epc: Addr): Ctl {
    var b := BankOf(c.csrs, m);
    c.(csrs := WithBank(c.csrs.(mstatus := WriteStatus(c.csrs.mstatus, m, status)), m, b.(epc := EpcWrite(b.epc, epc))))
  }

  lemma OwnAccess(m: Mode)
    ensures !InvalidAccess(Level(m), StatusAddr(m), true) && !InvalidAccess(Level(m), EpcAddr(m), true)
  {
  }

  lemma WrittenIs(c: Ctl, a: nat, v: Addr, r: Csrs)
    requires !InvalidAccess(c.prv, a, true) && Set(c.csrs, a, v) == Some(r)
    ensures Written(c, a, v) == c.(csrs := r)
  {
  }

  lemma StatusSet(r: Csrs, m: Mode, v: Addr)
    ensures Set(r, StatusAddr(m), v) == Some(r.(mstatus := WriteStatus(r.mstatus, m, v as bv32)))
  {
    match m case M => case S => case U =>
  }

  lemma StatusWrite(c: Ctl, m: Mode, v: Addr)
    requires c.prv == Level(m)
    ensures Written(c, StatusAddr(m), v) == c.(csrs := c.csrs.(mstatus := WriteStatus(c.csrs.mstatus, m, v as bv32)))
  {
    OwnAccess(m);
    StatusSet(c.csrs, m, v);
    WrittenIs(c, StatusAddr(m), v, c.csrs.(mstatus := WriteStatus(c.csrs.mstatus, m, v as bv32)));
  }

  lemma EpcSet(r: Csrs, m: Mode, v: Addr)
    ensures var b := BankOf(r, m);
            Set(r, EpcAddr(m), v) == Some(WithBank(r, m, b.(epc := EpcWrite(b.epc, v))))
  {
    match m case M => case S => case U =>
  }

  lemma EpcWritten(c: Ctl, m: Mode, v: Addr)
    requires c.prv == Level(m)
    ensures var b := BankOf(c.csrs, m);
            Written(c, EpcAddr(m), v) == c.(csrs := WithBank(c.csrs, m, b.(epc := EpcWrite(b.epc, v))))
  {
    var b := BankOf(c.csrs, m);
    OwnAccess(m);
    EpcSet(c.csrs, m, v);
    WrittenIs(c, EpcAddr(m), v, WithBank(c.csrs, m, b.(epc := EpcWrite(b.epc, v))));
  }

  /** These are the CSR writes a handler performs at its own privilege level. */
  lemma RestoredByWrites(c: Ctl, m: Mode, status: Addr, epc: Addr)
    requires c.prv == Level(m)
    ensures Restored(c, m, status as bv32, epc) == Written(Written(c, StatusAddr(m), status), EpcAddr(m), epc)
  {
    StatusWrite(c, m, status);
    EpcWritten(c.(csrs := c.csrs.(mstatus := WriteStatus(c.csrs.mstatus, m, status as bv32))), m, epc);
  }

  /** A handler: entry, save, body, restore, return. */
  function Handled(c: Ctl, pc: Addr, m: Mode, cause: Addr, tval: Addr, body: Script): Redirect<Ctl>
    decreases body, 1
  {
    var e := Entered(WithCause(c, m, cause, tval), pc, m);
    var d := Play(e.ctl, e.pc, body);
    Returned(Restored(d.ctl, m, SavedStatus(e.ctl, m), BankOf(e.ctl.csrs, m).epc), m)
  }

  function Play(c: Ctl, pc: Addr, s: Script): Redirect<Ctl>
    decreases s, 0
  {
    match s
    case Done => Redirect(c, pc)
    case Goto(t, n) => Play(c, t, n)
    case Write(a, v, n) => Play(Written(c, a, v), pc, n)
    case Raise(m, cause, tval, body, n) =>
      var b := Handled(c, pc, m, cause, tval, body);
      Play(b.ctl, b.pc, n)
  }

  // ----- the status register across a handler -----

  /** Interrupt enables of the modes above a level are out of its reach. */
  predicate Guarded(p: Prv, was: Mstatus, now: Mstatus) {
    (p < MACHINE ==> now.mie == was.mie) && (p < SUPERVISOR ==> now.sie == was.sie)
  }

  lemma WrittenGuards(c: Ctl, a: nat, v: Addr)
    ensures Guarded(c.prv, c.csrs.mstatus, Written(c, a, v).csrs.mstatus) && Written(c, a, v).prv == c.prv
    ensures Sound(c) ==> Sound(Written(c, a, v))
  {
    if Sound(c) && Set(c.csrs, a, v).Some? {
      SetSound(c, a, v);
    }
  }

  lemma RestoresM(e: Mstatus, d: Mstatus)
    ensures var r := WriteMstatus(d, Pack(e) & MSTATUS_MASK);
            r.mie == e.mie && r.sie == e.sie && r.uie == e.uie && r.mpie == e.mpie && r.mpp == e.mpp
  {
  }

  lemma RestoresS(e: Mstatus, d: Mstatus)
    ensures var r := WriteSstatus(d, Pack(e) & SSTATUS_MASK);
            r.mie == d.mie && r.sie == e.sie && r.uie == e.uie && r.spie == e.spie && r.spp == e.spp
  {
  }

  lemma RestoresU(e: Mstatus, d: Mstatus)
    ensures var r := WriteUstatus(d, Pack(e) & USTATUS_MASK);
            r.mie == d.mie && r.sie == d.sie && r.uie == e.uie && r.upie == e.upie
  {
  }

  /** The three enables are back after the return, whatever the handler did to the status in between. */
  lemma StatusUnwinds(st: Mstatus, m: Mode, p: Prv, d: Mstatus)
    requires Level(m) >= p
    requires Guarded(Level(m), EnterStatus(st, m, p), d)
    ensures var r := WriteStatus(d, m, Pack(EnterStatus(st, m, p)) & StatusMask(m)); var b := ReturnStatus(r, m);
            b.mie == st.mie && b.sie == st.sie && b.uie == st.uie && Previous(r, m) == p
  {
    var e := EnterStatus(st, m, p);
    match m
    case M => RestoresM(e, d);
    case S => RestoresS(e, d);
    case U => RestoresU(e, d);
  }

  lemma RestoredIs(c: Ctl, m: Mode, b: bv32, epc: Addr)
    requires Sound(c) && epc % 2 == 0
    ensures var r := Restored(c, m, b, epc);
            r.prv == c.prv && r.csrs.mstatus == WriteStatus(c.csrs.mstatus, m, b) && BankOf(r.csrs, m).epc == epc && Sound(r)
  {
  }

  predicate SameContext(c: Ctl, pc: Addr, r: Redirect<Ctl>) {
    && r.pc == pc && r.ctl.prv == c.prv
    && r.ctl.csrs.mstatus.mie == c.csrs.mstatus.mie
    && r.ctl.csrs.mstatus.sie == c.csrs.mstatus.sie
    && r.ctl.csrs.mstatus.uie == c.csrs.mstatus.uie
  }

  /** A handler of any depth leaves the pc, the privilege and every interrupt enable as it found them. */
  lemma {:induction false} Unwinds(c: Ctl, pc: Addr, m: Mode, cause: Addr, tval: Addr, body: Script)
    requires Sound(c) && pc % 2 == 0 && Level(m) >= c.prv && WellNested(Level(m), body)
    ensures SameContext(c, pc, Handled(c, pc, m, cause, tval, body)) && Sound(Handled(c, pc, m, cause, tval, body).ctl)
    decreases body, 1
  {
    var e := Entered(WithCause(c, m, cause, tval), pc, m);
    EnteredSound(WithCause(c, m, cause, tval), pc, m);
    ScriptKeeps(e.ctl, e.pc, body);
    var d := Play(e.ctl, e.pc, body);
    RestoredIs(d.ctl, m, SavedStatus(e.ctl, m), pc);
    StatusUnwinds(c.csrs.mstatus, m, c.prv, d.ctl.csrs.mstatus);
    ReturnedSound(Restored(d.ctl, m, SavedStatus(e.ctl, m), pc), m);
  }

  /** A script ends at the privilege it started at, with the enables of higher modes untouched. */
  lemma {:induction false} ScriptKeeps(c: Ctl, pc: Addr, s: Script)
    requires Sound(c) && pc % 2 == 0 && WellNested(c.prv, s)
    ensures var r := Play(c, pc, s);
            && r.ctl.prv == c.prv && r.pc % 2 == 0 && Sound(r.ctl)
            && Guarded(c.prv, c.csrs.mstatus, r.ctl.csrs.mstatus)
    decreases s, 0
  {
    match s
    case Done =>
    case Goto(t, n) => ScriptKeeps(c, t, n);
    case Write(a, v, n) =>
      WrittenGuards(c, a, v);
      ScriptKeeps(Written(c, a, v), pc, n);
    case Raise(m, cause, tval, body, n) =>
      Unwinds(c, pc, m, cause, tval, body);
      var b := Handled(c, pc, m, cause, tval, body);
      ScriptKeeps(b.ctl, b.pc, n);
  }
}
