/** Reading back what was written: a masked register keeps the bits outside its mask and takes those inside. */
module CsrTheorems {
  import opened Isa
  import opened Csr

  /** The write mask of a register that is written under a mask. */
  function MaskOf(a: nat): Option<bv32> {
    match RowOf(a) case Some(row) => Some(row.write) case None => StatusMask(a)
  }

  /** satp can be reached at all. */
  predicate Unlocked(c: Ctl, a: nat) {
    a == 0x180 ==> c.csrs.mstatus.rest & TVM == 0
  }

  /** The bits software sees at an address, if it can be read. */
  function Seen(c: Ctl, a: nat): Option<bv32> {
    match Get(c, a) case None => None case Some(r) => Some(r.value as bv32)
  }

  /** After the write, software sees the old bits outside the mask and the written ones inside. */
  predicate ReadsBack(c: Ctl, a: nat, v: Addr, mask: bv32) {
    var done := Set(c.csrs, a, v);
    && done.Some? && Seen(c, a).Some?
    && Seen(c.(csrs := done.value), a) == Some(Masked(Seen(c, a).value, mask, v as bv32))
  }

  lemma SeesBits(c: Ctl, a: nat, x: bv32)
    requires Get(c, a) == Some(CsrRead.CsrRead(c, Number(x)))
    ensures Seen(c, a) == Some(x)
  {
    assert Number(x) as bv32 == x;
  }

  function StatusAfter(st: Mstatus, a: nat, b: bv32): Mstatus {
    if a == 0x300 then WriteMstatus(st, b) else if a == 0x100 then WriteSstatus(st, b) else WriteUstatus(st, b)
  }

  lemma StatusReached(c: Ctl, a: nat)
    requires StatusMask(a).Some?
    ensures RowOf(a) == None && !CounterHidden(c, a) && Clocked(c, a) == c
  {
  }

  lemma StatusRead(r: Csrs, a: nat, m: bv32, x: bv32)
    requires RowOf(a) == None && StatusMask(a) == Some(m) && x == Pack(r.mstatus) & m
    ensures ReadRegister(r, a) == Some(Number(x))
  {
  }

  lemma SeesStatus(c: Ctl, a: nat, m: bv32, x: bv32)
    requires StatusMask(a) == Some(m) && x == Pack(c.csrs.mstatus) & m
    ensures Seen(c, a) == Some(x)
  {
    StatusReached(c, a);
    StatusRead(c.csrs, a, m, x);
    SeesBits(c, a, x);
  }

  lemma SetsStatus(r: Csrs, a: nat, v: Addr, m: bv32)
    requires StatusMask(a) == Some(m)
    ensures Set(r, a, v) == Some(r.(mstatus := StatusAfter(r.mstatus, a, v as bv32)))
  {
  }

  predicate Viewed(x: bv32, y: bv32, m: bv32, b: bv32) {
    y & m == Masked(x & m, m, b)
  }

  lemma MView(st: Mstatus, b: bv32)
    ensures Viewed(Pack(st), Pack(WriteMstatus(st, b)), MSTATUS_MASK, b)
  {
  }

  lemma SView(st: Mstatus, b: bv32)
    ensures Viewed(Pack(st), Pack(WriteSstatus(st, b)), SSTATUS_MASK, b)
  {
  }

  lemma UView(st: Mstatus, b: bv32)
    ensures Viewed(Pack(st), Pack(WriteUstatus(st, b)), USTATUS_MASK, b)
  {
  }

  lemma StatusView(st: Mstatus, a: nat, b: bv32, m: bv32)
    requires StatusMask(a) == Some(m)
    ensures Viewed(Pack(st), Pack(StatusAfter(st, a, b)), m, b)
  {
    if a == 0x300 {
      MView(st, b);
    } else if a == 0x100 {
      SView(st, b);
    } else {
      UView(st, b);
    }
  }

  lemma StatusAround(c: Ctl, a: nat, v: Addr, m: bv32, st: Mstatus, s: bv32, t: bv32)
    requires StatusMask(a) == Some(m) && st == StatusAfter(c.csrs.mstatus, a, v as bv32)
    requires s == Pack(c.csrs.mstatus) & m && t == Pack(st) & m && t == Masked(s, m, v as bv32)
    ensures ReadsBack(c, a, v, m)
  {
    SetsStatus(c.csrs, a, v, m);
    SeesStatus(c, a, m, s);
    SeesStatus(c.(csrs := c.csrs.(mstatus := st)), a, m, t);
  }

  lemma StatusReads(c: Ctl, a: nat, v: Addr, m: bv32, st: Mstatus, s: bv32, t: bv32)
    requires StatusMask(a) == Some(m) && st == StatusAfter(c.csrs.mstatus, a, v as bv32)
    requires s == Pack(c.csrs.mstatus) & m && t == Pack(st) & m
    ensures ReadsBack(c, a, v, m)
  {
    StatusView(c.csrs.mstatus, a, v as bv32, m);
    StatusAround(c, a, v, m, st, s, t);
  }

  lemma StatusReadsBack(c: Ctl, a: nat, v: Addr, m: bv32)
    requires StatusMask(a) == Some(m)
    ensures ReadsBack(c, a, v, m)
  {
    var st := StatusAfter(c.csrs.mstatus, a, v as bv32);
    StatusReads(c, a, v, m, st, Pack(c.csrs.mstatus) & m, Pack(st) & m);
  }

  // ----- registers kept as words -----

  /** Every write mask lies inside the mask under which software sees the register. */
  lemma WritesVisible(a: nat)
    ensures match RowOf(a) case None => true case Some(row) => row.write & !row.view == 0
  {
  }

  lemma RowReached(c: Ctl, a: nat)
    ensures match RowOf(a)
            case None => true
            case Some(row) =>
              !CounterHidden(c, a) && Clocked(c, a) == c && StatusMask(a).None? && (row.reg.Satp? ==> a == 0x180)
  {
  }

  lemma MaskedView(x: bv32, write: bv32, view: bv32, v: bv32)
    requires write & !view == 0
    ensures Masked(x, write, v) & view == Masked(x & view, write, v)
  {
  }

  lemma WordWritten(w: Words, k: WordReg, x: bv32)
    ensures Word(WithWord(w, k, x), k) == x
  {
  }

  lemma RowRead(c: Ctl, a: nat, row: Row, x: bv32)
    requires RowOf(a) == Some(row) && Unlocked(c, a) && x == Word(c.csrs.words, row.reg) & row.view
    ensures ReadRegister(c.csrs, a) == Some(Number(x))
  {
    RowReached(c, a);
  }

  lemma SeesWord(c: Ctl, a: nat, row: Row, x: bv32)
    requires RowOf(a) == Some(row) && Unlocked(c, a) && x == Word(c.csrs.words, row.reg) & row.view
    ensures Seen(c, a) == Some(x)
  {
    RowRead(c, a, row, x);
    RowReached(c, a);
    SeesBits(c, a, x);
  }

  function WithReg(r: Csrs, k: WordReg, x: bv32): Csrs {
    r.(words := WithWord(r.words, k, x))
  }

  lemma SetsWord(c: Ctl, a: nat, v: Addr, row: Row, x: bv32)
    requires RowOf(a) == Some(row) && Unlocked(c, a) && x == Masked(Word(c.csrs.words, row.reg), row.write, v as bv32)
    ensures Set(c.csrs, a, v) == Some(WithReg(c.csrs, row.reg, x))
  {
    RowReached(c, a);
  }

  /** After the write of `x` software sees `y`. */
  lemma SeesWritten(c: Ctl, a: nat, row: Row, x: bv32, y: bv32)
    requires RowOf(a) == Some(row) && Unlocked(c, a) && y == x & row.view
    ensures Seen(c.(csrs := WithReg(c.csrs, row.reg, x)), a) == Some(y)
  {
    WordWritten(c.csrs.words, row.reg, x);
    SeesWord(c.(csrs := WithReg(c.csrs, row.reg, x)), a, row, y);
  }

  lemma RowView(a: nat, row: Row, b: bv32, was: bv32, x: bv32, s: bv32, t: bv32)
    requires RowOf(a) == Some(row) && x == Masked(was, row.write, b) && s == was & row.view && t == x & row.view
    ensures t == Masked(s, row.write, b)
  {
    WritesVisible(a);
    MaskedView(was, row.write, row.view, b);
  }

  lemma WordAround(c: Ctl, a: nat, v: Addr, row: Row, x: bv32, s: bv32, t: bv32)
    requires RowOf(a) == Some(row) && Unlocked(c, a)
    requires x == Masked(Word(c.csrs.words, row.reg), row.write, v as bv32)
    requires s == Word(c.csrs.words, row.reg) & row.view && t == x & row.view && t == Masked(s, row.write, v as bv32)
    ensures ReadsBack(c, a, v, row.write)
  {
    SetsWord(c, a, v, row, x);
    SeesWord(c, a, row, s);
    SeesWritten(c, a, row, x, t);
  }

  /** `was` and `x` are the word before and after, `s` and `t` what software sees of them. */
  lemma WordReads(c: Ctl, a: nat, v: Addr, row: Row, was: bv32, x: bv32, s: bv32, t: bv32)
    requires RowOf(a) == Some(row) && Unlocked(c, a)
    requires was == Word(c.csrs.words, row.reg) && x == Masked(was, row.write, v as bv32)
    requires s == was & row.view && t == x & row.view
    ensures ReadsBack(c, a, v, row.write)
  {
    RowView(a, row, v as bv32, was, x, s, t);
    WordAround(c, a, v, row, x, s, t);
  }

  lemma WordReadsBack(c: Ctl, a: nat, v: Addr, row: Row)
    requires RowOf(a) == Some(row) && Unlocked(c, a)
    ensures ReadsBack(c, a, v, row.write)
  {
    var was := Word(c.csrs.words, row.reg);
    var x := Masked(was, row.write, v as bv32);
    WordReads(c, a, v, row, was, x, was & row.view, x & row.view);
  }

  /**
    The three status views, mie and mip at their three addresses each, and the delegation,
    inhibit and translation registers: the write takes exactly the bits of the mask.
   */
  lemma MaskedReadsBack(c: Ctl, a: nat, v: Addr, m: bv32)
    requires MaskOf(a) == Some(m) && Unlocked(c, a)
    ensures ReadsBack(c, a, v, m)
  {
    match RowOf(a)
    case Some(row) => WordReadsBack(c, a, v, row);
    case None => StatusReadsBack(c, a, v, m);
  }

  // ----- CSR instructions -----

  /** The bits an instruction leaves in a register with this write mask. */
  function Wanted(op: CsrOp, seen: bv32, mask: bv32, operand: bv32): bv32 {
    match op
    case CSRRW => Masked(seen, mask, operand)
    case CSRRWI => Masked(seen, mask, operand)
    case CSRRS => seen | (operand & mask)
    case CSRRSI => seen | (operand & mask)
    case CSRRC => seen & !(operand & mask)
    case CSRRCI => seen & !(operand & mask)
  }

  lemma SetAndClear(x: bv32, m: bv32, v: bv32)
    ensures Masked(x, m, x | v) == x | (v & m) && Masked(x, m, x & !v) == x & !(v & m)
  {
  }

  lemma NumberBits(x: bv32)
    ensures Number(x) as bv32 == x
  {
  }

  lemma MixedWanted(op: CsrOp, x: bv32, v: bv32, m: bv32)
    requires !(op == CSRRW || op == CSRRWI)
    ensures Masked(x, m, Mixed(op, x, v)) == Wanted(op, x, m, v)
  {
    SetAndClear(x, m, v);
  }

  lemma CombinedBits(op: CsrOp, m: bv32, was: Addr, operand: Addr)
    ensures Masked(was as bv32, m, Combined(op, was, operand) as bv32) == Wanted(op, was as bv32, m, operand as bv32)
  {
    if !(op == CSRRW || op == CSRRWI) {
      NumberBits(Mixed(op, was as bv32, operand as bv32));
      MixedWanted(op, was as bv32, operand as bv32, m);
    }
  }

  lemma Accesses(c: Ctl, op: CsrOp, a: nat, rd: nat, source: nat, operand: Addr, was: Addr, r: Csrs)
    requires !InvalidAccess(c.prv, a, true) && source != 0 && !(op == CSRRW || op == CSRRWI)
    requires Get(c, a) == Some(CsrRead.CsrRead(c, was)) && Set(c.csrs, a, Combined(op, was, operand)) == Some(r)
    ensures CsrAccess(c, op, a, rd, source, operand) == CsrOk(c.(csrs := r), was, rd != 0)
  {
  }

  /** The write of the combined value, as software sees it. */
  lemma WriteSeen(c: Ctl, op: CsrOp, a: nat, operand: Addr, m: bv32, was: Addr)
    requires MaskOf(a) == Some(m) && Unlocked(c, a) && Seen(c, a) == Some(was as bv32)
    ensures var done := Set(c.csrs, a, Combined(op, was, operand));
            done.Some? && Seen(c.(csrs := done.value), a) == Some(Wanted(op, was as bv32, m, operand as bv32))
  {
    MaskedReadsBack(c, a, Combined(op, was, operand), m);
    CombinedBits(op, m, was, operand);
  }

  /** Setting and clearing: the old value is returned, and exactly the masked operand bits are set or cleared. */
  lemma SetsAndClears(c: Ctl, op: CsrOp, a: nat, rd: nat, source: nat, operand: Addr, m: bv32, was: Addr)
    requires MaskOf(a) == Some(m) && Unlocked(c, a)
    requires Get(c, a) == Some(CsrRead.CsrRead(c, was))
    requires !InvalidAccess(c.prv, a, true) && source != 0 && !(op == CSRRW || op == CSRRWI)
    ensures var r := CsrAccess(c, op, a, rd, source, operand);
            r.CsrOk? && r.value == was && Seen(r.ctl, a) == Some(Wanted(op, was as bv32, m, operand as bv32))
  {
    WriteSeen(c, op, a, operand, m, was);
    Accesses(c, op, a, rd, source, operand, was, Set(c.csrs, a, Combined(op, was, operand)).value);
  }

  // ----- access rights -----

  /** A read changes nothing but the copies of the clocks. */
  lemma GetPure(c: Ctl, a: nat)
    requires Get(c, a).Some?
    ensures var d := Get(c, a).value.ctl; d.(csrs := d.csrs.(time := c.csrs.time, cycle := c.csrs.cycle)) == c
  {
  }

  /**
    A CSR instruction succeeds only at a sufficient privilege level, and only on a writable
    register if it writes; without a write it leaves the CSRs alone.
   */
  lemma AccessGuarded(c: Ctl, op: CsrOp, a: nat, rd: nat, source: nat, operand: Addr)
    requires CsrAccess(c, op, a, rd, source, operand).CsrOk?
    ensures var write := op in {CSRRW, CSRRWI} || source != 0; var d := CsrAccess(c, op, a, rd, source, operand).ctl;
            && c.prv >= a / 0x100 % 4 && d.prv == c.prv
            && (write ==> a / 0x400 % 4 != 3)
            && (!write ==> d.(csrs := d.csrs.(time := c.csrs.time, cycle := c.csrs.cycle)) == c)
  {
    if Get(c, a).Some? {
      GetPure(c, a);
    }
  }
}
