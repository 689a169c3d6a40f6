/** CSR instructions as software sees them: what they return, what they leave, and what they leave alone. */
module CsrAccesses {
  import opened Isa
  import B = Bits
  import opened Csr
  import opened CsrTheorems

  // ----- which register an address names -----

  datatype Part = Machine | Supervisor | User

  datatype BankField = Tvec | Epc | Cause | Tval

  /** The storage behind an address; several addresses can show parts of one register. */
  datatype Storage =
    | Status
    | WordOf(reg: WordReg)
    | BankOf(part: Part, field: BankField)
    | CounterEnable(machine: bool)
    | Float
    | Cycle | Time | Instret
    | Own(addr: nat)

  function FieldOf(reg: nat): BankField {
    if reg == 0x05 then Tvec else if reg == 0x41 then Epc else if reg == 0x42 then Cause else Tval
  }

  function StorageOf(a: nat): Storage {
    match RowOf(a)
    case Some(row) => WordOf(row.reg)
    case None =>
      if a == 0x300 || a == 0x100 || a == 0x000 then Status
      else if a == 0x305 || 0x341 <= a <= 0x343 then BankOf(Machine, FieldOf(a - 0x300))
      else if a == 0x105 || 0x141 <= a <= 0x143 then BankOf(Supervisor, FieldOf(a - 0x100))
      else if a == 0x005 || 0x041 <= a <= 0x043 then BankOf(User, FieldOf(a))
      else if a == 0x306 then CounterEnable(true)
      else if a == 0x106 then CounterEnable(false)
      else if 0x001 <= a <= 0x003 then Float
      else if a == 0xB00 || a == 0xB80 || a == 0xC00 || a == 0xC80 then Cycle
      else if a == 0xB01 || a == 0xB81 || a == 0xC01 || a == 0xC81 then Time
      else if a == 0xB02 || a == 0xB82 || a == 0xC02 || a == 0xC82 then Instret
      else Own(a)
  }

  function Field(b: Bank, f: BankField): Addr {
    match f case Tvec => b.tvec case Epc => b.epc case Cause => b.cause case Tval => b.tval
  }

  function BankIn(r: Csrs, p: Part): Bank {
    match p case Machine => r.m case Supervisor => r.s case User => r.u
  }

  /** The two files agree on one register. */
  predicate SameIn(r: Csrs, d: Csrs, x: Storage) {
    match x
    case Status => r.mstatus == d.mstatus
    case WordOf(k) => Word(r.words, k) == Word(d.words, k)
    case BankOf(p, f) => Field(BankIn(r, p), f) == Field(BankIn(d, p), f)
    case CounterEnable(machine) => if machine then r.mcounteren == d.mcounteren else r.scounteren == d.scounteren
    case Float => r.fcsr == d.fcsr
    case Cycle => r.cycle == d.cycle
    case Time => r.time == d.time
    case Instret => r.instret == d.instret
    case Own(a) => PlainValue(r, a) == PlainValue(d, a)
  }

  lemma CounterSetOnly(r: Csrs, a: nat, v: Addr, x: Storage)
    requires SetCounter(r, a, v).Some? && x != StorageOf(a) && RowOf(a) == None
    ensures SameIn(r, SetCounter(r, a, v).value, x)
  {
  }

  lemma OwnSetOnly(r: Csrs, a: nat, v: Addr, x: Storage)
    requires x != Own(a)
    ensures SameIn(r, r.(plain := r.plain[a := v]), x)
  {
  }

  lemma OwnNamed(a: nat)
    requires Plain(a)
    ensures StorageOf(a) == Own(a)
  {
  }

  lemma PlainSetOnly(r: Csrs, a: nat, v: Addr, x: Storage)
    requires RowOf(a) == None && SetPlain(r, a, v).Some? && x != StorageOf(a)
    ensures SameIn(r, SetPlain(r, a, v).value, x)
  {
    if a == 0x301 || HpmCounter(a) || Debug(a) {
    } else if Plain(a) {
      OwnNamed(a);
      OwnSetOnly(r, a, v, x);
    } else if a != 0x306 && a != 0x106 && !(0x001 <= a <= 0x003) {
      CounterSetOnly(r, a, v, x);
    }
  }

  lemma BankSetOnly(b: Bank, reg: nat, v: Addr, f: BankField)
    requires f != FieldOf(reg)
    ensures Field(WriteBank(b, reg, v), f) == Field(b, f)
  {
  }

  lemma TrapSetOnly(r: Csrs, a: nat, v: Addr, x: Storage)
    requires RowOf(a) == None && SetTraps(r, a, v).Some? && x != StorageOf(a)
    ensures SameIn(r, SetTraps(r, a, v).value, x)
  {
    if a in {0x305, 0x341, 0x342, 0x343, 0x105, 0x141, 0x142, 0x143, 0x005, 0x041, 0x042, 0x043} {
      var base := if a >= 0x300 then 0x300 else if a >= 0x100 then 0x100 else 0;
      if x.BankOf? && x.field != FieldOf(a - base) {
        BankSetOnly(if a >= 0x300 then r.m else if a >= 0x100 then r.s else r.u, a - base, v, x.field);
      }
    } else if !(a == 0x300 || a == 0x100 || a == 0x000) {
      PlainSetOnly(r, a, v, x);
    }
  }

  lemma WithWordOnly(w: Words, k: WordReg, x: bv32, j: WordReg)
    requires j != k
    ensures Word(WithWord(w, k, x), j) == Word(w, j)
  {
  }

  /** A write changes the register it names and no other. */
  lemma SetOnly(r: Csrs, a: nat, v: Addr, x: Storage)
    requires Set(r, a, v).Some? && x != StorageOf(a)
    ensures SameIn(r, Set(r, a, v).value, x)
  {
    match RowOf(a)
    case None => TrapSetOnly(r, a, v, x);
    case Some(row) =>
      if x.WordOf? {
        WithWordOnly(r.words, row.reg, Masked(Word(r.words, row.reg), row.write, v as bv32), x.reg);
      }
  }

  lemma PlainReadsOwn(r: Csrs, d: Csrs, a: nat)
    requires RowOf(a) == None && StatusMask(a) == None && SameIn(r, d, StorageOf(a))
    ensures ReadPlain(r, a) == ReadPlain(d, a)
  {
  }

  /** What an address shows is decided by its register, and for satp by mstatus.tvm. */
  lemma ReadsOwn(r: Csrs, d: Csrs, a: nat)
    requires SameIn(r, d, StorageOf(a)) && (a == 0x180 ==> r.mstatus.rest & TVM == d.mstatus.rest & TVM)
    ensures ReadRegister(r, a) == ReadRegister(d, a)
  {
    if RowOf(a) == None && StatusMask(a) == None {
      PlainReadsOwn(r, d, a);
    }
  }

  /** A write at one address leaves unchanged what is read at every address of another register. */
  lemma OthersUnchanged(r: Csrs, a: nat, v: Addr, b: nat)
    requires Set(r, a, v).Some? && StorageOf(b) != StorageOf(a) && !(b == 0x180 && StorageOf(a) == Status)
    ensures ReadRegister(Set(r, a, v).value, b) == ReadRegister(r, b)
  {
    SetOnly(r, a, v, StorageOf(b));
    if b == 0x180 {
      SetOnly(r, a, v, Status);
    }
    ReadsOwn(r, Set(r, a, v).value, b);
  }

  // ----- reading back registers without a mask -----

  /** Scratch, cause, trap value and memory protection registers are written whole. */
  predicate Whole(a: nat) {
    || a in {0x340, 0x140, 0x040, 0x342, 0x343, 0x142, 0x143, 0x042, 0x043}
    || 0x3A0 <= a <= 0x3A3 || 0x3B0 <= a <= 0x3BF
  }

  /** Reading the address has no side effect and is never refused for a counter. */
  predicate Simple(a: nat) {
    a < 0xC00 && !(a in {0xB00, 0xB80, 0xB01, 0xB81})
  }

  /** What software reads at an address. */
  function Shown(c: Ctl, a: nat): Option<Addr> {
    match Get(c, a) case None => None case Some(x) => Some(x.value)
  }

  lemma SimpleShown(c: Ctl, a: nat)
    requires Simple(a)
    ensures Get(c, a) == Answer(c, ReadRegister(c.csrs, a)) && Shown(c, a) == ReadRegister(c.csrs, a)
  {
  }

  /** Registers with storage of their own, that software may write. */
  predicate OwnWhole(a: nat) {
    0x3A0 <= a <= 0x3A3 || 0x3B0 <= a <= 0x3BF || a == 0x340 || a == 0x140 || a == 0x040
  }

  lemma OwnIsPlain(a: nat)
    requires OwnWhole(a)
    ensures RowOf(a) == None && StatusMask(a) == None && Plain(a) && !InBank(a) && !HpmCounter(a) && !Debug(a) &&
            a != 0x301
  {
  }

  lemma OwnSet(r: Csrs, a: nat, v: Addr)
    requires RowOf(a) == None && StatusMask(a) == None && Plain(a) && !InBank(a) && !HpmCounter(a) && !Debug(a) &&
             a != 0x301
    ensures Set(r, a, v) == Some(r.(plain := r.plain[a := v]))
  {
  }

  lemma OwnRead(r: Csrs, a: nat)
    requires OwnWhole(a) && RowOf(a) == None && StatusMask(a) == None
    ensures ReadRegister(r, a) == Some(PlainValue(r, a))
  {
  }

  predicate InBank(a: nat) {
    || a == 0x305 || 0x341 <= a <= 0x343 || a == 0x105 || 0x141 <= a <= 0x143 || a == 0x005 || 0x041 <= a <= 0x043
  }

  function PartOf(a: nat): Part {
    if a >= 0x300 then Machine else if a >= 0x100 then Supervisor else User
  }

  function InPart(a: nat): nat {
    if a >= 0x300 then a - 0x300 else if a >= 0x100 then a - 0x100 else a
  }

  function WithBankIn(r: Csrs, p: Part, b: Bank): Csrs {
    match p case Machine => r.(m := b) case Supervisor => r.(s := b) case User => r.(u := b)
  }

  lemma BankNotWord(a: nat)
    requires InBank(a)
    ensures RowOf(a) == None && StatusMask(a) == None
  {
  }

  lemma BankSet(r: Csrs, a: nat, v: Addr)
    requires InBank(a) && RowOf(a) == None
    ensures Set(r, a, v) == Some(WithBankIn(r, PartOf(a), WriteBank(BankIn(r, PartOf(a)), InPart(a), v)))
  {
  }

  lemma BankRead(r: Csrs, a: nat)
    requires InBank(a) && RowOf(a) == None && StatusMask(a) == None
    ensures ReadRegister(r, a) == Some(ReadBank(BankIn(r, PartOf(a)), InPart(a)))
  {
  }

  /** What a bank register shows after a write. */
  lemma BankShows(c: Ctl, a: nat, v: Addr)
    requires InBank(a)
    ensures Set(c.csrs, a, v).Some? && Shown(c, a) == Some(ReadBank(BankIn(c.csrs, PartOf(a)), InPart(a)))
    ensures Shown(c.(csrs := Set(c.csrs, a, v).value), a) ==
            Some(ReadBank(WriteBank(BankIn(c.csrs, PartOf(a)), InPart(a), v), InPart(a)))
  {
    BankNotWord(a);
    BankSet(c.csrs, a, v);
    BankRead(c.csrs, a);
    SimpleShown(c, a);
    var r := Set(c.csrs, a, v).value;
    BankRead(r, a);
    SimpleShown(c.(csrs := r), a);
  }

  /** Right after a write, software reads the value written. */
  lemma WholeReadsBack(c: Ctl, a: nat, v: Addr)
    requires Whole(a)
    ensures Set(c.csrs, a, v).Some? && Shown(c.(csrs := Set(c.csrs, a, v).value), a) == Some(v)
  {
    if InBank(a) {
      BankShows(c, a, v);
    } else {
      OwnIsPlain(a);
      OwnSet(c.csrs, a, v);
      var r := c.csrs.(plain := c.csrs.plain[a := v]);
      OwnRead(r, a);
      SimpleShown(c.(csrs := r), a);
    }
  }

  /** xtvec keeps its bit 1 and takes the other bits. */
  predicate TvecTakes(was: Addr, now: Addr, v: Addr) {
    now / 4 == v / 4 && now % 2 == v % 2 && now / 2 % 2 == was / 2 % 2
  }

  /** xepc keeps its bit 0 and takes the other bits. */
  predicate EpcTakes(was: Addr, now: Addr, v: Addr) {
    now / 2 == v / 2 && now % 2 == was % 2
  }

  lemma TvecTaken(now: nat, q: nat, i: nat, j: nat)
    requires now == 4 * q + 2 * i + j && i < 2 && j < 2
    ensures now / 4 == q && now % 2 == j && now / 2 % 2 == i
  {
    assert now / 2 == 2 * q + i;
  }

  lemma VectorsReadBack(c: Ctl, a: nat, v: Addr)
    requires a == 0x305 || a == 0x105 || a == 0x005
    ensures Shown(c, a).Some? && Set(c.csrs, a, v).Some?
    ensures var now := Shown(c.(csrs := Set(c.csrs, a, v).value), a);
            now.Some? && TvecTakes(Shown(c, a).value, now.value, v)
  {
    BankShows(c, a, v);
    var x := BankIn(c.csrs, PartOf(a)).tvec;
    TvecTaken(TvecWrite(x, v), v / 4, x / 2 % 2, v % 2);
  }

  lemma EpcTaken(x: Addr, v: Addr)
    ensures EpcTakes(x, EpcWrite(x, v), v)
  {
  }

  lemma EpcReadsBack(c: Ctl, a: nat, v: Addr)
    requires a == 0x341 || a == 0x141 || a == 0x041
    ensures Shown(c, a).Some? && Set(c.csrs, a, v).Some?
    ensures var now := Shown(c.(csrs := Set(c.csrs, a, v).value), a);
            now.Some? && EpcTakes(Shown(c, a).value, now.value, v)
  {
    BankShows(c, a, v);
    EpcTaken(BankIn(c.csrs, PartOf(a)).epc, v);
  }

  lemma FloatReached(r: Csrs, a: nat, v: Addr)
    requires 1 <= a <= 3
    ensures Set(r, a, v) == Some(r.(fcsr := FcsrWrite(r.fcsr, a, v)))
    ensures ReadRegister(r, a) ==
            Some(if a == 3 then r.fcsr % 0x100 else if a == 1 then r.fcsr % 0x20 else r.fcsr / 0x20 % 8)
  {
  }

  lemma FieldsOf(x: nat, q: nat, f: nat, g: nat)
    requires x == 0x100 * q + 0x20 * f + g && f < 8 && g < 0x20
    ensures x % 0x100 == 0x20 * f + g && x / 0x20 % 8 == f && x % 0x20 == g
  {
    assert x / 0x20 == 8 * q + f;
  }

  lemma FloatParts(x: nat, v: Addr)
    ensures FcsrWrite(x, 3, v) % 0x100 == v % 0x100
    ensures FcsrWrite(x, 1, v) % 0x20 == v % 0x20 && FcsrWrite(x, 1, v) / 0x20 % 8 == x / 0x20 % 8
    ensures FcsrWrite(x, 2, v) / 0x20 % 8 == v % 8 && FcsrWrite(x, 2, v) % 0x20 == x % 0x20
  {
    var q, f, g := x / 0x100, x / 0x20 % 8, x % 0x20;
    assert x / 0x20 == 8 * q + f;
    FieldsOf(FcsrWrite(x, 1, v), q, f, v % 0x20);
    FieldsOf(FcsrWrite(x, 2, v), q, v % 8, g);
  }

  /** What the three addresses of fcsr show after a write of `v` at address `a`. */
  lemma FloatReadsBack(r: Csrs, a: nat, v: Addr)
    requires 1 <= a <= 3
    ensures var d := Set(r, a, v);
            && d.Some?
            && (a == 3 ==> ReadRegister(d.value, 3) == Some(v % 0x100))
            && (a == 1 ==> ReadRegister(d.value, 1) == Some(v % 0x20) && ReadRegister(d.value, 2) == ReadRegister(r, 2))
            && (a == 2 ==> ReadRegister(d.value, 2) == Some(v % 8) && ReadRegister(d.value, 1) == ReadRegister(r, 1))
  {
    var d := r.(fcsr := FcsrWrite(r.fcsr, a, v));
    FloatParts(r.fcsr, v);
    FloatReached(r, a, v);
    FloatReached(r, 1, v);
    FloatReached(r, 2, v);
    FloatReached(d, 1, v);
    FloatReached(d, 2, v);
    FloatReached(d, 3, v);
  }

  lemma InstretNotWord()
    ensures RowOf(0xB02) == None && RowOf(0xB82) == None && StatusMask(0xB02) == None && StatusMask(0xB82) == None
  {
  }

  lemma InstretSet(r: Csrs, v: Addr)
    ensures Set(r, 0xB02, v) == Some(r.(instret := SetLow(r.instret, v)))
    ensures Set(r, 0xB82, v) == Some(r.(instret := SetHigh(r.instret, v)))
  {
    InstretNotWord();
  }

  lemma InstretRead(r: Csrs)
    ensures ReadRegister(r, 0xB02) == Some(Low(r.instret)) && ReadRegister(r, 0xB82) == Some(High(r.instret))
  {
    InstretNotWord();
  }

  lemma HalvesSet(x: nat, v: Addr)
    ensures Low(SetLow(x, v)) == v && High(SetLow(x, v)) == High(x)
    ensures High(SetHigh(x, v)) == v && Low(SetHigh(x, v)) == Low(x)
  {
    assert SetLow(x, v) == WORDS * (x / WORDS) + v;
    assert SetLow(x, v) / WORDS == x / WORDS;
    assert SetHigh(x, v) / WORDS == v;
  }

  /** The halves of minstret are written one at a time. */
  lemma InstretReadsBack(r: Csrs, v: Addr)
    ensures Set(r, 0xB02, v).Some? && Set(r, 0xB82, v).Some?
    ensures var d := Set(r, 0xB02, v).value;
            ReadRegister(d, 0xB02) == Some(v) && ReadRegister(d, 0xB82) == ReadRegister(r, 0xB82)
    ensures var d := Set(r, 0xB82, v).value;
            ReadRegister(d, 0xB82) == Some(v) && ReadRegister(d, 0xB02) == ReadRegister(r, 0xB02)
  {
    InstretSet(r, v);
    InstretRead(r);
    InstretRead(r.(instret := SetLow(r.instret, v)));
    InstretRead(r.(instret := SetHigh(r.instret, v)));
    HalvesSet(r.instret, v);
  }

  // ----- counters and clocks -----

  /** The three counters that exist, at their user addresses; `k` is their bit in the enables. */
  predicate UserCounter(a: nat, k: nat) {
    k < 3 && (a == 0xC00 + k || a == 0xC80 + k)
  }

  lemma LowBits(q: nat, r: nat)
    requires r < 8
    ensures (8 * q + r) % 2 == r % 2 && (8 * q + r) / 2 % 2 == r / 2 % 2 && (8 * q + r) / 4 % 2 == r / 4 % 2
  {
    assert (8 * q + r) / 2 == 4 * q + r / 2;
    assert (8 * q + r) / 4 == 2 * q + r / 4;
  }

  lemma BitIs(n: nat, k: nat)
    requires k < 3
    ensures B.BitAt(n, k) <==> (if k == 0 then n else if k == 1 then n / 2 else n / 4) % 2 == 1
  {
    assert B.Pow2(0) == 1 && B.Pow2(1) == 2 && B.Pow2(2) == 4;
    assert n / 1 == n;
  }

  lemma LowBitsTaken(x: nat, v: nat, k: nat)
    requires k < 3
    ensures B.BitAt(x / 8 * 8 + v % 8, k) <==> B.BitAt(v, k)
  {
    LowBits(x / 8, v % 8);
    LowBits(v / 8, v % 8);
    BitIs(x / 8 * 8 + v % 8, k);
    BitIs(v, k);
  }

  lemma HiddenIs(c: Ctl, a: nat, k: nat)
    requires UserCounter(a, k)
    ensures CounterHidden(c, a) <==>
            (c.prv == 1 && !B.BitAt(c.csrs.mcounteren, k)) ||
            (c.prv == 0 && !(B.BitAt(c.csrs.mcounteren, k) && B.BitAt(c.csrs.scounteren, k)))
  {
    assert a % 0x20 == k;
  }

  lemma CounterReadable(c: Ctl, a: nat, k: nat)
    requires UserCounter(a, k)
    ensures Get(c, a).Some? <==> !CounterHidden(c, a)
  {
  }

  lemma EnablesSet(r: Csrs, v: Addr)
    ensures Set(r, 0x306, v) == Some(r.(mcounteren := r.mcounteren / 8 * 8 + v % 8))
    ensures Set(r, 0x106, v) == Some(r.(scounteren := r.scounteren / 8 * 8 + v % 8))
  {
  }

  lemma EnablesAfter(was: Csrs, r: Csrs, d: Csrs, v: Addr, w: Addr)
    requires Set(was, 0x306, v) == Some(r) && Set(r, 0x106, w) == Some(d)
    ensures d.mcounteren == was.mcounteren / 8 * 8 + v % 8 && d.scounteren == was.scounteren / 8 * 8 + w % 8
  {
    EnablesSet(was, v);
    EnablesSet(r, w);
  }

  lemma EnablesAre(was: Csrs, r: Csrs, d: Csrs, v: Addr, w: Addr, k: nat)
    requires k < 3 && Set(was, 0x306, v) == Some(r) && Set(r, 0x106, w) == Some(d)
    ensures B.BitAt(d.mcounteren, k) <==> B.BitAt(v, k)
    ensures B.BitAt(d.scounteren, k) <==> B.BitAt(w, k)
  {
    EnablesAfter(was, r, d, v, w);
    LowBitsTaken(was.mcounteren, v, k);
    LowBitsTaken(was.scounteren, w, k);
  }

  /**
    After `v` has been written to mcounteren and `w` to scounteren, supervisor mode can read the
    counters selected by `v`, user mode those selected by both, and the other modes all of them.
   */
  lemma CountersGated(c: Ctl, r: Csrs, d: Csrs, v: Addr, w: Addr, a: nat, k: nat)
    requires UserCounter(a, k) && Set(c.csrs, 0x306, v) == Some(r) && Set(r, 0x106, w) == Some(d)
    ensures Get(c.(csrs := d), a).Some? <==>
            c.prv > 1 || (B.BitAt(v, k) && (c.prv == 1 || B.BitAt(w, k)))
  {
    EnablesAre(c.csrs, r, d, v, w, k);
    HiddenIs(c.(csrs := d), a, k);
    CounterReadable(c.(csrs := d), a, k);
  }

  /** The clocks are read through: mtime from the interrupt controller, mcycle from the hart's cycle count. */
  lemma ClocksShown(c: Ctl, a: nat)
    requires Get(c, a).Some?
    ensures a == 0xC01 || a == 0xB01 ==> Get(c, a).value.value == c.clintTime % 0x1_0000_0000
    ensures a == 0xC81 || a == 0xB81 ==> Get(c, a).value.value == c.clintTime / 0x1_0000_0000 % 0x1_0000_0000
    ensures a == 0xB00 ==> Get(c, a).value.value == c.cycles % 0x1_0000_0000
    ensures a == 0xB80 ==> Get(c, a).value.value == c.cycles / 0x1_0000_0000 % 0x1_0000_0000
  {
  }

  // ----- CSR instructions -----

  predicate Swaps(op: CsrOp) {
    op == CSRRW || op == CSRRWI
  }

  /** The instruction writes: a swap always, the others unless their source is x0 or zero. */
  predicate Writes(op: CsrOp, source: nat) {
    Swaps(op) || source != 0
  }

  /** An address that is not read-only can be written exactly if it can be read. */
  lemma WritableIsReadable(r: Csrs, a: nat, v: Addr)
    requires a / 0x400 % 4 != 3 && a < 0x1000
    ensures Set(r, a, v).Some? <==> ReadRegister(r, a).Some?
  {
  }

  lemma ClockedReads(c: Ctl, a: nat)
    ensures ReadRegister(Clocked(c, a).csrs, a).Some? <==> ReadRegister(c.csrs, a).Some?
    ensures Clocked(c, a).prv == c.prv
  {
  }

  lemma NotHidden(c: Ctl, a: nat)
    requires a / 0x400 % 4 != 3 && a < 0x1000
    ensures Get(c, a).Some? <==> ReadRegister(c.csrs, a).Some?
  {
    ClockedReads(c, a);
  }

  /** The control part and the value an instruction goes on with after its read. */
  function AfterRead(c: Ctl, op: CsrOp, a: nat, rd: nat): CsrRead {
    if Swaps(op) && rd == 0 then CsrRead.CsrRead(c, 0)
    else match Get(c, a) case None => CsrRead.CsrRead(c, 0) case Some(x) => x
  }

  lemma WriteDefined(c: Ctl, op: CsrOp, a: nat, rd: nat, v: Addr)
    requires a / 0x400 % 4 != 3 && a < 0x1000
    ensures Set(AfterRead(c, op, a, rd).ctl.csrs, a, v).Some? <==> Get(c, a).Some?
  {
    NotHidden(c, a);
    ClockedReads(c, a);
    WritableIsReadable(AfterRead(c, op, a, rd).ctl.csrs, a, v);
  }

  lemma AccessUnfolds(c: Ctl, op: CsrOp, a: nat, rd: nat, source: nat, operand: Addr)
    ensures var x := AfterRead(c, op, a, rd);
            CsrAccess(c, op, a, rd, source, operand).CsrOk? <==>
            && !InvalidAccess(c.prv, a, Writes(op, source))
            && ((Swaps(op) && rd == 0) || Get(c, a).Some?)
            && (Writes(op, source) ==> Set(x.ctl.csrs, a, Combined(op, x.value, operand)).Some?)
  {
  }

  /**
    A CSR instruction succeeds exactly if the privilege suffices, the register is not read-only
    in case of a write, and it can be read; so it never fails after half of its work.
   */
  lemma AccessSucceeds(c: Ctl, op: CsrOp, a: nat, rd: nat, source: nat, operand: Addr)
    requires a < 0x1000
    ensures CsrAccess(c, op, a, rd, source, operand).CsrOk? <==>
            a / 0x100 % 4 <= c.prv && (Writes(op, source) ==> a / 0x400 % 4 != 3) && Get(c, a).Some?
  {
    AccessUnfolds(c, op, a, rd, source, operand);
    if a / 0x400 % 4 != 3 {
      WriteDefined(c, op, a, rd, Combined(op, AfterRead(c, op, a, rd).value, operand));
    }
  }

  /** The instruction puts what the register showed into rd, unless rd is x0. */
  lemma AccessReturns(c: Ctl, op: CsrOp, a: nat, rd: nat, source: nat, operand: Addr)
    requires CsrAccess(c, op, a, rd, source, operand).CsrOk?
    ensures var r := CsrAccess(c, op, a, rd, source, operand);
            r.writeRd == (rd != 0) && (rd != 0 ==> Shown(c, a) == Some(r.value))
  {
  }

  lemma SwapLeaves(c: Ctl, op: CsrOp, a: nat, rd: nat, source: nat, operand: Addr)
    requires Swaps(op) && CsrAccess(c, op, a, rd, source, operand).CsrOk? && Clocked(c, a) == c
    ensures Set(c.csrs, a, operand).Some?
    ensures CsrAccess(c, op, a, rd, source, operand).ctl == c.(csrs := Set(c.csrs, a, operand).value)
  {
  }

  /** After CSRRW and CSRRWI software reads the operand in a register that is written whole. */
  lemma SwapWhole(c: Ctl, op: CsrOp, a: nat, rd: nat, source: nat, operand: Addr)
    requires Swaps(op) && Whole(a) && CsrAccess(c, op, a, rd, source, operand).CsrOk?
    ensures Shown(CsrAccess(c, op, a, rd, source, operand).ctl, a) == Some(operand)
  {
    SwapLeaves(c, op, a, rd, source, operand);
    WholeReadsBack(c, a, operand);
  }

  lemma MaskedClocked(c: Ctl, a: nat)
    requires MaskOf(a).Some?
    ensures Clocked(c, a) == c
  {
    RowReached(c, a);
    if StatusMask(a).Some? {
      StatusReached(c, a);
    }
  }

  /** In a masked register software reads the operand inside the mask and the old bits outside. */
  lemma SwapMasked(c: Ctl, op: CsrOp, a: nat, rd: nat, source: nat, operand: Addr, m: bv32)
    requires Swaps(op) && MaskOf(a) == Some(m) && Unlocked(c, a) && CsrAccess(c, op, a, rd, source, operand).CsrOk?
    ensures Seen(c, a).Some?
    ensures Seen(CsrAccess(c, op, a, rd, source, operand).ctl, a) == Some(Masked(Seen(c, a).value, m, operand as bv32))
  {
    MaskedClocked(c, a);
    SwapLeaves(c, op, a, rd, source, operand);
    MaskedReadsBack(c, a, operand, m);
  }

  /** Swapping a register with a whole CSR twice gives both their values back. */
  lemma SwapTwice(c: Ctl, a: nat, rd: nat, source: nat, x: Addr)
    requires Whole(a) && rd != 0 && CsrAccess(c, CSRRW, a, rd, source, x).CsrOk?
    ensures var first := CsrAccess(c, CSRRW, a, rd, source, x);
            first.value < WORDS &&
            var second := CsrAccess(first.ctl, CSRRW, a, rd, source, first.value);
            second.CsrOk? && second.value == x && Shown(second.ctl, a) == Shown(c, a)
  {
    var first := CsrAccess(c, CSRRW, a, rd, source, x);
    AccessReturns(c, CSRRW, a, rd, source, x);
    AccessGuarded(c, CSRRW, a, rd, source, x);
    SwapWhole(c, CSRRW, a, rd, source, x);
    AccessSucceeds(first.ctl, CSRRW, a, rd, source, first.value);
    AccessReturns(first.ctl, CSRRW, a, rd, source, first.value);
    SwapWhole(first.ctl, CSRRW, a, rd, source, first.value);
  }
}
