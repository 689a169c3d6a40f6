/** Control and status registers: masked views, access rights, reads and writes. */
module Csr {
  import opened Isa
  import opened Bits

  /** Privilege levels: user 0, supervisor 1, machine 3; 2 is reserved but can be encoded. */
  type Prv = n: nat | n < 4

  const USER: Prv := 0
  const SUPERVISOR: Prv := 1
  const MACHINE: Prv := 3

  const MIE_MASK: bv32 := 0xBBB
  const SIE_MASK: bv32 := 0x333
  const UIE_MASK: bv32 := 0x111
  const MIP_WRITE_MASK: bv32 := 0x333
  const SIP_MASK: bv32 := 0x3
  const UIP_MASK: bv32 := 0x1
  const MEDELEG_MASK: bv32 := 0xBBFF
  const SEDELEG_MASK: bv32 := 0xB1FF
  const MSTATUS_MASK: bv32 := 0x807F_F9BB
  const SSTATUS_MASK: bv32 := 0x800D_E133
  const USTATUS_MASK: bv32 := 0x0000_0011
  const SATP_MASK: bv32 := 0x803F_FFFF
  const MCOUNTINHIBIT_MASK: bv32 := 0x5

  const TVM: bv32 := 0x0010_0000
  const TW: bv32 := 0x0020_0000

  /**
    mstatus by its fields. `rest` holds fs, xs, mprv, sum, mxr, tvm, tw, tsr and sd at their
    positions; the reserved fields in between are never written.
   */
  datatype Mstatus = Mstatus(
    uie: bv1, sie: bv1, mie: bv1,
    upie: bv1, spie: bv1, mpie: bv1,
    spp: bv1, mpp: bv2, rest: bv32)

  const REST_MASK: bv32 := 0x807F_E000
  const SREST_MASK: bv32 := 0x800D_E000

  /** The register as software reads it. */
  function Pack(st: Mstatus): bv32 {
    (st.uie as bv32) | ((st.sie as bv32) << 1) | ((st.mie as bv32) << 3) |
    ((st.upie as bv32) << 4) | ((st.spie as bv32) << 5) | ((st.mpie as bv32) << 7) |
    ((st.spp as bv32) << 8) | ((st.mpp as bv32) << 11) | (st.rest & REST_MASK)
  }

  function WriteUstatus(st: Mstatus, b: bv32): Mstatus {
    st.(uie := (b & 1) as bv1, upie := ((b >> 4) & 1) as bv1)
  }

  function WriteSstatus(st: Mstatus, b: bv32): Mstatus {
    WriteUstatus(st, b).(sie := ((b >> 1) & 1) as bv1, spie := ((b >> 5) & 1) as bv1, spp := ((b >> 8) & 1) as bv1,
                         rest := Masked(st.rest, SREST_MASK, b))
  }

  function WriteMstatus(st: Mstatus, b: bv32): Mstatus {
    WriteSstatus(st, b).(mie := ((b >> 3) & 1) as bv1, mpie := ((b >> 7) & 1) as bv1, mpp := ((b >> 11) & 3) as bv2,
                         rest := Masked(st.rest, REST_MASK, b))
  }

  const MISA: Addr := 0x4014_3125

  /** The trap registers of one privilege level. */
  datatype Bank = Bank(tvec: Addr, epc: Addr, cause: Addr, tval: Addr)

  /** The interrupt, delegation, inhibit and translation registers. */
  datatype Words = Words(
    mie: bv32, mip: bv32, mideleg: bv32, sideleg: bv32,
    medeleg: bv32, sedeleg: bv32, inhibit: bv32, satp: bv32)

  /**
    The CSR file. Registers that are only ever masked are bit-vectors; addresses, causes and
    counters are numbers. `plain` holds the registers that software reads and writes whole.
   */
  datatype Csrs = Csrs(
    mstatus: Mstatus, words: Words,
    m: Bank, s: Bank, u: Bank,
    mcounteren: nat, scounteren: nat, fcsr: nat,
    time: nat, cycle: nat, instret: nat,
    plain: map<nat, Addr>)

  /** The clocks outside the hart, read when a counter register is read. */
  datatype Ctl = Ctl(prv: Prv, csrs: Csrs, clintTime: nat, cycles: nat)

  function Masked(x: bv32, mask: bv32, v: bv32): bv32 {
    (x & !mask) | (v & mask)
  }

  // The registers kept as words, and the masks under which software sees and writes them.

  datatype WordReg = Mie | Mip | Mideleg | Sideleg | Medeleg | Sedeleg | Inhibit | Satp

  datatype Row = Row(reg: WordReg, write: bv32, view: bv32)

  const ALL: bv32 := 0xFFFF_FFFF

  function RowOf(a: nat): Option<Row> {
    if a == 0x304 then Some(Row(Mie, MIE_MASK, MIE_MASK))
    else if a == 0x104 then Some(Row(Mie, SIE_MASK, SIE_MASK))
    else if a == 0x004 then Some(Row(Mie, UIE_MASK, UIE_MASK))
    else if a == 0x344 then Some(Row(Mip, MIP_WRITE_MASK, MIE_MASK))
    else if a == 0x144 then Some(Row(Mip, SIP_MASK, SIP_MASK))
    else if a == 0x044 then Some(Row(Mip, UIP_MASK, UIP_MASK))
    else if a == 0x303 then Some(Row(Mideleg, MIE_MASK, ALL))
    else if a == 0x103 then Some(Row(Sideleg, MIE_MASK, ALL))
    else if a == 0x302 then Some(Row(Medeleg, MEDELEG_MASK, ALL))
    else if a == 0x102 then Some(Row(Sedeleg, SEDELEG_MASK, ALL))
    else if a == 0x320 then Some(Row(Inhibit, MCOUNTINHIBIT_MASK, ALL))
    else if a == 0x180 then Some(Row(Satp, SATP_MASK, ALL))
    else None
  }

  function Word(w: Words, k: WordReg): bv32 {
    match k
    case Mie => w.mie case Mip => w.mip case Mideleg => w.mideleg case Sideleg => w.sideleg
    case Medeleg => w.medeleg case Sedeleg => w.sedeleg case Inhibit => w.inhibit case Satp => w.satp
  }

  function WithWord(w: Words, k: WordReg, x: bv32): Words {
    match k
    case Mie => w.(mie := x) case Mip => w.(mip := x) case Mideleg => w.(mideleg := x) case Sideleg => w.(sideleg := x)
    case Medeleg => w.(medeleg := x) case Sedeleg => w.(sedeleg := x) case Inhibit => w.(inhibit := x)
    case Satp => w.(satp := x)
  }

  /** The masks under which software sees mstatus at its three addresses. */
  function StatusMask(a: nat): Option<bv32> {
    if a == 0x300 then Some(MSTATUS_MASK) else if a == 0x100 then Some(SSTATUS_MASK)
    else if a == 0x000 then Some(USTATUS_MASK) else None
  }

  /** Access to satp is illegal while mstatus.tvm is set. */
  predicate Locked(st: Mstatus, k: WordReg) {
    k.Satp? && st.rest & TVM != 0
  }

  function Number(x: bv32): Addr { x as nat }

  function Low(x: nat): Addr { x % WORDS }
  function High(x: nat): Addr { x / WORDS % WORDS }
  function SetLow(x: nat, v: Addr): nat { x / WORDS * WORDS + v }
  function SetHigh(x: nat, v: Addr): nat { x % WORDS + v * WORDS }

  predicate HpmCounter(a: nat) {
    || 0xC03 <= a <= 0xC1F || 0xC83 <= a <= 0xC9F || 0xB03 <= a <= 0xB1F || 0xB83 <= a <= 0xB9F
    || 0x323 <= a <= 0x33F
  }

  predicate Debug(a: nat) {
    0x7A0 <= a <= 0x7A3 || 0x7B0 <= a <= 0x7B3
  }

  predicate Plain(a: nat) {
    0xF11 <= a <= 0xF14 || a in {0x340, 0x140, 0x040} || 0x3A0 <= a <= 0x3A3 || 0x3B0 <= a <= 0x3BF
  }

  function PlainValue(c: Csrs, a: nat): Addr {
    if a in c.plain then c.plain[a] else 0
  }

  /** `is_invalid_csr_access`; every extension it asks about is present. */
  predicate InvalidAccess(prv: Prv, a: nat, write: bool) {
    (write && a / 0x400 % 4 == 3) || prv < a / 0x100 % 4
  }

  predicate CounterHidden(c: Ctl, a: nat) {
    (0xC00 <= a <= 0xC1F || 0xC80 <= a <= 0xC9F) &&
    var on := (x: nat) => x / Pow2(a % 0x20) % 2 == 1;
    (c.prv == SUPERVISOR && !on(c.csrs.mcounteren)) ||
    (c.prv == USER && !(on(c.csrs.mcounteren) && on(c.csrs.scounteren)))
  }

  datatype CsrRead = CsrRead(ctl: Ctl, value: Addr)

  function ReadBank(b: Bank, reg: nat): Addr {
    if reg == 0x05 then b.tvec else if reg == 0x41 then b.epc else if reg == 0x42 then b.cause else b.tval
  }

  /** The value of a register that is read without side effects. */
  function ReadRegister(r: Csrs, a: nat): Option<Addr> {
    match RowOf(a)
    case Some(row) => if Locked(r.mstatus, row.reg) then None else Some(Number(Word(r.words, row.reg) & row.view))
    case None =>
      match StatusMask(a)
      case Some(m) => Some(Number(Pack(r.mstatus) & m))
      case None => ReadPlain(r, a)
  }

  function ReadPlain(r: Csrs, a: nat): Option<Addr> {
    if a in {0xC01, 0xB01} then Some(Low(r.time))
    else if a in {0xC81, 0xB81} then Some(High(r.time))
    else if a in {0xC00, 0xB00} then Some(Low(r.cycle))
    else if a in {0xC80, 0xB80} then Some(High(r.cycle))
    else if a in {0xB02, 0xC02} then Some(Low(r.instret))
    else if a in {0xB82, 0xC82} then Some(High(r.instret))
    else if HpmCounter(a) then Some(0)
    else if a == 0x003 then Some(r.fcsr % 0x100)
    else if a == 0x001 then Some(r.fcsr % 0x20)
    else if a == 0x002 then Some(r.fcsr / 0x20 % 8)
    else if a == 0x7A0 then Some(1)
    else if Debug(a) then Some(0)
    else if a == 0x301 then Some(MISA)
    else if a == 0x306 then Some(r.mcounteren % WORDS)
    else if a == 0x106 then Some(r.scounteren % WORDS)
    else if a in {0x305, 0x341, 0x342, 0x343} then Some(ReadBank(r.m, a - 0x300))
    else if a in {0x105, 0x141, 0x142, 0x143} then Some(ReadBank(r.s, a - 0x100))
    else if a in {0x005, 0x041, 0x042, 0x043} then Some(ReadBank(r.u, a))
    else if Plain(a) then Some(PlainValue(r, a))
    else None
  }

  /** Reading a clock register copies the clock into it first. */
  function Clocked(c: Ctl, a: nat): Ctl {
    if a in {0xC01, 0xB01, 0xC81, 0xB81} then c.(csrs := c.csrs.(time := c.clintTime))
    else if a in {0xB00, 0xB80} then c.(csrs := c.csrs.(cycle := c.cycles))
    else c
  }

  function Answer(c: Ctl, v: Option<Addr>): Option<CsrRead> {
    match v case None => None case Some(x) => Some(CsrRead(c, x))
  }

  /** `get_csr_value`; `None` stands for the illegal-instruction trap. */
  function Get(c: Ctl, a: nat): Option<CsrRead> {
    if CounterHidden(c, a) then None
    else var d := Clocked(c, a); Answer(d, ReadRegister(d.csrs, a))
  }

  /** The part of `MTVEC_MASK`: everything but bit 1. */
  function TvecWrite(x: Addr, v: Addr): Addr {
    v / 4 * 4 + x / 2 % 2 * 2 + v % 2
  }

  function EpcWrite(x: Addr, v: Addr): Addr {
    v / 2 * 2 + x % 2
  }

  function WriteBank(b: Bank, reg: nat, v: Addr): Bank {
    if reg == 0x05 then b.(tvec := TvecWrite(b.tvec, v))
    else if reg == 0x41 then b.(epc := EpcWrite(b.epc, v))
    else if reg == 0x42 then b.(cause := v)
    else b.(tval := v)
  }

  function FcsrWrite(x: nat, a: nat, v: Addr): nat {
    if a == 0x003 then x / 0x100 * 0x100 + v % 0x100
    else if a == 0x001 then x / 0x20 * 0x20 + v % 0x20
    else x / 0x100 * 0x100 + v % 8 * 0x20 + x % 0x20
  }

  /** The write changed no status, trap or word register. */
  predicate OnlyPlain(r: Csrs, o: Option<Csrs>) {
    match o
    case None => true
    case Some(d) =>
      d.m == r.m && d.s == r.s && d.u == r.u && d.mstatus == r.mstatus && d.words == r.words
  }

  function SetCounter(r: Csrs, a: nat, v: Addr): (o: Option<Csrs>)
    ensures OnlyPlain(r, o)
  {
    if a in {0xB00, 0xC00} then Some(r.(cycle := SetLow(r.cycle, v)))
    else if a in {0xB80, 0xC80} then Some(r.(cycle := SetHigh(r.cycle, v)))
    else if a in {0xB01, 0xC01} then Some(r.(time := SetLow(r.time, v)))
    else if a in {0xB81, 0xC81} then Some(r.(time := SetHigh(r.time, v)))
    else if a in {0xB02, 0xC02} then Some(r.(instret := SetLow(r.instret, v)))
    else if a in {0xB82, 0xC82} then Some(r.(instret := SetHigh(r.instret, v)))
    else None
  }

  function SetPlain(r: Csrs, a: nat, v: Addr): (o: Option<Csrs>)
    ensures OnlyPlain(r, o)
  {
    if a == 0x301 || HpmCounter(a) || Debug(a) then Some(r)
    else if Plain(a) then Some(r.(plain := r.plain[a := v]))
    else if a == 0x306 then Some(r.(mcounteren := r.mcounteren / 8 * 8 + v % 8))
    else if a == 0x106 then Some(r.(scounteren := r.scounteren / 8 * 8 + v % 8))
    else if a in {0x001, 0x002, 0x003} then Some(r.(fcsr := FcsrWrite(r.fcsr, a, v)))
    else SetCounter(r, a, v)
  }

  function SetTraps(r: Csrs, a: nat, v: Addr): Option<Csrs> {
    if a in {0x305, 0x341, 0x342, 0x343} then Some(r.(m := WriteBank(r.m, a - 0x300, v)))
    else if a in {0x105, 0x141, 0x142, 0x143} then Some(r.(s := WriteBank(r.s, a - 0x100, v)))
    else if a in {0x005, 0x041, 0x042, 0x043} then Some(r.(u := WriteBank(r.u, a, v)))
    else if a == 0x300 then Some(r.(mstatus := WriteMstatus(r.mstatus, v as bv32)))
    else if a == 0x100 then Some(r.(mstatus := WriteSstatus(r.mstatus, v as bv32)))
    else if a == 0x000 then Some(r.(mstatus := WriteUstatus(r.mstatus, v as bv32)))
    else SetPlain(r, a, v)
  }

  /** `set_csr_value`; `None` stands for the illegal-instruction trap. */
  function Set(r: Csrs, a: nat, v: Addr): Option<Csrs> {
    match RowOf(a)
    case None => SetTraps(r, a, v)
    case Some(row) =>
      if Locked(r.mstatus, row.reg) then None
      else Some(r.(words := WithWord(r.words, row.reg, Masked(Word(r.words, row.reg), row.write, v as bv32))))
  }

  function Mixed(op: CsrOp, was: bv32, operand: bv32): bv32 {
    if op in {CSRRS, CSRRSI} then was | operand else was & !operand
  }

  function Combined(op: CsrOp, was: Addr, operand: Addr): Addr {
    if op in {CSRRW, CSRRWI} then operand else Number(Mixed(op, was as bv32, operand as bv32))
  }

  /** A CSR instruction: check, read (a plain write to `x0` skips it), write. */
  function CsrAccess(c: Ctl, op: CsrOp, a: nat, rd: nat, source: nat, operand: Addr): CsrResult<Ctl> {
    var swap := op in {CSRRW, CSRRWI};
    var write := swap || source != 0;
    if InvalidAccess(c.prv, a, write) then CsrIllegal
    else
      var got: Option<CsrRead> := if swap && rd == 0 then Some(CsrRead(c, 0)) else Get(c, a);
      match got
      case None => CsrIllegal
      case Some(read) =>
        var c1, was := read.ctl, read.value;
        if !write then CsrOk(c1, was, rd != 0)
        else match Set(c1.csrs, a, Combined(op, was, operand))
             case None => CsrIllegal
             case Some(r) => CsrOk(c1.(csrs := r), was, rd != 0)
  }
}
