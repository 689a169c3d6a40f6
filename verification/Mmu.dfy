/** Sv32 address translation: the page walk, its A/D updates, and the translation look-aside buffer. */
module Mmu {
  import opened Isa

  const PAGE: nat := 0x1000
  const ENTRIES: nat := 256

  datatype AccessType = FETCH | LOAD | STORE

  /** A page table entry by its fields; `soft` stands for the G and RSW bits. */
  datatype Pte = Pte(v: bool, r: bool, w: bool, x: bool, u: bool, a: bool, d: bool, soft: nat, ppn: nat)

  /** The page table words that the bus can reach, by physical address. */
  type Tables = map<nat, Pte>

  /** What translation reads from satp and mstatus, and the choice on missing A/D bits. */
  datatype Config = Config(bare: bool, root: nat, sum: bool, mxr: bool, faultOnAD: bool)

  /** One translation: the address, the access and the privilege state of the hart. */
  datatype Request = Request(vaddr: Addr, kind: AccessType, prv: nat, mprv: bool, mpp: nat)

  datatype Outcome = Found(paddr: nat, leaf: nat) | Fault(cause: nat, tval: nat) | Direct(addr: nat) | Abort

  function PageFault(t: AccessType): nat {
    match t case FETCH => 12 case LOAD => 13 case STORE => 15
  }

  // ----- section 4.3.2 of the RISC-V Privileged Architecture -----

  function Vpn(va: Addr, level: nat): nat {
    if level == 0 then va / PAGE % 1024 else va / (PAGE * 1024) % 1024
  }

  /** Step 5: the permission bits allow this access at this privilege. */
  predicate Allowed(c: Config, p: Pte, t: AccessType, supervisor: bool) {
    && (match t
        case FETCH => p.x
        case LOAD => p.r || (c.mxr && p.x)
        case STORE => p.r && p.w)
    && (supervisor && p.u ==> t != FETCH && c.sum)
    && (!supervisor ==> p.u)
  }

  /** Step 6: a superpage's low page number must be zero. */
  predicate Aligned(p: Pte, level: nat) {
    level == 0 || p.ppn % 1024 == 0
  }

  /** Step 7: the accessed bit, and for stores the dirty bit, are set. */
  predicate Marked(p: Pte, t: AccessType) {
    p.a && (t == STORE ==> p.d)
  }

  /** Step 8: frame, superpage offset and page offset. */
  function Physical(p: Pte, va: Addr, level: nat): nat {
    if level == 0 then p.ppn * PAGE + va % PAGE
    else (p.ppn / 1024 * 1024 + va / PAGE % 1024) * PAGE + va % PAGE
  }

  function EntryAddr(table: nat, va: Addr, level: nat): nat {
    table + 4 * Vpn(va, level)
  }

  datatype Verdict = Refuse | Descend | Accept

  /** Steps 3 to 7: what an entry found at a level means for the access. */
  function Judge(c: Config, p: Pte, t: AccessType, supervisor: bool, level: nat): Verdict {
    if !p.v || (!p.r && p.w) then Refuse
    else if !p.r && !p.x then Descend
    else if Allowed(c, p, t, supervisor) && Aligned(p, level) && (c.faultOnAD ==> Marked(p, t)) then Accept
    else Refuse
  }

  /** The walk below a table, with `levels` levels left. */
  function WalkFrom(c: Config, mem: Tables, va: Addr, t: AccessType, supervisor: bool, table: nat, levels: nat): Outcome
    decreases levels
  {
    if levels == 0 then Fault(PageFault(t), va)
    else
      var at := EntryAddr(table, va, levels - 1);
      if at !in mem then Fault(EXC_LOAD_PAGE_FAULT, at)
      else
        match Judge(c, mem[at], t, supervisor, levels - 1)
        case Refuse => Fault(PageFault(t), va)
        case Descend => WalkFrom(c, mem, va, t, supervisor, mem[at].ppn * PAGE, levels - 1)
        case Accept => Found(Physical(mem[at], va, levels - 1), at)
  }

  /** The depth of the tables: two for Sv32, the only mode besides bare. */
  function Levels(c: Config): nat {
    if c.bare then 0 else 2
  }

  function Walk(c: Config, mem: Tables, va: Addr, t: AccessType, supervisor: bool): Outcome {
    WalkFrom(c, mem, va, t, supervisor, c.root * PAGE, Levels(c))
  }

  function MarkedPte(p: Pte, t: AccessType): Pte {
    p.(a := true, d := p.d || t == STORE)
  }

  /** The tables after a walk: its leaf is marked. */
  function AfterWalk(c: Config, mem: Tables, o: Outcome, t: AccessType): Tables {
    if o.Found? && o.leaf in mem then mem[o.leaf := MarkedPte(mem[o.leaf], t)] else mem
  }

  // ----- the buffer -----

  datatype Entry = Entry(ppn: nat, vpn: nat)

  const INVALID: nat := 0xFFFF_FFFF_FFFF_FFFF

  const FLUSHED: seq<Entry> := seq(2 * 3 * ENTRIES, _ => Entry(INVALID, INVALID))

  function KindIndex(t: AccessType): nat {
    match t case FETCH => 0 case LOAD => 1 case STORE => 2
  }

  /** The position of an entry: user or supervisor, access type, low bits of the page number. */
  function Slot(supervisor: bool, t: AccessType, vpn: nat): (i: nat)
    ensures i < 2 * 3 * ENTRIES
  {
    ((if supervisor then 1 else 0) * 3 + KindIndex(t)) * ENTRIES + vpn % ENTRIES
  }

  /** `paddr & ~PGMASK`: the mask is 32 bits wide. */
  function CachedFrame(paddr: nat): nat {
    paddr % WORDS / PAGE * PAGE
  }

  datatype Vm = Vm(tlb: seq<Entry>, mem: Tables)

  /** The privilege level that counts for an access. */
  function Effective(q: Request): nat {
    if q.kind != FETCH && q.mprv then q.mpp else q.prv
  }

  predicate Translates(c: Config, q: Request) {
    !c.bare && Effective(q) < 2
  }

  predicate Cached(s: Vm, q: Request) {
    var v := q.vaddr / PAGE;
    |s.tlb| == 2 * 3 * ENTRIES && s.tlb[Slot(Effective(q) == 1, q.kind, v)].vpn == v
  }

  /** A translation that does not use the buffer. */
  function Fresh(c: Config, mem: Tables, q: Request): Outcome {
    if c.bare then Direct(q.vaddr)
    else if Effective(q) == 3 then Direct(q.vaddr)
    else if Effective(q) >= 2 then Abort
    else Walk(c, mem, q.vaddr, q.kind, Effective(q) == 1)
  }

  datatype Answer = Answer(addr: Option<nat>, fault: Option<(nat, nat)>)

  /** What the caller sees of an outcome: an address or a fault. */
  function Seen(o: Outcome): Answer {
    match o
    case Found(a, _) => Answer(Some(a), None)
    case Direct(a) => Answer(Some(a), None)
    case Fault(cause, tval) => Answer(None, Some((cause, tval)))
    case Abort => Answer(None, None)
  }

  function FromBuffer(s: Vm, q: Request): nat
    requires Cached(s, q)
  {
    s.tlb[Slot(Effective(q) == 1, q.kind, q.vaddr / PAGE)].ppn + q.vaddr % PAGE
  }

  /** `translate_virtual_to_physical_addr`. */
  function Translated(c: Config, s: Vm, q: Request): Answer {
    if Translates(c, q) && Cached(s, q) then Answer(Some(FromBuffer(s, q)), None) else Seen(Fresh(c, s.mem, q))
  }

  function After(c: Config, s: Vm, q: Request): Vm {
    if !Translates(c, q) || Cached(s, q) || |s.tlb| != 2 * 3 * ENTRIES then s
    else
      var o := Walk(c, s.mem, q.vaddr, q.kind, Effective(q) == 1);
      var v := q.vaddr / PAGE;
      if !o.Found? then s
      else Vm(s.tlb[Slot(Effective(q) == 1, q.kind, v) := Entry(CachedFrame(o.paddr), v)],
                 AfterWalk(c, s.mem, o, q.kind))
  }

  // ----- the unit, updated in place -----

  class Unit {
    const tlb: array<Entry>
    var mem: Tables
    var config: Config

    ghost predicate Valid()
      reads this, tlb
    {
      tlb.Length == 2 * 3 * ENTRIES
    }

    function Now(): Vm
      reads this, tlb
    {
      Vm(tlb[..], mem)
    }

    constructor (c: Config, m: Tables)
      ensures Valid() && fresh(tlb) && config == c && Now() == Vm(FLUSHED, m)
    {
      config, mem := c, m;
      tlb := new Entry[2 * 3 * ENTRIES](_ => Entry(INVALID, INVALID));
      new;
      assert tlb[..] == FLUSHED;
    }

    method FlushTlb()
      requires Valid()
      modifies tlb
      ensures Valid() && Now() == Vm(FLUSHED, mem)
    {
      var i := 0;
      while i < tlb.Length
        invariant i <= tlb.Length
        invariant forall k :: 0 <= k < i ==> tlb[k] == Entry(INVALID, INVALID)
      {
        tlb[i] := Entry(INVALID, INVALID);
        i := i + 1;
      }
      assert tlb[..] == FLUSHED;
    }

    /** The permission tests of the walk, in the code's order. */
    method Denies(p: Pte, t: AccessType, supervisor: bool) returns (denied: bool)
      ensures denied == !Allowed(config, p, t, supervisor)
    {
      if t == FETCH && !p.x {
        return true;
      }
      if t == LOAD && !p.r && !(config.mxr && p.x) {
        return true;
      }
      if t == STORE && !(p.r && p.w) {
        return true;
      }
      if p.u {
        return supervisor && (t == FETCH || !config.sum);
      }
      return !supervisor;
    }

    /** The stores of A/D bits: the entry is rewritten unless the bits are already there. */
    method Mark(at: nat, p: Pte, t: AccessType) returns (done: bool)
      requires at in mem && mem[at] == p
      modifies this`mem
      ensures done == (config.faultOnAD ==> Marked(p, t))
      ensures mem == if done then old(mem)[at := MarkedPte(p, t)] else old(mem)
    {
      if !(p.a && (t != STORE || p.d)) {
        if config.faultOnAD {
          return false;
        }
        mem := mem[at := p.(a := true, d := p.d || t == STORE)];
      } else {
        assert MarkedPte(p, t) == p;
      }
      return true;
    }

    /** The leaf's tests and the stores of its A/D bits, in the code's order. */
    method TakeLeaf(at: nat, p: Pte, t: AccessType, supervisor: bool, level: nat) returns (taken: bool)
      requires at in mem && mem[at] == p
      requires p.v && !(!p.r && p.w) && (p.r || p.x)
      modifies this`mem
      ensures taken == (Judge(config, p, t, supervisor, level) == Accept)
      ensures mem == if taken then old(mem)[at := MarkedPte(p, t)] else old(mem)
    {
      var denied := Denies(p, t, supervisor);
      if denied || (level > 0 && p.ppn % 1024 != 0) {
        return false;
      }
      taken := Mark(at, p, t);
    }

    /** The walk as the code runs it: one loop over the levels, leaving it for a page fault. */
    method WalkTables(va: Addr, t: AccessType, supervisor: bool) returns (o: Outcome)
      requires Valid()
      modifies this`mem
      ensures o == Walk(config, old(mem), va, t, supervisor)
      ensures mem == AfterWalk(config, old(mem), o, t)
    {
      var base: nat := config.root * PAGE;
      var i := Levels(config);
      ghost var tables := mem;
      ghost var spec := Walk(config, tables, va, t, supervisor);
      while i > 0
        invariant 0 <= i <= 2 && mem == tables
        invariant WalkFrom(config, tables, va, t, supervisor, base, i) == spec
      {
        var at := base + 4 * Vpn(va, i - 1);
        if at !in mem {
          return Fault(EXC_LOAD_PAGE_FAULT, at);
        }
        var p := mem[at];
        if !p.v || (!p.r && p.w) {
          break;
        }
        if !p.r && !p.x {
          base := p.ppn * PAGE;
          i := i - 1;
          continue;
        }
        var taken := TakeLeaf(at, p, t, supervisor, i - 1);
        if !taken {
          break;
        }
        return Found(Physical(p, va, i - 1), at);
      }
      return Fault(PageFault(t), va);
    }

    method Translate(q: Request) returns (r: Answer)
      requires Valid()
      modifies this`mem, tlb
      ensures Valid() && config == old(config)
      ensures r == Translated(config, old(Now()), q)
      ensures Now() == After(config, old(Now()), q)
    {
      if config.bare {
        return Answer(Some(q.vaddr), None);
      }
      var mode := q.prv;
      if q.kind != FETCH && q.mprv {
        mode := q.mpp;
      }
      if mode == 3 {
        return Answer(Some(q.vaddr), None);
      }
      if mode >= 2 {
        return Answer(None, None);
      }
      var vpn := q.vaddr / PAGE;
      var at := Slot(mode == 1, q.kind, vpn);
      if tlb[at].vpn == vpn {
        return Answer(Some(tlb[at].ppn + q.vaddr % PAGE), None);
      }
      var o := WalkTables(q.vaddr, q.kind, mode == 1);
      if o.Found? {
        tlb[at] := Entry(CachedFrame(o.paddr), vpn);
      }
      r := Seen(o);
    }
  }
}
