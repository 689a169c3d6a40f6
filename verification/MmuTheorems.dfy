/** The buffer agrees with the walk it shortcuts, although the walk marks the tables it reads. */
module MmuTheorems {
  import opened Isa
  import opened Mmu
  import opened Bits

  // ----- the walk against section 4.3.2, written out for two levels in plain arithmetic -----

  /** Bytes mapped by a leaf of the root table. */
  const SUPERPAGE: nat := 0x40_0000

  /** The permission bits of a leaf, as section 4.3.1 and the SUM and MXR bits of section 3.1.6.3 give them. */
  predicate Permitted(c: Config, p: Pte, t: AccessType, supervisor: bool) {
    && (t.FETCH? ==> p.x) && (t.STORE? ==> p.r && p.w) && (t.LOAD? && !p.r ==> p.x && c.mxr)
    && (if !supervisor then p.u else if p.u then c.sum && !t.FETCH? else true)
  }

  /** A leaf that maps `size` bytes. */
  function Leaf(c: Config, p: Pte, at: nat, va: Addr, t: AccessType, supervisor: bool, size: nat): Outcome
    requires size > 0
  {
    if Permitted(c, p, t, supervisor) && p.ppn * 0x1000 % size == 0 && (c.faultOnAD ==> p.a && (t.STORE? ==> p.d))
    then Found(p.ppn * 0x1000 + va % size, at)
    else Fault(if t.FETCH? then 12 else if t.LOAD? then 13 else 15, va)
  }

  function Sv32(c: Config, mem: Tables, va: Addr, t: AccessType, supervisor: bool): Outcome {
    var fault := Fault(if t.FETCH? then 12 else if t.LOAD? then 13 else 15, va);
    var first := c.root * 0x1000 + 4 * (va / SUPERPAGE);
    if first !in mem then Fault(13, first)
    else if !mem[first].v || (mem[first].w && !mem[first].r) then fault
    else if mem[first].r || mem[first].x then Leaf(c, mem[first], first, va, t, supervisor, SUPERPAGE)
    else
      var second := mem[first].ppn * 0x1000 + 4 * (va / 0x1000 % 1024);
      if second !in mem then Fault(13, second)
      else if !mem[second].v || (mem[second].w && !mem[second].r) then fault
      else if mem[second].r || mem[second].x then Leaf(c, mem[second], second, va, t, supervisor, 0x1000)
      else fault
  }

  /** The two indices and the page offset make up the address. */
  lemma VpnSplits(va: Addr)
    ensures va == SUPERPAGE * Vpn(va, 1) + 0x1000 * Vpn(va, 0) + va % 0x1000
    ensures Vpn(va, 0) < 1024 && Vpn(va, 1) == va / SUPERPAGE < 1024
  {
    var page, offset := va / 0x1000, va % 0x1000;
    var q, r := page / 1024, page % 1024;
    assert page == 1024 * q + r;
    DivModUnique(va, SUPERPAGE, q, 0x1000 * r + offset);
  }

  lemma AllowedIs(c: Config, p: Pte, t: AccessType, supervisor: bool)
    ensures Allowed(c, p, t, supervisor) == Permitted(c, p, t, supervisor)
  {
  }

  lemma SuperpageFrame(ppn: nat)
    ensures ppn * 0x1000 % SUPERPAGE == 0x1000 * (ppn % 1024)
  {
    var q, r := ppn / 1024, ppn % 1024;
    assert ppn == 1024 * q + r;
    DivModUnique(ppn * 0x1000, SUPERPAGE, q, 0x1000 * r);
  }

  lemma SuperpageOffset(va: Addr)
    ensures va % SUPERPAGE == va / 0x1000 % 1024 * 0x1000 + va % 0x1000
  {
    VpnSplits(va);
    DivModUnique(va, SUPERPAGE, Vpn(va, 1), 0x1000 * Vpn(va, 0) + va % 0x1000);
  }

  /** A superpage's frame is a multiple of 4 MiB, and the offset in it is added. */
  lemma PhysicalIs(p: Pte, va: Addr, level: nat)
    requires level < 2
    ensures var size := if level == 0 then 0x1000 else SUPERPAGE;
            && (Aligned(p, level) <==> p.ppn * 0x1000 % size == 0)
            && (Aligned(p, level) ==> Physical(p, va, level) == p.ppn * 0x1000 + va % size)
  {
    if level == 1 {
      SuperpageFrame(p.ppn);
      SuperpageOffset(va);
    }
  }

  lemma JudgeIs(c: Config, p: Pte, at: nat, va: Addr, t: AccessType, b: bool, level: nat)
    requires level < 2 && p.v && (p.r || p.x) && !(p.w && !p.r)
    ensures Leaf(c, p, at, va, t, b, if level == 0 then 0x1000 else SUPERPAGE) ==
            if Judge(c, p, t, b, level) == Accept then Found(Physical(p, va, level), at) else Fault(PageFault(t), va)
    ensures Judge(c, p, t, b, level) != Descend
  {
    AllowedIs(c, p, t, b);
    PhysicalIs(p, va, level);
  }

  lemma SecondLevel(c: Config, mem: Tables, va: Addr, t: AccessType, b: bool, table: nat)
    ensures var at := table + 4 * (va / 0x1000 % 1024);
            WalkFrom(c, mem, va, t, b, table, 1) ==
              if at !in mem then Fault(13, at)
              else if !mem[at].v || (mem[at].w && !mem[at].r) || !(mem[at].r || mem[at].x) then Fault(PageFault(t), va)
              else Leaf(c, mem[at], at, va, t, b, 0x1000)
  {
    var at := table + 4 * (va / 0x1000 % 1024);
    if at in mem && mem[at].v && !(mem[at].w && !mem[at].r) && (mem[at].r || mem[at].x) {
      JudgeIs(c, mem[at], at, va, t, b, 0);
    }
  }

  /** The recursive walk is the two-level algorithm. */
  lemma WalkIsSv32(c: Config, mem: Tables, va: Addr, t: AccessType, b: bool)
    requires !c.bare
    ensures Walk(c, mem, va, t, b) == Sv32(c, mem, va, t, b)
  {
    VpnSplits(va);
    var at := c.root * PAGE + 4 * (va / SUPERPAGE);
    if at in mem && mem[at].v && !(mem[at].w && !mem[at].r) {
      if mem[at].r || mem[at].x {
        JudgeIs(c, mem[at], at, va, t, b, 1);
      } else {
        SecondLevel(c, mem, va, t, b, mem[at].ppn * PAGE);
      }
    }
  }

  /** The bytes mapped by the leaf the walk finds: a superpage if the root entry is a leaf. */
  function Region(c: Config, mem: Tables, va: Addr): (size: nat)
    ensures size in {0x1000, SUPERPAGE}
  {
    var first := c.root * 0x1000 + 4 * (va / SUPERPAGE);
    if first in mem && (mem[first].r || mem[first].x) then SUPERPAGE else 0x1000
  }

  /** An address in a mapped region is translated to the region's frame plus its offset in the region. */
  lemma FoundIs(c: Config, mem: Tables, va: Addr, t: AccessType, b: bool)
    requires Walk(c, mem, va, t, b).Found? && !c.bare
    ensures var o := Walk(c, mem, va, t, b);
            && o.leaf in mem && o.paddr == mem[o.leaf].ppn * 0x1000 + va % Region(c, mem, va)
            && mem[o.leaf].v && Permitted(c, mem[o.leaf], t, b)
  {
    WalkIsSv32(c, mem, va, t, b);
  }

  lemma RegionShared(c: Config, mem: Tables, va: Addr, va2: Addr)
    requires va / Region(c, mem, va) == va2 / Region(c, mem, va)
    ensures va / SUPERPAGE == va2 / SUPERPAGE && Region(c, mem, va2) == Region(c, mem, va)
    ensures Region(c, mem, va) == 0x1000 ==> va / 0x1000 == va2 / 0x1000
    ensures va2 % Region(c, mem, va) - va % Region(c, mem, va) == va2 - va
  {
    assert va / SUPERPAGE == va / 0x1000 / 1024 && va2 / SUPERPAGE == va2 / 0x1000 / 1024;
  }

  /** Addresses under one leaf keep their distance, over the whole page or superpage. */
  lemma DistanceKept(c: Config, mem: Tables, va: Addr, va2: Addr, t: AccessType, b: bool)
    requires !c.bare && Walk(c, mem, va, t, b).Found? && va / Region(c, mem, va) == va2 / Region(c, mem, va)
    ensures var o, o2 := Walk(c, mem, va, t, b), Walk(c, mem, va2, t, b);
            o2.Found? && o2.leaf == o.leaf && o2.paddr - o.paddr == va2 - va
  {
    RegionShared(c, mem, va, va2);
    WalkIsSv32(c, mem, va, t, b);
    WalkIsSv32(c, mem, va2, t, b);
  }

  // ----- A/D updates are invisible to translation -----

  /** The tables differ at most in accessed and dirty bits. */
  ghost predicate SameButMarks(m1: Tables, m2: Tables) {
    m1.Keys == m2.Keys && forall x :: x in m1 ==> m2[x] == m1[x].(a := m2[x].a, d := m2[x].d)
  }

  lemma JudgeIgnoresMarks(c: Config, p: Pte, a: bool, d: bool, t: AccessType, supervisor: bool, level: nat)
    requires !c.faultOnAD
    ensures Judge(c, p.(a := a, d := d), t, supervisor, level) == Judge(c, p, t, supervisor, level)
  {
  }

  lemma {:induction false} WalkIgnoresMarks(
    c: Config, m1: Tables, m2: Tables, va: Addr, t: AccessType, supervisor: bool, table: nat, levels: nat)
    requires !c.faultOnAD && SameButMarks(m1, m2)
    ensures WalkFrom(c, m1, va, t, supervisor, table, levels) == WalkFrom(c, m2, va, t, supervisor, table, levels)
    decreases levels
  {
    if levels > 0 {
      var at := EntryAddr(table, va, levels - 1);
      if at in m1 {
        JudgeIgnoresMarks(c, m1[at], m2[at].a, m2[at].d, t, supervisor, levels - 1);
        WalkIgnoresMarks(c, m1, m2, va, t, supervisor, m1[at].ppn * PAGE, levels - 1);
      }
    }
  }

  lemma {:induction false} LeafIsThere(
    c: Config, mem: Tables, va: Addr, t: AccessType, supervisor: bool, table: nat, levels: nat)
    ensures var o := WalkFrom(c, mem, va, t, supervisor, table, levels);
            o.Found? ==> o.leaf in mem && (c.faultOnAD ==> Marked(mem[o.leaf], t))
    decreases levels
  {
    if levels > 0 {
      var at := EntryAddr(table, va, levels - 1);
      if at in mem {
        LeafIsThere(c, mem, va, t, supervisor, mem[at].ppn * PAGE, levels - 1);
      }
    }
  }

  lemma MarkingIsMarks(c: Config, mem: Tables, o: Outcome, t: AccessType)
    requires o.Found? ==> o.leaf in mem && (c.faultOnAD ==> Marked(mem[o.leaf], t))
    ensures SameButMarks(mem, AfterWalk(c, mem, o, t))
    ensures c.faultOnAD ==> AfterWalk(c, mem, o, t) == mem
  {
    if o.Found? && c.faultOnAD {
      assert MarkedPte(mem[o.leaf], t) == mem[o.leaf];
    }
  }

  /** What one walk stores changes no other walk, for any address, access type and mode. */
  lemma MarksInvisible(c: Config, mem: Tables, va: Addr, t: AccessType, b: bool, va2: Addr, t2: AccessType, b2: bool)
    ensures var after := AfterWalk(c, mem, Walk(c, mem, va, t, b), t);
            SameButMarks(mem, after) && Walk(c, after, va2, t2, b2) == Walk(c, mem, va2, t2, b2)
  {
    LeafIsThere(c, mem, va, t, b, c.root * PAGE, Levels(c));
    MarkingIsMarks(c, mem, Walk(c, mem, va, t, b), t);
    if !c.faultOnAD {
      WalkIgnoresMarks(c, mem, AfterWalk(c, mem, Walk(c, mem, va, t, b), t), va2, t2, b2, c.root * PAGE, Levels(c));
    }
  }

  // ----- a page is translated as a whole -----

  lemma SamePage(va: Addr, level: nat)
    ensures var v := va / PAGE * PAGE;
            v < WORDS && Vpn(va, level) == Vpn(v, level) && v / PAGE == va / PAGE && v % PAGE == 0
  {
    var v := va / PAGE * PAGE;
    assert va / (PAGE * 1024) == va / PAGE / 1024;
    assert v / (PAGE * 1024) == v / PAGE / 1024;
  }

  lemma PhysicalShifts(p: Pte, va: Addr, level: nat)
    ensures var v := va / PAGE * PAGE;
            v < WORDS && Physical(p, va, level) == Physical(p, v, level) + va % PAGE && Physical(p, v, level) % PAGE == 0
  {
    SamePage(va, level);
  }

  predicate Shifted(o: Outcome, o0: Outcome, off: nat) {
    && (o.Found? <==> o0.Found?)
    && (o.Found? ==> o.leaf == o0.leaf && o.paddr == o0.paddr + off && o0.paddr % PAGE == 0)
  }

  lemma {:induction false} PageUniform(c: Config, mem: Tables, va: Addr, t: AccessType, b: bool, table: nat, levels: nat)
    ensures var v := va / PAGE * PAGE;
            v < WORDS &&
            Shifted(WalkFrom(c, mem, va, t, b, table, levels), WalkFrom(c, mem, v, t, b, table, levels), va % PAGE)
    decreases levels
  {
    SamePage(va, 0);
    if levels > 0 {
      SamePage(va, levels - 1);
      var at := EntryAddr(table, va, levels - 1);
      if at in mem {
        PhysicalShifts(mem[at], va, levels - 1);
        PageUniform(c, mem, va, t, b, mem[at].ppn * PAGE, levels - 1);
      }
    }
  }

  // ----- the buffer's invariant -----

  type PageNumber = v: nat | v < 0x10_0000

  /** The frame cached for a page is the walk's, cut to 32 bits, and its leaf is marked. */
  predicate Good(c: Config, mem: Tables, b: bool, t: AccessType, v: PageNumber, frame: nat) {
    var o := Walk(c, mem, v * PAGE, t, b);
    o.Found? && frame == CachedFrame(o.paddr) && o.leaf in mem && Marked(mem[o.leaf], t)
  }

  ghost predicate Coherent(c: Config, s: Vm) {
    && |s.tlb| == 2 * 3 * ENTRIES
    && forall b, t, v: PageNumber :: s.tlb[Slot(b, t, v)].vpn == v ==> Good(c, s.mem, b, t, v, s.tlb[Slot(b, t, v)].ppn)
  }

  lemma FlushedCoherent(c: Config, mem: Tables)
    ensures Coherent(c, Vm(FLUSHED, mem))
  {
  }

  lemma SlotInjective(b1: bool, t1: AccessType, b2: bool, t2: AccessType, v: nat)
    requires Slot(b1, t1, v) == Slot(b2, t2, v)
    ensures b1 == b2 && t1 == t2
  {
  }

  lemma MarksStay(c: Config, mem: Tables, va: Addr, t: AccessType, b: bool, x: nat, t2: AccessType)
    requires x in mem && Marked(mem[x], t2)
    ensures var after := AfterWalk(c, mem, Walk(c, mem, va, t, b), t); x in after && Marked(after[x], t2)
  {
  }

  lemma GoodStays(c: Config, mem: Tables, va: Addr, t: AccessType, b: bool, b2: bool, t2: AccessType, v: PageNumber,
                  frame: nat)
    requires Good(c, mem, b2, t2, v, frame)
    ensures Good(c, AfterWalk(c, mem, Walk(c, mem, va, t, b), t), b2, t2, v, frame)
  {
    MarksInvisible(c, mem, va, t, b, v * PAGE, t2, b2);
    MarksStay(c, mem, va, t, b, Walk(c, mem, v * PAGE, t2, b2).leaf, t2);
  }

  lemma FrameSplit(p: nat, q: nat, r: nat, off: nat)
    requires p == WORDS * q + (PAGE * r + off) && r < 0x10_0000 && off < PAGE
    ensures p % WORDS == PAGE * r + off && CachedFrame(p) == PAGE * r
  {
    assert (PAGE * r + off) / PAGE == r;
  }

  lemma FrameOfPage(p: nat, off: nat)
    requires p % PAGE == 0 && off < PAGE
    ensures CachedFrame(p + off) == CachedFrame(p) && CachedFrame(p) + off == (p + off) % WORDS
  {
    var k := p / PAGE;
    var q, r := k / 0x10_0000, k % 0x10_0000;
    FrameSplit(p, q, r, 0);
    FrameSplit(p + off, q, r, off);
  }

  /** Filling an entry makes it good. */
  lemma FilledGood(c: Config, mem: Tables, va: Addr, t: AccessType, b: bool)
    requires Walk(c, mem, va, t, b).Found?
    ensures Good(c, AfterWalk(c, mem, Walk(c, mem, va, t, b), t), b, t, va / PAGE, CachedFrame(Walk(c, mem, va, t, b).paddr))
  {
    var o, v := Walk(c, mem, va, t, b), va / PAGE * PAGE;
    PageUniform(c, mem, va, t, b, c.root * PAGE, Levels(c));
    LeafIsThere(c, mem, va, t, b, c.root * PAGE, Levels(c));
    FrameOfPage(Walk(c, mem, v, t, b).paddr, va % PAGE);
    MarksInvisible(c, mem, va, t, b, v, t, b);
  }

  /** Every translation keeps the buffer coherent. */
  lemma CoherentAfter(c: Config, s: Vm, q: Request)
    requires Coherent(c, s)
    ensures Coherent(c, After(c, s, q))
  {
    var b, t, n := Effective(q) == 1, q.kind, q.vaddr / PAGE;
    var o := Walk(c, s.mem, q.vaddr, t, b);
    if Translates(c, q) && !Cached(s, q) && o.Found? {
      var r := After(c, s, q);
      forall b2, t2, v: PageNumber | r.tlb[Slot(b2, t2, v)].vpn == v
        ensures Good(c, r.mem, b2, t2, v, r.tlb[Slot(b2, t2, v)].ppn)
      {
        if Slot(b2, t2, v) == Slot(b, t, n) {
          SlotInjective(b, t, b2, t2, v);
          FilledGood(c, s.mem, q.vaddr, t, b);
        } else {
          GoodStays(c, s.mem, q.vaddr, t, b, b2, t2, v, s.tlb[Slot(b2, t2, v)].ppn);
        }
      }
    }
  }

  // ----- the main theorems -----

  lemma CutShift(o: Outcome, o0: Outcome, off: nat, frame: nat)
    requires Shifted(o, o0, off) && o0.Found? && frame == CachedFrame(o0.paddr) && off < PAGE
    ensures o.Found? && frame + off == o.paddr % WORDS
  {
    FrameOfPage(o0.paddr, off);
  }

  lemma GoodIsWalk(c: Config, mem: Tables, va: Addr, t: AccessType, b: bool, frame: nat)
    requires Good(c, mem, b, t, va / PAGE, frame)
    ensures var o := Walk(c, mem, va, t, b); o.Found? && frame + va % PAGE == o.paddr % WORDS
  {
    PageUniform(c, mem, va, t, b, c.root * PAGE, Levels(c));
    CutShift(Walk(c, mem, va, t, b), Walk(c, mem, va / PAGE * PAGE, t, b), va % PAGE, frame);
  }

  /** On a hit the fresh walk succeeds too, and the answer is its address cut to 32 bits. */
  lemma HitIsWalk(c: Config, s: Vm, q: Request)
    requires Coherent(c, s) && Translates(c, q) && Cached(s, q)
    ensures Fresh(c, s.mem, q).Found? && Translated(c, s, q) == Answer(Some(Fresh(c, s.mem, q).paddr % WORDS), None)
  {
    var b, t, v := Effective(q) == 1, q.kind, q.vaddr / PAGE;
    assert Good(c, s.mem, b, t, v, s.tlb[Slot(b, t, v)].ppn);
    GoodIsWalk(c, s.mem, q.vaddr, t, b, s.tlb[Slot(b, t, v)].ppn);
  }

  lemma CutExact(o: Outcome, a: Answer)
    requires o.Found? && a == Answer(Some(o.paddr % WORDS), None)
    ensures a == Seen(o) <==> o.paddr < WORDS
  {
  }

  lemma MissIsFresh(c: Config, s: Vm, q: Request)
    requires !(Translates(c, q) && Cached(s, q))
    ensures Translated(c, s, q) == Seen(Fresh(c, s.mem, q))
  {
  }

  /** The cached translation equals a fresh walk exactly when no hit has a physical address of 2^32 or more. */
  lemma CacheExact(c: Config, s: Vm, q: Request)
    requires Coherent(c, s)
    ensures Translated(c, s, q) == Seen(Fresh(c, s.mem, q)) <==>
            !(Translates(c, q) && Cached(s, q) && Fresh(c, s.mem, q).Found? && Fresh(c, s.mem, q).paddr >= WORDS)
  {
    if Translates(c, q) && Cached(s, q) {
      HitIsWalk(c, s, q);
      CutExact(Fresh(c, s.mem, q), Translated(c, s, q));
    } else {
      MissIsFresh(c, s, q);
    }
  }

  function AfterAll(c: Config, s: Vm, qs: seq<Request>): Vm
    decreases |qs|
  {
    if qs == [] then s else After(c, AfterAll(c, s, qs[..|qs| - 1]), qs[|qs| - 1])
  }

  lemma FreshUnchanged(c: Config, s: Vm, q: Request, next: Request)
    ensures Fresh(c, After(c, s, q).mem, next) == Fresh(c, s.mem, next)
  {
    MarksInvisible(c, s.mem, q.vaddr, q.kind, Effective(q) == 1, next.vaddr, next.kind, Effective(next) == 1);
  }

  lemma {:induction false} SequenceKeeps(c: Config, mem: Tables, qs: seq<Request>, next: Request)
    ensures var s := AfterAll(c, Vm(FLUSHED, mem), qs);
            Coherent(c, s) && Fresh(c, s.mem, next) == Fresh(c, mem, next)
    decreases |qs|
  {
    if qs == [] {
      FlushedCoherent(c, mem);
    } else {
      var before, q := qs[..|qs| - 1], qs[|qs| - 1];
      var s := AfterAll(c, Vm(FLUSHED, mem), before);
      SequenceKeeps(c, mem, before, next);
      CoherentAfter(c, s, q);
      FreshUnchanged(c, s, q, next);
    }
  }

  /**
    After any sequence of translations since a flush, the next one equals a fresh walk over the
    original tables, exactly unless it is a hit on a physical address of 2^32 or more.
   */
  lemma {:induction false} BufferRefinesWalk(c: Config, mem: Tables, qs: seq<Request>, q: Request)
    ensures var s, o := AfterAll(c, Vm(FLUSHED, mem), qs), Fresh(c, mem, q);
            Translated(c, s, q) == Seen(o) <==> !(Translates(c, q) && Cached(s, q) && o.Found? && o.paddr >= WORDS)
  {
    SequenceKeeps(c, mem, qs, q);
    CacheExact(c, AfterAll(c, Vm(FLUSHED, mem), qs), q);
  }

  lemma FilledIsCached(c: Config, s: Vm, q: Request)
    requires Translates(c, q) && |s.tlb| == 2 * 3 * ENTRIES && Fresh(c, s.mem, q).Found?
    ensures Cached(After(c, s, q), q)
  {
  }

  /** Translating an address twice shows the truncation, whenever its physical address needs more than 32 bits. */
  lemma SecondTranslationDiffers(c: Config, mem: Tables, q: Request)
    requires Translates(c, q) && Fresh(c, mem, q).Found? && Fresh(c, mem, q).paddr >= WORDS
    ensures Translated(c, Vm(FLUSHED, mem), q) == Seen(Fresh(c, mem, q))
    ensures Translated(c, After(c, Vm(FLUSHED, mem), q), q) != Seen(Fresh(c, mem, q))
  {
    var s := Vm(FLUSHED, mem);
    FlushedCoherent(c, mem);
    CacheExact(c, s, q);
    FilledIsCached(c, s, q);
    CoherentAfter(c, s, q);
    FreshUnchanged(c, s, q, q);
    CacheExact(c, After(c, s, q), q);
  }

  lemma LeafFound(c: Config, mem: Tables, va: Addr, t: AccessType, b: bool, table: nat, levels: nat)
    requires levels > 0 && EntryAddr(table, va, levels - 1) in mem
    requires Judge(c, mem[EntryAddr(table, va, levels - 1)], t, b, levels - 1) == Accept
    ensures var at := EntryAddr(table, va, levels - 1);
            WalkFrom(c, mem, va, t, b, table, levels) == Found(Physical(mem[at], va, levels - 1), at)
  {
  }

  const HIGH: Pte := Pte(true, true, false, false, false, false, false, 0, 0x10_0000)

  lemma HighFrame()
    ensures Physical(HIGH, 0, 1) == WORDS && Aligned(HIGH, 1) && Vpn(0, 1) == 0
  {
  }

  /** Such addresses exist: a superpage at physical address 2^32. */
  lemma HighSuperpage(c: Config, q: Request)
    requires !c.bare && c.root == 0 && !c.faultOnAD && q.vaddr == 0 && q.kind == LOAD && q.prv == 1 && !q.mprv
    ensures Translates(c, q) && Fresh(c, map[0 := HIGH], q) == Found(WORDS, 0)
  {
    HighFrame();
    LeafFound(c, map[0 := HIGH], 0, LOAD, true, 0, 2);
  }
}
