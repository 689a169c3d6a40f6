/** The hart of the platform: decoder, CSR file and trap logic plugged into the simulator. */
module Platform {
  import opened Isa
  import opened Decode
  import opened Compressed
  import opened Csr
  import T = Trap
  import TT = TrapTheorems
  import S = ConcolicIss
  import R = Reachable
  import opened Bits
  import opened Concolic
  import opened ConcolicOps
  import opened PathTheorems

  function Field5(x: bv32): (n: nat)
    ensures n < 32
  {
    (x & 0x1F) as bv5 as nat
  }

  /** An even offset, read as twice its upper 31 bits. */
  function EvenValue(x: bv32): (n: Addr)
    ensures n % 2 == 0
  {
    2 * ((x >> 1) as bv31 as nat)
  }

  function Value32(x: bv32): Addr {
    x as nat
  }

  /** The immediate of an instruction, by the format of its opcode. */
  function Immediate(op: Opcode, w: bv32): (n: Addr)
    ensures op.Branch? || op.JAL? ==> n % 2 == 0
  {
    match op
    case LUI => Value32(Uimm(w))
    case AUIPC => Value32(Uimm(w))
    case JAL => EvenValue(Jimm(w))
    case Branch(_) => EvenValue(Bimm(w))
    case Store(_) => Value32(Simm(w))
    case OpImm(a) => if a in {SLL, SRL, SRA} then Value32(Shamt(w)) else Value32(Iimm(w))
    case _ => Value32(Iimm(w))
  }

  function InstrOf(op: Opcode, w: bv32, size: nat): Instr
    requires size in {2, 4}
  {
    Fields.Instr(op, Field5(Rd(w)), Field5(Rs1(w)), Field5(Rs2(w)), Immediate(op, w), (w >> 20) as nat,
                 Field5(Rs1(w)), size, w as nat)
  }

  function DecodeExpanded(e: Expansion): Instr {
    InstrOf(e.op, e.word, 2)
  }

  /** Compressed words are expanded first. */
  function InstrAt(w: bv32): Instr {
    if w & 3 != 3 then DecodeExpanded(Expand(w, DecodeC(w))) else InstrOf(DecodeNormal(w), w, 4)
  }

  function DecodeFetched(word: nat): Instr {
    InstrAt((word % WORDS) as bv32)
  }

  /** The counters at the end of a step. */
  function Retired(r: Redirect<Ctl>): Redirect<Ctl> {
    var c := r.ctl;
    if c.csrs.words.inhibit & 4 != 0 then r
    else r.(ctl := c.(csrs := c.csrs.(instret := (c.csrs.instret + 1) % 0x1_0000_0000_0000_0000)))
  }

  function CsrInstr(c: Ctl, i: Instr, operand: nat): CsrResult<Ctl> {
    if !i.op.Csr? then CsrIllegal
    else CsrAccess(c, i.op.csr, i.csr, i.rd, if i.op.csr in {CSRRS, CSRRC} then i.rs1 else i.zimm, operand % WORDS)
  }

  function EcallCause(c: Ctl): nat {
    if c.prv == MACHINE then 11 else if c.prv == SUPERVISOR then 9 else 8
  }

  function WfiIllegal(c: Ctl): bool {
    (c.prv == SUPERVISOR && c.csrs.mstatus.rest & TW != 0) || c.prv == USER
  }

  function Hart(port: Port): Sys<Ctl> {
    Sys(port, DecodeFetched,
        (c, pc, cause, tval) => Retired(T.Trapped(c, pc, cause, tval)),
        (c, pc) => Retired(T.Interrupted(c, pc)),
        CsrInstr, EcallCause, c => T.Returned(c, T.M), WfiIllegal)
  }

  // ----- every reachable state -----

  lemma GetKeeps(c: Ctl, a: nat)
    requires T.Sound(c) && Get(c, a).Some?
    ensures T.Sound(Get(c, a).value.ctl)
  {
  }

  lemma CsrKeeps(c: Ctl, i: Instr, v: nat)
    requires T.Sound(c) && CsrInstr(c, i, v).CsrOk?
    ensures T.Sound(CsrInstr(c, i, v).ctl)
  {
    var op, a, operand := i.op.csr, i.csr, v % WORDS;
    var swap := op in {CSRRW, CSRRWI};
    if !(swap && i.rd == 0) {
      GetKeeps(c, a);
    }
    var c1 := if swap && i.rd == 0 then c else Get(c, a).value.ctl;
    var was := if swap && i.rd == 0 then 0 else Get(c, a).value.value;
    var b := Combined(op, was, operand);
    if Set(c1.csrs, a, b).Some? {
      TT.SetSound(c1, a, b);
    }
  }

  lemma DecodedEven(word: nat)
    ensures var i := DecodeFetched(word); i.op.Branch? || i.op.JAL? ==> i.imm % 2 == 0
  {
  }

  lemma TrapsKeep(c: Ctl, pc: Addr, cause: nat, tval: nat)
    requires T.Sound(c) && pc % 2 == 0
    ensures T.Sound(Retired(T.Trapped(c, pc, cause, tval)).ctl) && Retired(T.Trapped(c, pc, cause, tval)).pc % 2 == 0
    ensures T.Sound(Retired(T.Interrupted(c, pc)).ctl) && Retired(T.Interrupted(c, pc)).pc % 2 == 0
    ensures T.Sound(T.Returned(c, T.M).ctl) && T.Returned(c, T.M).pc % 2 == 0
  {
    TT.TrappedSound(c, pc, cause, tval);
    TT.InterruptedSound(c, pc);
    TT.ReturnedSound(c, T.M);
  }

  lemma HartKeeps(port: Port)
    ensures R.ControlKeeps(Hart(port), T.Sound) && R.EvenOffsets(Hart(port))
  {
    var sys := Hart(port);
    forall c: Ctl, pc: Addr, cause, tval | T.Sound(c) && pc % 2 == 0
      ensures T.Sound(sys.trap(c, pc, cause, tval).ctl) && sys.trap(c, pc, cause, tval).pc % 2 == 0
    {
      TrapsKeep(c, pc, cause, tval);
    }
    forall c: Ctl, pc: Addr | T.Sound(c) && pc % 2 == 0
      ensures T.Sound(sys.interrupt(c, pc).ctl) && sys.interrupt(c, pc).pc % 2 == 0
    {
      TrapsKeep(c, pc, 0, 0);
    }
    forall c: Ctl, i, v | T.Sound(c) && sys.csr(c, i, v).CsrOk?
      ensures T.Sound(sys.csr(c, i, v).ctl)
    {
      CsrKeeps(c, i, v);
    }
    forall c: Ctl | T.Sound(c)
      ensures T.Sound(sys.mret(c).ctl) && sys.mret(c).pc % 2 == 0
    {
      TrapsKeep(c, 0, 0, 0);
    }
    forall w
      ensures var i := sys.decode(w); i.op.Branch? || i.op.JAL? ==> i.imm % 2 == 0
    {
      DecodedEven(w);
    }
  }

  /**
    From an even entry point with x0 zero, every state any run reaches has x0 zero, an even pc,
    even xepc, xtvec bit 1 clear, and mie, mip, mideleg and sideleg inside MIE_MASK.
   */
  lemma EveryStateSound(port: Port, s: Sim<Ctl>, arrivals: seq<Ctl -> Ctl>)
    requires R.Boundary(SimOps(), T.Sound, s) && R.ArrivalsKeep(T.Sound, arrivals)
    ensures R.Boundary(SimOps(), T.Sound, S.Run(Hart(port), SimOps(), s, arrivals).next)
  {
    HartKeeps(port);
    R.RunKeeps(Hart(port), SimOps(), T.Sound, s, arrivals);
  }
}
