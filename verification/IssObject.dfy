/** The simulator object: register file, memory bytes and fields changed in place by each instruction. */
module IssObject {
  import opened Isa
  import S = ConcolicIss

  lemma RunUnfolds<C, V>(sys: Sys<C>, ops: S.Ops<V>, s: S.Sim<C, V>, arrivals: seq<C -> C>, k: nat)
    requires S.Valid(s) && k < |arrivals| && s.status == Runnable
    ensures var one := S.Step(sys, ops, s, arrivals[k]); var rest := S.Run(sys, ops, one.next, arrivals[k + 1..]);
            S.Run(sys, ops, s, arrivals[k..]) == S.Stepped(rest.next, one.trace + rest.trace)
  {
    assert arrivals[k..][0] == arrivals[k] && arrivals[k..][1..] == arrivals[k + 1..];
  }

  lemma TraceRegroups<B>(before: seq<B>, all: seq<B>, done: seq<B>, one: seq<B>, rest: seq<B>)
    requires before + all == done + (one + rest)
    ensures before + all == (done + one) + rest
  {
  }

  class Core<C, V> {
    const sys: Sys<C>
    const ops: S.Ops<V>
    const regs: array<V>
    const mem: array<V>
    var pc: Addr
    var lastPc: Addr
    var ctl: C
    var status: Status
    var tracer: seq<S.BranchRecord<V>>

    ghost predicate Valid()
      reads this
    {
      regs.Length == 32 && regs != mem
    }

    constructor (sys: Sys<C>, ops: S.Ops<V>, s: S.Sim<C, V>)
      requires S.Valid(s)
      ensures Valid() && Now() == s && tracer == [] && this.sys == sys && this.ops == ops
      ensures fresh(regs) && fresh(mem)
    {
      this.sys, this.ops := sys, ops;
      regs := new V[32](i requires 0 <= i < 32 => s.regs[i]);
      mem := new V[|s.mem|](i requires 0 <= i < |s.mem| => s.mem[i]);
      pc, lastPc, ctl, status, tracer := s.pc, s.pc, s.ctl, s.status, [];
      new;
      assert regs[..] == s.regs && mem[..] == s.mem;
    }

    function Now(): S.Sim<C, V>
      reads this, regs, mem
    {
      State(regs[..], mem[..], pc, ctl, status)
    }

    /** The state with the pc of the instruction being executed. */
    function Here(): S.Sim<C, V>
      reads this, regs, mem
    {
      State(regs[..], mem[..], lastPc, ctl, status)
    }

    /** The object is as the outcome of the instruction says; a trap leaves everything but the pc alone. */
    ghost predicate Outcome(o: S.Out<C, V>, was: S.Sim<C, V>, traced: seq<S.BranchRecord<V>>, trap: Option<(nat, nat)>)
      reads this, regs, mem
    {
      match o
      case Done(t, records) => trap == None && Now() == t && tracer == traced + records
      case Trap(cause, tval) => trap == Some((cause, tval)) && Here() == was && tracer == traced
    }

    /** `RegFile::write`: narrow values are zero-extended, wider ones are not stored. */
    method WriteReg(i: nat, v: V)
      requires Valid() && i < 32
      modifies regs
      ensures regs[..] == S.WriteReg(ops, old(regs[..]), i, v)
    {
      match ops.toReg(v)
      case Some(u) => regs[i] := u;
      case None =>
    }

    /** `track_and_trace_branch`. */
    method Track(taken: bool, cond: V)
      modifies this`tracer
      ensures tracer == old(tracer) + S.Track(ops, taken, cond, lastPc)
    {
      if ops.symbolic(cond) {
        tracer := tracer + [S.BranchRecord(taken, cond, lastPc)];
      }
    }

    /** `SymbolicMemory::write_data`, byte by byte. */
    method StoreData(at: nat, v: V, n: nat)
      requires Valid() && at + n <= mem.Length
      modifies mem
      ensures mem[..] == S.StoreBytes(ops, old(mem[..]), at, v, n)
    {
      var i := 0;
      while i < n
        invariant 0 <= i <= n
        invariant forall k :: 0 <= k < mem.Length ==>
                    mem[k] == if at <= k < at + i then ops.byte(v, k - at) else old(mem[k])
      {
        mem[at + i] := ops.byte(v, i);
        i := i + 1;
      }
    }

    /** `SymbolicMemory::load_data` and `load_zero`: `n` bytes from a source of constants. */
    method LoadImage(src: seq<V>, at: nat)
      requires Valid() && at + |src| <= mem.Length
      modifies mem
      ensures mem[..] == old(mem[..at]) + src + old(mem[at + |src|..])
    {
      var i := 0;
      while i < |src|
        invariant 0 <= i <= |src|
        invariant forall k :: 0 <= k < mem.Length ==> mem[k] == if at <= k < at + i then src[k - at] else old(mem[k])
      {
        mem[at + i] := src[i];
        i := i + 1;
      }
    }

    predicate Computes(op: Opcode) {
      op.LUI? || op.AUIPC? || op.OpImm? || op.Op? || op.Mul?
    }

    method ExecCompute(i: Instr)
      requires Valid() && Computes(i.op) && pc == S.Next(lastPc, i.size)
      modifies regs
      ensures Outcome(S.Exec(sys, ops, old(Here()), i), old(Here()), old(tracer), None)
    {
      var rs1, rs2 := regs[i.rs1], regs[i.rs2];
      match i.op {
        case LUI => WriteReg(i.rd, ops.lit(i.imm));
        case AUIPC => WriteReg(i.rd, ops.alu(ADD, ops.lit(lastPc), ops.lit(i.imm)));
        case OpImm(a) => WriteReg(i.rd, ops.alu(a, rs1, ops.lit(i.imm)));
        case Op(a) => WriteReg(i.rd, ops.alu(a, rs1, if a in {SLL, SRL, SRA} then ops.shamt(rs2) else rs2));
        case Mul(m) => WriteReg(i.rd, ops.mul(m, rs1, rs2));
      }
    }

    method ExecJump(i: Instr)
      requires Valid() && (i.op.JAL? || i.op.JALR? || i.op.Branch?) && pc == S.Next(lastPc, i.size)
      modifies regs, this`pc, this`tracer
      ensures Outcome(S.Exec(sys, ops, old(Here()), i), old(Here()), old(tracer), None)
    {
      var rs1, rs2, link := regs[i.rs1], regs[i.rs2], pc;
      match i.op {
        case JAL =>
          pc := S.Next(lastPc, i.imm);
          WriteReg(i.rd, ops.lit(link));
        case JALR =>
          pc := S.Next(ops.concrete(rs1), i.imm) / 2 * 2;
          WriteReg(i.rd, ops.lit(link));
        case Branch(b) =>
          var res := ops.branch(b, rs1, rs2);
          var taken := S.IsTrue(ops, res);
          if taken {
            pc := S.Next(lastPc, i.imm);
          }
          Track(taken, res);
      }
    }

    method ExecDivide(i: Instr)
      requires Valid() && i.op.Div? && pc == S.Next(lastPc, i.size)
      modifies regs, this`tracer
      ensures Outcome(S.Exec(sys, ops, old(Here()), i), old(Here()), old(tracer), None)
    {
      var rs1, rs2 := regs[i.rs1], regs[i.rs2];
      var zero := ops.isZero(rs2);
      var isZero := S.IsTrue(ops, zero);
      if !isZero {
        WriteReg(i.rd, ops.div(i.op.div, rs1, rs2));
      } else if i.op.div.DIV? || i.op.div.DIVU? {
        WriteReg(i.rd, ops.lit(WORDS - 1));
      } else {
        WriteReg(i.rd, rs1);
      }
      Track(isZero, zero);
    }

    method ExecLoad(i: Instr) returns (trap: Option<(nat, nat)>)
      requires Valid() && i.op.Load? && pc == S.Next(lastPc, i.size)
      modifies regs
      ensures Outcome(S.Exec(sys, ops, old(Here()), i), old(Here()), old(tracer), trap)
    {
      var a := ops.concrete(ops.alu(ADD, regs[i.rs1], ops.lit(i.imm)));
      var n := LoadSize(i.op.load);
      if a % n != 0 {
        return Some((EXC_LOAD_ADDR_MISALIGNED, a));
      }
      match Route(sys.port, a, n, mem.Length)
      case Miss(t) => return Some((EXC_LOAD_PAGE_FAULT, t));
      case Hit(m) =>
        WriteReg(i.rd, ops.load(i.op.load, mem[m..m + n]));
        return None;
    }

    method ExecStore(i: Instr) returns (trap: Option<(nat, nat)>)
      requires Valid() && i.op.Store? && pc == S.Next(lastPc, i.size)
      modifies mem
      ensures Outcome(S.Exec(sys, ops, old(Here()), i), old(Here()), old(tracer), trap)
    {
      var a := ops.concrete(ops.alu(ADD, regs[i.rs1], ops.lit(i.imm)));
      var n := StoreSize(i.op.store);
      if a % n != 0 {
        return Some((EXC_STORE_AMO_ADDR_MISALIGNED, a));
      }
      match Route(sys.port, a, n, mem.Length)
      case Miss(t) => return Some((EXC_STORE_AMO_PAGE_FAULT, t));
      case Hit(m) =>
        StoreData(m, regs[i.rs2], n);
        return None;
    }

    /** `execute_amo`: load, operate, store, then write the loaded value. */
    method ExecAmo(i: Instr) returns (trap: Option<(nat, nat)>)
      requires Valid() && i.op.Amo? && pc == S.Next(lastPc, i.size)
      modifies regs, mem
      ensures Outcome(S.Exec(sys, ops, old(Here()), i), old(Here()), old(tracer), trap)
    {
      var a := ops.concrete(regs[i.rs1]);
      if a % 4 != 0 {
        return Some((EXC_STORE_AMO_ADDR_MISALIGNED, a));
      }
      match Route(sys.port, a, 4, mem.Length)
      case Miss(t) => return Some((EXC_LOAD_PAGE_FAULT, t));
      case Hit(m) =>
        var data := ops.load(LW, mem[m..m + 4]);
        StoreData(m, ops.amo(i.op.amo, data, regs[i.rs2]), 4);
        WriteReg(i.rd, data);
        return None;
    }

    method ExecSystem(i: Instr) returns (trap: Option<(nat, nat)>)
      requires Valid() && pc == S.Next(lastPc, i.size)
      requires i.op.UNDEF? || i.op.Csr? || i.op.FENCE? || i.op.ECALL? || i.op.EBREAK? || i.op.MRET? || i.op.WFI? ||
               i.op.Unsupported?
      modifies regs, this`pc, this`ctl, this`status
      ensures Outcome(S.Exec(sys, ops, old(Here()), i), old(Here()), old(tracer), trap)
    {
      trap := None;
      match i.op {
        case UNDEF => trap := Some((EXC_ILLEGAL_INSTR, i.raw));
        case Csr(k) =>
          var operand := if k in {CSRRW, CSRRS, CSRRC} then ops.concrete(regs[i.rs1]) else i.zimm;
          match sys.csr(ctl, i, operand) {
            case CsrIllegal => trap := Some((EXC_ILLEGAL_INSTR, i.raw));
            case CsrOk(c, v, writeRd) =>
              if writeRd {
                WriteReg(i.rd, ops.lit(v));
              }
              ctl := c;
          }
        case FENCE =>
        case ECALL => trap := Some((sys.ecall(ctl), lastPc));
        case EBREAK => status := HitBreakpoint;
        case MRET =>
          var r := sys.mret(ctl);
          ctl, pc := r.ctl, r.pc;
        case WFI =>
          if sys.wfiIllegal(ctl) {
            trap := Some((EXC_ILLEGAL_INSTR, i.raw));
          }
        case Unsupported(_) => status := Aborted;
      }
    }

    /** The cases of the opcode switch that cannot trap. */
    method ExecPure(i: Instr)
      requires Valid() && pc == S.Next(lastPc, i.size)
      requires Computes(i.op) || i.op.JAL? || i.op.JALR? || i.op.Branch? || i.op.Div?
      modifies regs, this`pc, this`tracer
      ensures Outcome(S.Exec(sys, ops, old(Here()), i), old(Here()), old(tracer), None)
    {
      if Computes(i.op) {
        ExecCompute(i);
      } else if i.op.Div? {
        ExecDivide(i);
      } else {
        ExecJump(i);
      }
    }

    /** The opcode switch. */
    method ExecOp(i: Instr) returns (trap: Option<(nat, nat)>)
      requires Valid() && pc == S.Next(lastPc, i.size)
      modifies regs, mem, this`pc, this`ctl, this`status, this`tracer
      ensures Outcome(S.Exec(sys, ops, old(Here()), i), old(Here()), old(tracer), trap)
    {
      trap := None;
      if i.op.Load? {
        trap := ExecLoad(i);
      } else if i.op.Store? {
        trap := ExecStore(i);
      } else if i.op.Amo? {
        trap := ExecAmo(i);
      } else if Computes(i.op) || i.op.JAL? || i.op.JALR? || i.op.Branch? || i.op.Div? {
        ExecPure(i);
      } else {
        trap := ExecSystem(i);
      }
    }

    /** `exec_step`: fetch, decode, move the pc on, and run the opcode's case. */
    method ExecStep() returns (trap: Option<(nat, nat)>)
      requires Valid() && pc == lastPc
      modifies regs, mem, this`pc, this`ctl, this`status, this`tracer
      ensures Outcome(S.FetchExec(sys, ops, old(Here())), old(Here()), old(tracer), trap)
    {
      match Route(sys.port, pc, 4, mem.Length)
      case Miss(t) => return Some((EXC_LOAD_PAGE_FAULT, t));
      case Hit(m) =>
        var i := sys.decode(S.FetchWord(ops, mem[m..m + 4]));
        pc := S.Next(pc, i.size);
        trap := ExecOp(i);
    }

    /** `run_step`; `arrive` is what interrupt lines and clocks do between two steps. */
    method RunStep(arrive: C -> C)
      requires Valid()
      modifies this, regs, mem
      ensures Valid()
      ensures var one := S.Step(sys, ops, old(Now()), arrive); Now() == one.next && tracer == old(tracer) + one.trace
    {
      ctl := arrive(ctl);
      lastPc := pc;
      var trap := ExecStep();
      match trap {
        case None =>
          var r := sys.interrupt(ctl, pc);
          ctl, pc := r.ctl, r.pc;
        case Some(t) =>
          pc := lastPc;
          var r := sys.trap(ctl, pc, t.0, t.1);
          ctl, pc := r.ctl, r.pc;
      }
      WriteReg(0, ops.lit(0));
    }

    /** The repetition in `run`: steps while the status is runnable, as long as arrivals are given. */
    method Continue(arrivals: seq<C -> C>)
      requires Valid()
      modifies this, regs, mem
      ensures Valid()
      ensures var all := S.Run(sys, ops, old(Now()), arrivals); Now() == all.next && tracer == old(tracer) + all.trace
    {
      var k := 0;
      ghost var start, traced := Now(), tracer;
      while k < |arrivals| && status == Runnable
        invariant 0 <= k <= |arrivals| && Valid()
        invariant var all, rest := S.Run(sys, ops, start, arrivals), S.Run(sys, ops, Now(), arrivals[k..]);
                  all.next == rest.next && traced + all.trace == tracer + rest.trace
      {
        RunUnfolds(sys, ops, Now(), arrivals, k);
        ghost var done := tracer;
        RunStep(arrivals[k]);
        k := k + 1;
        TraceRegroups(traced, S.Run(sys, ops, start, arrivals).trace, done, tracer[|done|..],
                      S.Run(sys, ops, Now(), arrivals[k..]).trace);
      }
      assert S.Run(sys, ops, Now(), arrivals[k..]) == S.Stepped(Now(), []);
    }

    /** `run`: one step whatever the status, and further ones while it is runnable. */
    method Run(arrivals: seq<C -> C>)
      requires Valid() && arrivals != []
      modifies this, regs, mem
      ensures Valid()
      ensures var one := S.Step(sys, ops, old(Now()), arrivals[0]); var rest := S.Run(sys, ops, one.next, arrivals[1..]);
              Now() == rest.next && tracer == old(tracer) + one.trace + rest.trace
    {
      RunStep(arrivals[0]);
      Continue(arrivals[1..]);
    }
  }
}
