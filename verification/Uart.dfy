/**
  The serial port's FIFOs between the bus, the receiving threads and the transmitting thread.
  A step is one critical section or one semaphore operation; all interleavings are allowed.
 */
module Uart {

  const DEPTH: nat := 8

  type Byte = n: nat | n < 256

  /** The simulator's thread between taking a byte out or putting one in and posting the semaphore. */
  datatype BusPhase = Free | PostingRx | PostingTx

  datatype TxPhase = Waiting | Granted | Sending(data: Byte)

  /**
    `granted` counts the pushers that got a free slot and have not filled it yet. The four
    histories record what was pushed, read by software, accepted from software and sent.
   */
  datatype Port = Port(
    rxFifo: seq<Byte>, rxEmpty: nat, granted: nat,
    txFifo: seq<Byte>, txFull: nat, tx: TxPhase, bus: BusPhase,
    pushed: seq<Byte>, read: seq<Byte>, accepted: seq<Byte>, sent: seq<Byte>)

  const INITIAL: Port := Port([], DEPTH, 0, [], 0, Waiting, Free, [], [], [], [])

  datatype Step =
    | RxWait                 // rxpush: wait for a free slot
    | RxPush(data: Byte)     // rxpush: append under the mutex
    | ReadRxdata             // bus: take the front byte, if there is one
    | PostRx                 // bus: announce the free slot
    | WriteTxdata(value: nat) // bus: append under the mutex, unless the FIFO is full
    | PostTx                 // bus: announce the byte
    | TxWait                 // transmit: wait for a byte
    | TxPop                  // transmit: take the front byte under the mutex
    | TxSend                 // transmit: hand it to the device

  /** A step that waits for a semaphore, or belongs to a thread that is elsewhere, cannot happen. */
  predicate Enabled(s: Port, a: Step) {
    match a
    case RxWait => s.rxEmpty > 0
    case RxPush(_) => s.granted > 0
    case ReadRxdata => s.bus == Free
    case PostRx => s.bus == PostingRx
    case WriteTxdata(_) => s.bus == Free
    case PostTx => s.bus == PostingTx
    case TxWait => s.tx == Waiting && s.txFull > 0
    case TxPop => s.tx == Granted
    case TxSend => s.tx.Sending?
  }

  /** `queue::front` and `pop` of an empty queue would be undefined; here they leave things as they are. */
  function Next(s: Port, a: Step): Port
    requires Enabled(s, a)
  {
    match a
    case RxWait => s.(rxEmpty := s.rxEmpty - 1, granted := s.granted + 1)
    case RxPush(b) => s.(rxFifo := s.rxFifo + [b], granted := s.granted - 1, pushed := s.pushed + [b])
    case ReadRxdata =>
      if s.rxFifo == [] then s
      else s.(rxFifo := s.rxFifo[1..], read := s.read + [s.rxFifo[0]], bus := PostingRx)
    case PostRx => s.(rxEmpty := s.rxEmpty + 1, bus := Free)
    case WriteTxdata(v) =>
      if |s.txFifo| >= DEPTH then s
      else s.(txFifo := s.txFifo + [v % 256], accepted := s.accepted + [v % 256], bus := PostingTx)
    case PostTx => s.(txFull := s.txFull + 1, bus := Free)
    case TxWait => s.(txFull := s.txFull - 1, tx := Granted)
    case TxPop => if s.txFifo == [] then s else s.(txFifo := s.txFifo[1..], tx := Sending(s.txFifo[0]))
    case TxSend => s.(sent := s.sent + [s.tx.data], tx := Waiting)
  }

  predicate Runs(s: Port, trace: seq<Step>)
    decreases |trace|
  {
    trace == [] || (Enabled(s, trace[0]) && Runs(Next(s, trace[0]), trace[1..]))
  }

  function Run(s: Port, trace: seq<Step>): Port
    requires Runs(s, trace)
    decreases |trace|
  {
    if trace == [] then s else Run(Next(s, trace[0]), trace[1..])
  }

  // ----- the registers as software reads them -----

  function TxdataValue(s: Port): nat {
    if |s.txFifo| >= DEPTH then 0x8000_0000 else 0
  }

  function RxdataValue(s: Port): nat {
    if s.rxFifo == [] then 0x8000_0000 else s.rxFifo[0]
  }

  /** The watermark bits: fewer bytes to send than txctrl asks for, more received than rxctrl asks for. */
  function PendingValue(s: Port, txctrl: nat, rxctrl: nat): nat {
    (if |s.txFifo| < txctrl / 0x1_0000 then 1 else 0) + (if |s.rxFifo| > rxctrl / 0x1_0000 then 2 else 0)
  }

  // ----- invariants -----

  function InFlightRx(s: Port): nat {
    s.granted + if s.bus == PostingRx then 1 else 0
  }

  /** The byte the transmitting thread holds. */
  function InHand(s: Port): seq<Byte> {
    if s.tx.Sending? then [s.tx.data] else []
  }

  /** The semaphores agree with the queues and with the operations in flight. */
  predicate Counted(s: Port) {
    && s.rxEmpty + |s.rxFifo| + InFlightRx(s) == DEPTH
    && |s.txFifo| == s.txFull + (if s.bus == PostingTx then 1 else 0) + (if s.tx == Granted then 1 else 0)
    && |s.txFifo| <= DEPTH
  }

  predicate Conserved(s: Port) {
    && s.pushed == s.read + s.rxFifo
    && s.accepted == s.sent + InHand(s) + s.txFifo
  }

  predicate Sound(s: Port) {
    Counted(s) && Conserved(s)
  }

  lemma StepCounted(s: Port, a: Step)
    requires Counted(s) && Enabled(s, a)
    ensures Counted(Next(s, a)) && (a == TxPop ==> s.txFifo != [])
  {
  }

  lemma StepConserved(s: Port, a: Step)
    requires Conserved(s) && Enabled(s, a)
    ensures Conserved(Next(s, a))
  {
  }

  lemma StepSound(s: Port, a: Step)
    requires Sound(s) && Enabled(s, a)
    ensures Sound(Next(s, a)) && (a == TxPop ==> s.txFifo != [])
  {
    StepCounted(s, a);
    StepConserved(s, a);
  }

  lemma {:induction false} RunSound(s: Port, trace: seq<Step>)
    requires Sound(s) && Runs(s, trace)
    ensures Sound(Run(s, trace))
    decreases |trace|
  {
    if trace != [] {
      StepSound(s, trace[0]);
      RunSound(Next(s, trace[0]), trace[1..]);
    }
  }

  predicate Prefix(p: seq<Byte>, s: seq<Byte>) {
    |p| <= |s| && s[..|p|] == p
  }

  /** Over every interleaving: capacity is conserved and never exceeded, and no byte is lost, repeated or reordered. */
  lemma BoundedBuffers(trace: seq<Step>)
    requires Runs(INITIAL, trace)
    ensures var s := Run(INITIAL, trace);
            && s.rxEmpty + |s.rxFifo| + InFlightRx(s) == DEPTH && |s.rxFifo| <= DEPTH && |s.txFifo| <= DEPTH
            && Prefix(s.sent, s.accepted) && |s.accepted| == |s.sent| + |InHand(s)| + |s.txFifo|
            && Prefix(s.read, s.pushed) && |s.pushed| == |s.read| + |s.rxFifo|
  {
    RunSound(INITIAL, trace);
  }

  /** `transmit` never takes a byte from an empty queue. */
  lemma PopFindsByte(trace: seq<Step>)
    requires Runs(INITIAL, trace) && Enabled(Run(INITIAL, trace), TxPop)
    ensures Run(INITIAL, trace).txFifo != []
  {
    RunSound(INITIAL, trace);
  }

  // ----- what software and the device observe -----

  /**
    A run as seen from outside: the bytes accepted from software and how many of them were taken
    out and sent, the bytes received and how many of them were read.
   */
  datatype Log = Log(accepted: seq<Byte>, popped: nat, sent: nat, received: seq<Byte>, read: nat)

  /** A write is accepted, by its low byte, while fewer than eight bytes wait; a read counts if a byte waits. */
  function Noted(l: Log, a: Step): Log {
    match a
    case WriteTxdata(v) => if |l.accepted| - l.popped < 8 then l.(accepted := l.accepted + [v % 256]) else l
    case TxPop => l.(popped := l.popped + 1)
    case TxSend => l.(sent := l.sent + 1)
    case RxPush(b) => l.(received := l.received + [b])
    case ReadRxdata => if l.read < |l.received| then l.(read := l.read + 1) else l
    case _ => l
  }

  function Logged(trace: seq<Step>): Log
    decreases |trace|
  {
    if trace == [] then Log([], 0, 0, [], 0) else Noted(Logged(trace[..|trace| - 1]), trace[|trace| - 1])
  }

  predicate Agrees(s: Port, l: Log) {
    && s.accepted == l.accepted && |s.txFifo| + l.popped == |l.accepted| && |s.sent| == l.sent
    && s.pushed == l.received && |s.read| == l.read
  }

  lemma StepAgrees(s: Port, l: Log, a: Step)
    requires Sound(s) && Agrees(s, l) && Enabled(s, a)
    ensures Agrees(Next(s, a), Noted(l, a))
  {
    StepCounted(s, a);
  }

  lemma {:induction false} RunSnoc(s: Port, trace: seq<Step>, a: Step)
    ensures Runs(s, trace + [a]) <==> Runs(s, trace) && Enabled(Run(s, trace), a)
    ensures Runs(s, trace + [a]) ==> Run(s, trace + [a]) == Next(Run(s, trace), a)
    decreases |trace|
  {
    var longer := trace + [a];
    if trace == [] {
      assert longer[1..] == [];
    } else {
      assert longer[1..] == trace[1..] + [a];
      if Enabled(s, trace[0]) {
        RunSnoc(Next(s, trace[0]), trace[1..], a);
      }
    }
  }

  lemma {:induction false} RunAgrees(trace: seq<Step>)
    requires Runs(INITIAL, trace)
    ensures Sound(Run(INITIAL, trace)) && Agrees(Run(INITIAL, trace), Logged(trace))
    decreases |trace|
  {
    RunSound(INITIAL, trace);
    if trace != [] {
      var n := |trace| - 1;
      assert trace == trace[..n] + [trace[n]];
      RunSnoc(INITIAL, trace[..n], trace[n]);
      RunAgrees(trace[..n]);
      StepAgrees(Run(INITIAL, trace[..n]), Logged(trace[..n]), trace[n]);
    }
  }

  /** The registers as functions of the run's log. */
  lemma RegistersAre(trace: seq<Step>, txctrl: nat, rxctrl: nat)
    requires Runs(INITIAL, trace)
    ensures var s, l := Run(INITIAL, trace), Logged(trace);
            && RxdataValue(s) == (if l.read < |l.received| then l.received[l.read] else 0x8000_0000)
            && TxdataValue(s) == (if |l.accepted| - l.popped == 8 then 0x8000_0000 else 0)
            && (PendingValue(s, txctrl, rxctrl) % 2 == 1 <==> |l.accepted| - l.popped < txctrl / 0x1_0000)
            && (PendingValue(s, txctrl, rxctrl) / 2 == 1 <==> |l.received| - l.read > rxctrl / 0x1_0000)
  {
    RunAgrees(trace);
  }

  /** The device is handed the accepted bytes in order, the next one each time. */
  lemma SendsNext(trace: seq<Step>)
    requires Runs(INITIAL, trace) && Enabled(Run(INITIAL, trace), TxSend)
    ensures var s, l := Run(INITIAL, trace), Logged(trace);
            l.sent < |l.accepted| && s.tx.data == l.accepted[l.sent]
            && Next(s, TxSend).sent == l.accepted[..l.sent + 1]
  {
    RunAgrees(trace);
  }

  // ----- the object behind the steps -----

  class Fifos {
    var rxFifo: seq<Byte>
    var rxEmpty: nat
    var granted: nat
    var txFifo: seq<Byte>
    var txFull: nat
    var tx: TxPhase
    var bus: BusPhase
    ghost var pushed: seq<Byte>
    ghost var read: seq<Byte>
    ghost var accepted: seq<Byte>
    ghost var sent: seq<Byte>

    ghost function Now(): Port
      reads this
    {
      Port(rxFifo, rxEmpty, granted, txFifo, txFull, tx, bus, pushed, read, accepted, sent)
    }

    constructor ()
      ensures Now() == INITIAL
    {
      rxFifo, rxEmpty, granted, txFifo, txFull, tx, bus := [], DEPTH, 0, [], 0, Waiting, Free;
      pushed, read, accepted, sent := [], [], [], [];
    }

    method RxWait()
      requires Enabled(Now(), Step.RxWait)
      modifies this
      ensures Now() == Next(old(Now()), Step.RxWait)
    {
      rxEmpty := rxEmpty - 1;
      granted := granted + 1;
    }

    method RxPush(data: Byte)
      requires Enabled(Now(), Step.RxPush(data))
      modifies this
      ensures Now() == Next(old(Now()), Step.RxPush(data))
    {
      rxFifo := rxFifo + [data];
      granted := granted - 1;
      pushed := pushed + [data];
    }

    /** A read of rxdata under the mutex; the empty flag is the register's top bit. */
    method ReadRxdata() returns (rxdata: nat)
      requires Enabled(Now(), Step.ReadRxdata)
      modifies this
      ensures rxdata == RxdataValue(old(Now())) && Now() == Next(old(Now()), Step.ReadRxdata)
    {
      if |rxFifo| == 0 {
        rxdata := 0x8000_0000;
      } else {
        rxdata := rxFifo[0];
        read := read + [rxFifo[0]];
        rxFifo := rxFifo[1..];
        bus := PostingRx;
      }
    }

    /** Reads of txdata and of the interrupt-pending register change nothing. */
    method ReadStatus(txctrl: nat, rxctrl: nat) returns (txdata: nat, ip: nat)
      ensures txdata == TxdataValue(Now()) && ip == PendingValue(Now(), txctrl, rxctrl)
    {
      txdata := if |txFifo| >= DEPTH then 0x8000_0000 else 0;
      ip := 0;
      if |txFifo| < txctrl / 0x1_0000 {
        ip := ip + 1;
      }
      if |rxFifo| > rxctrl / 0x1_0000 {
        ip := ip + 2;
      }
    }

    method WriteTxdata(txdata: nat)
      requires Enabled(Now(), Step.WriteTxdata(txdata))
      modifies this
      ensures Now() == Next(old(Now()), Step.WriteTxdata(txdata))
    {
      if |txFifo| >= DEPTH {
        return;
      }
      txFifo := txFifo + [txdata % 256];
      accepted := accepted + [txdata % 256];
      bus := PostingTx;
    }

    method Post()
      requires bus != Free
      modifies this
      ensures Now() == Next(old(Now()), if old(bus) == PostingRx then Step.PostRx else Step.PostTx)
    {
      if bus == PostingRx {
        rxEmpty := rxEmpty + 1;
      } else {
        txFull := txFull + 1;
      }
      bus := Free;
    }

    method TxWait()
      requires Enabled(Now(), Step.TxWait)
      modifies this
      ensures Now() == Next(old(Now()), Step.TxWait)
    {
      txFull := txFull - 1;
      tx := Granted;
    }

    /** The transmitting thread's critical section; the queue cannot be empty here. */
    method TxPop()
      requires Enabled(Now(), Step.TxPop) && Sound(Now())
      modifies this
      ensures Now() == Next(old(Now()), Step.TxPop)
    {
      tx := Sending(txFifo[0]);
      txFifo := txFifo[1..];
    }

    method TxSend() returns (data: Byte)
      requires Enabled(Now(), Step.TxSend)
      modifies this
      ensures data == old(tx.data) && Now() == Next(old(Now()), Step.TxSend)
    {
      data := tx.data;
      sent := sent + [data];
      tx := Waiting;
    }
  }
}
