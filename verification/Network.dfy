/** A transmitter and a receiver joined by a network that may lose, duplicate, reorder and delay
    packets without bound. */
module Network {
  import opened Common
  import opened Packets
  import opened Segmentation
  import T = Transmitter
  import R = Receiver

  /** A packet in the network, with the absolute number of the block it carries or acknowledges.
      Only the history of the system knows that number: the code sees it modulo 65536. */
  datatype Tagged = Tagged(index: nat, packet: Packet)

  /** `toRx` and `toTx` hold every packet ever sent in that direction. Any of them may be delivered
      at any time and any number of times, or never: that is loss, duplication, reordering and
      delay. The rest is history: the iterations the transmitter has begun, the blocks the receiver
      has accepted, the blocks left behind unacknowledged, whether the receiver has processed a
      copy of the block under way, and the packets of each kind sent. */
  datatype System = System(
    tx: T.Tx,
    rx: R.Rx,
    toRx: set<Tagged>,
    toTx: set<Tagged>,
    index: nat,
    accepted: nat,
    abandoned: nat,
    reached: bool,
    dataSent: nat,
    acksSent: nat)

  /** ACK 0 may be under way from the start: the server answers a write request with it. */
  function Init(): System {
    System(T.TX_START, R.RX_START, {}, {Tagged(0, AckPacket(0))}, 0, 0, 0, false, 0, 0)
  }

  /** One step of either side; `fault` says that the code finds a reason to give up there. */
  datatype Step =
    | TxBegins(fault: bool)
    | TxFetches(fault: bool)
    | TxSends(fault: bool)
    | TxHears(message: Tagged)
    | TxTimesOut
    | TxFails
    | RxBegins(fault: bool)
    | RxChecks(fault: bool)
    | RxHears(message: Tagged, fault: bool)
    | RxTimesOut

  function SinkOf(c: Job): R.Sink {
    R.Sink(c.blockSize, c.acceptEmpty)
  }

  ghost predicate Enabled(c: Job, s: System, step: Step) {
    match step
    case TxBegins(_) => s.tx.pc.Begin?
    case TxFetches(_) => s.tx.pc.Fetch? && s.tx.offset <= |c.file|
    case TxSends(_) => s.tx.pc.Send?
    case TxHears(m) => s.tx.pc.Wait? && m in s.toTx
    case TxTimesOut => s.tx.pc.Wait?
    case TxFails => s.tx.pc.Wait?
    case RxBegins(_) => s.rx.pc.Begin?
    case RxChecks(_) => s.rx.pc.Check?
    case RxHears(m, _) => s.rx.pc.Wait? && m in s.toRx
    case RxTimesOut => s.rx.pc.Wait?
  }

  /** The tagged form of what one step sends: nothing or one packet. */
  function Tag(index: nat, out: seq<Packet>): set<Tagged> {
    if out == [] then {} else {Tagged(index, out[0])}
  }

  function Count(out: seq<Packet>, opcode: uint16): nat {
    if out != [] && out[0].opcode == opcode then 1 else 0
  }

  /** The system after a step of the transmitter with result `r`. */
  function TxMoves(s: System, r: (T.Tx, seq<Packet>)): System {
    s.(tx := r.0, toRx := s.toRx + Tag(s.index, r.1), dataSent := s.dataSent + Count(r.1, DATA))
  }

  /** An answer reaches the transmitter; a block is abandoned when it moves on without an ACK. */
  function TxGets(c: Job, s: System, answer: Recv): System {
    var r := T.TxReceive(c, s.tx, answer);
    var left := r.0.pc.Fetch? || r.0.pc == T.Done(true);
    var acked := answer.Datagram? && T.Acknowledges(s.tx, answer.packet);
    TxMoves(s, r).(abandoned := s.abandoned + if left && !acked then 1 else 0)
  }

  /** The system after a step of the receiver with result `r`, which has accepted a block if it
      has moved on to the next number. */
  function RxMoves(s: System, r: (R.Rx, seq<Packet>)): System {
    var n := s.accepted + if R.Advances(s.rx, r.0) then 1 else 0;
    s.(rx := r.0, toTx := s.toTx + Tag(n, r.1), accepted := n, acksSent := s.acksSent + Count(r.1, ACK))
  }

  function Next(c: Job, s: System, step: Step): System
    requires step.TxFetches? ==> s.tx.offset <= |c.file|
  {
    match step
    case TxBegins(fault) => TxMoves(s, T.TxBegin(c, s.tx, fault))
    case TxFetches(fault) =>
      var s' := TxMoves(s, T.TxFetch(c, s.tx, fault));
      if fault then s' else s'.(index := s.index + 1, reached := false)
    case TxSends(fault) => TxMoves(s, T.TxSend(s.tx, fault))
    case TxHears(m) => TxGets(c, s, Datagram(m.packet))
    case TxTimesOut => TxGets(c, s, TimedOut)
    case TxFails => TxGets(c, s, Failed)
    case RxBegins(fault) => RxMoves(s, R.RxBegin(s.rx, fault))
    case RxChecks(fault) => RxMoves(s, R.RxCheck(s.rx, fault))
    case RxHears(m, fault) =>
      RxMoves(s, R.RxReceive(SinkOf(c), s.rx, Datagram(m.packet), fault))
        .(reached := s.reached || (m.packet.opcode == DATA && m.index == s.index))
    case RxTimesOut => RxMoves(s, R.RxReceive(SinkOf(c), s.rx, TimedOut, false))
  }

  // ---------- Runs ----------

  /** What a run may be restricted to. With `dataAge` (`ackAge`) given, every DATA (ACK) delivered
      is fewer than that many blocks older than the one its reader is waiting for. A `tolerant` run
      has no faults, never starves the receiver for six timeouts between acceptances, and leaves no
      block before the receiver has processed some copy of it; ACKs it may lose as it likes. */
  datatype Discipline = Discipline(dataAge: Option<nat>, ackAge: Option<nat>, tolerant: bool)

  const ANY := Discipline(None, None, false)

  ghost predicate Allowed(d: Discipline, c: Job, s: System, step: Step)
    requires Enabled(c, s, step)
  {
    && (step.RxHears? && step.message.packet.opcode == DATA && d.dataAge.Some? ==>
          s.accepted + 1 - step.message.index < d.dataAge.value)
    && (step.TxHears? && step.message.packet.opcode == ACK && d.ackAge.Some? ==>
          s.index - step.message.index < d.ackAge.value)
    && (d.tolerant ==> Tolerable(c, s, step))
  }

  ghost predicate Tolerable(c: Job, s: System, step: Step)
    requires Enabled(c, s, step)
  {
    && step != TxFails
    && (step.TxBegins? || step.TxFetches? || step.TxSends? || step.RxBegins? || step.RxChecks? || step.RxHears? ==>
          !step.fault)
    && (step == RxTimesOut ==> s.rx.resend < MAX_RETRY_COUNT)
    && (s.tx.pc.Wait? && !Next(c, s, step).tx.pc.Wait? && !Next(c, s, step).tx.pc.Send? ==> s.reached)
  }

  ghost predicate Run(d: Discipline, c: Job, s: System, steps: seq<Step>)
    decreases |steps|
  {
    steps == [] ||
    (Enabled(c, s, steps[0]) && Allowed(d, c, s, steps[0]) && Run(d, c, Next(c, s, steps[0]), steps[1..]))
  }

  ghost function After(d: Discipline, c: Job, s: System, steps: seq<Step>): System
    requires Run(d, c, s, steps)
    decreases |steps|
  {
    if steps == [] then s else After(d, c, Next(c, s, steps[0]), steps[1..])
  }

  lemma {:induction false} RunConcat(d: Discipline, c: Job, s: System, before: seq<Step>, after: seq<Step>)
    requires Run(d, c, s, before) && Run(d, c, After(d, c, s, before), after)
    ensures Run(d, c, s, before + after)
    ensures After(d, c, s, before + after) == After(d, c, After(d, c, s, before), after)
    decreases |before|
  {
    hide Allowed;
    if before == [] {
      assert before + after == after;
    } else {
      assert (before + after)[1..] == before[1..] + after;
      RunConcat(d, c, Next(c, s, before[0]), before[1..], after);
    }
  }

  // ---------- The invariant ----------

  /** The receiver's file is exactly the first accepted blocks. */
  ghost predicate Exact(c: Job, s: System) {
    s.rx.written == c.file[..Upto(c, s.accepted)]
  }

  ghost predicate Genuine(c: Job, s: System) {
    && (forall m :: m in s.toRx ==> m.packet.opcode == DATA || m.packet.opcode == ERROR)
    && (forall m :: m in s.toTx ==> m.packet.opcode == ACK || m.packet.opcode == ERROR)
    && (forall m :: m in s.toRx && m.packet.opcode == DATA ==>
          1 <= m.index <= s.index && m.packet == DataPacket(Wrap(m.index), Block(c, m.index)))
    && (forall m :: m in s.toTx && m.packet.opcode == ACK ==>
          m.index <= s.accepted && m.packet == AckPacket(Wrap(m.index)))
  }

  ghost predicate Inv(c: Job, s: System) {
    && T.TxInv(c, s.tx, s.index)
    && R.RxInv(s.rx, s.accepted)
    && Exact(c, s)
    && Genuine(c, s)
    && s.accepted <= s.index
    && s.acksSent == s.accepted
    && (s.rx.pc.Check? || s.rx.pc.Wait? ==> s.accepted < BlockCount(c))
    && (s.rx.pc == R.Done(true) ==> s.accepted == BlockCount(c))
    && (s.accepted == BlockCount(c) ==> Receivable(c))
  }

  /** A DATA packet the receiver takes for the expected block really is that block. */
  ghost predicate Faithful(s: System, step: Step) {
    step.RxHears? && step.message.packet.opcode == DATA && R.Matches(s.rx, step.message.packet) ==>
      step.message.index == s.accepted + 1
  }

  lemma InitKeeps(c: Job)
    ensures Inv(c, Init())
  {
  }

  lemma TxStepKeeps(c: Job, s: System, step: Step)
    requires Inv(c, s) && Enabled(c, s, step) && (step.TxBegins? || step.TxFetches? || step.TxSends?)
    ensures Inv(c, Next(c, s, step))
  {
    if step.TxFetches? {
      T.TxFetchKeeps(c, s.tx, s.index, step.fault);
    } else if step.TxSends? {
      T.TxSendKeeps(c, s.tx, s.index, step.fault);
    }
  }

  lemma TxGetsKeeps(c: Job, s: System, answer: Recv)
    requires Inv(c, s) && s.tx.pc.Wait?
    ensures Inv(c, TxGets(c, s, answer))
  {
    T.TxReceiveKeeps(c, s.tx, s.index, answer);
  }

  /** The receiver sends an ACK of its last block, an ERROR or nothing. */
  lemma GenuineGrows(c: Job, s: System, s': System, out: seq<Packet>)
    requires Genuine(c, s) && s'.toRx == s.toRx && s'.index == s.index && s.accepted <= s'.accepted
    requires s'.toTx == s.toTx + Tag(s'.accepted, out)
    requires out == [] || out == [ErrorPacket()] || out == [AckPacket(Wrap(s'.accepted))]
    ensures Genuine(c, s')
  {
  }

  lemma RxStepKeeps(c: Job, s: System, step: Step)
    requires Inv(c, s) && Enabled(c, s, step) && (step.RxBegins? || step.RxChecks? || step.RxTimesOut?)
    ensures Inv(c, Next(c, s, step))
  {
    hide Genuine, Tag;
    var r := match step
      case RxBegins(fault) => R.RxBegin(s.rx, fault)
      case RxChecks(fault) => R.RxCheck(s.rx, fault)
      case _ => R.RxReceive(SinkOf(c), s.rx, TimedOut, false);
    GenuineGrows(c, s, Next(c, s, step), r.1);
  }

  lemma RxHearsKeeps(c: Job, s: System, m: Tagged, fault: bool)
    requires Inv(c, s) && s.rx.pc.Wait? && m in s.toRx && Faithful(s, RxHears(m, fault))
    ensures Inv(c, Next(c, s, RxHears(m, fault)))
  {
    if R.Matches(s.rx, m.packet) {
      AcceptKeeps(c, s, m, fault);
    }
  }

  lemma AcceptKeeps(c: Job, s: System, m: Tagged, fault: bool)
    requires Inv(c, s) && s.rx.pc.Wait? && m in s.toRx
    requires R.Matches(s.rx, m.packet) && m.index == s.accepted + 1
    ensures Inv(c, Next(c, s, RxHears(m, fault)))
  {
    hide Wrap, BlockCount, Genuine, Tag, Block;
    var n := s.accepted + 1;
    BlockShape(c, n);
    NextNumber(s.accepted);
    NextNumber(n);
    TrueBlock(c, s, m);
    assert R.Payload(SinkOf(c), m.packet) == Block(c, n);
    OneMoreBlock(c, n);
    var r := R.RxReceive(SinkOf(c), s.rx, Datagram(m.packet), fault);
    GenuineGrows(c, s, Next(c, s, RxHears(m, fault)), r.1);
  }

  lemma TrueBlock(c: Job, s: System, m: Tagged)
    requires Genuine(c, s) && m in s.toRx && m.packet.opcode == DATA
    ensures 1 <= m.index <= s.index && m.packet == DataPacket(Wrap(m.index), Block(c, m.index))
  {
  }

  lemma StepKeeps(c: Job, s: System, step: Step)
    requires Inv(c, s) && Enabled(c, s, step) && Faithful(s, step)
    ensures Inv(c, Next(c, s, step))
  {
    match step
    case TxBegins(_) => TxStepKeeps(c, s, step);
    case TxFetches(_) => TxStepKeeps(c, s, step);
    case TxSends(_) => TxStepKeeps(c, s, step);
    case TxHears(m) => TxGetsKeeps(c, s, Datagram(m.packet));
    case TxTimesOut => TxGetsKeeps(c, s, TimedOut);
    case TxFails => TxGetsKeeps(c, s, Failed);
    case RxBegins(_) => RxStepKeeps(c, s, step);
    case RxChecks(_) => RxStepKeeps(c, s, step);
    case RxHears(m, fault) => RxHearsKeeps(c, s, m, fault);
    case RxTimesOut => RxStepKeeps(c, s, step);
  }
}
