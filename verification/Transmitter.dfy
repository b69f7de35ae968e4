/** The transmitting side as an automaton, one step for each call it makes into the system, and
    what every run of it does. */
module Transmitter {
  import opened Common
  import opened Packets
  import opened Link
  import opened Segmentation

  /** Where in `tftp_transmit_file` the transmitter stands: at its entry, at the head of the
      outer loop, at the head of the inner loop, in `recvfrom`, or returned. */
  datatype TxPc = Begin | Fetch | Send | Wait | Done(ok: bool)

  /** The fields of `TransferData_t` the transmitter uses; `buffer` is the data part of its packet
      buffer, so `latest_file_bytes_read == |buffer|`. */
  datatype Tx = Tx(
    pc: TxPc,
    block: uint16,
    resend: nat,
    offset: nat,
    buffer: seq<byte>,
    bytesSent: int,
    total: nat)

  /** `TransferData_t` as `tftp_fill_transfer_data` leaves it. */
  const TX_START := Tx(Begin, 0, 0, 0, [], 0, 0)

  function MaxPacket(c: Job): int {
    HEADER + c.blockSize
  }

  function Abort(t: Tx): (Tx, seq<Packet>) {
    (t.(pc := Done(false)), [ErrorPacket()])
  }

  function TxBegin(c: Job, t: Tx, fault: bool): (Tx, seq<Packet>) {
    if fault then Abort(t) else (t.(pc := Fetch, bytesSent := MaxPacket(c)), [])
  }

  /** The head of the outer loop, up to and including `fread`. */
  function TxFetch(c: Job, t: Tx, fault: bool): (Tx, seq<Packet>)
    requires t.offset <= |c.file|
  {
    if fault then Abort(t) else
      var next := Min(t.offset + c.blockSize, |c.file|);
      (t.(pc := Send, block := Wrap(t.block + 1), resend := 0,
       offset := next, buffer := c.file[t.offset..next]), [])
  }

  function TxSend(t: Tx, fault: bool): (Tx, seq<Packet>) {
    if fault then Abort(t) else
      (t.(pc := Wait, bytesSent := HEADER + |t.buffer|,
       total := t.total + if t.resend == 0 then |t.buffer| else 0), [DataPacket(t.block, t.buffer)])
  }

  /** Leaving the inner loop: the outer loop goes on exactly when the last packet was full. */
  function Leave(c: Job, t: Tx): Tx {
    t.(pc := if t.bytesSent == MaxPacket(c) then Fetch else Done(true))
  }

  /** The end of the inner loop's body. Its own test for too many retries cannot succeed there, so
      the fifth failed attempt merely leaves the loop. */
  function Retry(c: Job, t: Tx): Tx {
    var t' := t.(resend := t.resend + 1);
    if t'.resend < MAX_RETRY_COUNT then t'.(pc := Send) else Leave(c, t')
  }

  predicate Acknowledges(t: Tx, p: Packet) {
    p.opcode == ACK && p.word == t.block
  }

  function TxReceive(c: Job, t: Tx, r: Recv): (Tx, seq<Packet>) {
    match r
    case Failed => Abort(t)
    case TimedOut => (Retry(c, t), [])
    case Datagram(p) =>
      if p.opcode == SWAPPED_ERROR then (t.(pc := Done(false)), [])
      else if Acknowledges(t, p) then (Leave(c, t), [])
      else (Retry(c, t), [])
  }

  /** What holds of a transmitter that has begun `i` iterations of its outer loop. */
  ghost predicate TxInv(c: Job, t: Tx, i: nat) {
    && i <= BlockCount(c)
    && t.block == Wrap(i)
    && t.offset == Upto(c, i)
    && match t.pc
       case Begin => t == TX_START && i == 0
       case Fetch => i < BlockCount(c) && t.bytesSent == MaxPacket(c) && t.total == t.offset
       case Send => 1 <= i && t.buffer == Block(c, i) && t.resend < MAX_RETRY_COUNT
                    && t.total == if t.resend == 0 then Upto(c, i - 1) else t.offset
       case Wait => 1 <= i && t.buffer == Block(c, i) && t.resend < MAX_RETRY_COUNT
                    && t.total == t.offset && t.bytesSent == HEADER + |t.buffer|
       case Done(ok) => ok ==> i == BlockCount(c) && t.total == |c.file|
  }

  lemma TxFetchKeeps(c: Job, t: Tx, i: nat, fault: bool)
    requires t.pc == Fetch && TxInv(c, t, i)
    ensures var t' := TxFetch(c, t, fault).0;
      if fault then t'.pc == Done(false) && TxInv(c, t', i) else t'.pc == Send && TxInv(c, t', i + 1)
  {
    NextNumber(i);
  }

  lemma TxSendKeeps(c: Job, t: Tx, i: nat, fault: bool)
    requires t.pc == Send && TxInv(c, t, i)
    ensures var t' := TxSend(t, fault).0;
      TxInv(c, t', i) && t'.pc == if fault then Done(false) else Wait
  {
  }

  /** A reply keeps the invariant and the transmitter's place in the file. It moves on exactly on
      its own ACK or on the fifth useless wait. */
  lemma TxReceiveKeeps(c: Job, t: Tx, i: nat, r: Recv)
    requires t.pc == Wait && TxInv(c, t, i)
    ensures var t' := TxReceive(c, t, r).0;
      && TxInv(c, t', i)
      && (t'.pc.Send? ==> t'.resend == t.resend + 1)
      && (t'.pc.Fetch? ==> i < BlockCount(c))
      && (t'.pc == Done(true) ==> i == BlockCount(c))
  {
    BlockShape(c, i);
  }

  /** Enough for the step functions and for termination. */
  ghost predicate TxOk(c: Job, t: Tx) {
    && t.offset <= |c.file|
    && (t.pc.Send? || t.pc.Wait? ==> t.resend < MAX_RETRY_COUNT && |t.buffer| <= c.blockSize)
    && (t.pc.Wait? ==> t.bytesSent == HEADER + |t.buffer|)
  }

  /** Bytes still to be read or waiting in the buffer: every new block uses some up. */
  ghost function Ahead(c: Job, t: Tx): nat
    requires TxOk(c, t)
  {
    |c.file| - t.offset +
    match t.pc
    case Begin => 3
    case Fetch => 2
    case Send => |t.buffer| + 1
    case Wait => |t.buffer| + 1
    case Done(_) => 0
  }

  /** Falls with every step: by the bytes ahead and, for one block, the attempts left. */
  ghost function TxMeasure(c: Job, t: Tx): int
    requires TxOk(c, t)
  {
    if t.pc.Done? then 0 else
      2 * (MAX_RETRY_COUNT + 1) * Ahead(c, t) +
      if t.pc.Send? then 2 * (MAX_RETRY_COUNT - t.resend)
      else if t.pc.Wait? then 2 * (MAX_RETRY_COUNT - t.resend) - 1
      else 0
  }

  /** A transmitter and the system it runs in. */
  datatype TxEnd = TxEnd(tx: Tx, wire: Wire)

  function Emitted(r: (Tx, seq<Packet>), w: Wire): TxEnd {
    TxEnd(r.0, w.Emit(r.1))
  }

  /** One step against the answers of the system. */
  function TxStep(c: Job, e: TxEnd): TxEnd
    requires e.tx.offset <= |c.file|
  {
    var t, w := e.tx, e.wire;
    match t.pc
    case Begin => Emitted(TxBegin(c, t, w.Fault()), w.Polled())
    case Fetch => Emitted(TxFetch(c, t, w.Fault()), w.Polled())
    case Send => Emitted(TxSend(t, w.Fault()), w.Polled())
    case Wait => Emitted(TxReceive(c, t, w.Incoming()), w.Received())
    case Done(_) => e
  }

  lemma TxFetchDecreases(c: Job, t: Tx, fault: bool)
    requires TxOk(c, t) && t.pc.Fetch?
    ensures var t' := TxFetch(c, t, fault).0; TxOk(c, t') && 0 <= TxMeasure(c, t') < TxMeasure(c, t)
  {
  }

  lemma TxSendDecreases(c: Job, t: Tx, fault: bool)
    requires TxOk(c, t) && t.pc.Send?
    ensures var t' := TxSend(t, fault).0; TxOk(c, t') && 0 <= TxMeasure(c, t') < TxMeasure(c, t)
  {
  }

  lemma TxReceiveDecreases(c: Job, t: Tx, r: Recv)
    requires TxOk(c, t) && t.pc.Wait?
    ensures var t' := TxReceive(c, t, r).0; TxOk(c, t') && 0 <= TxMeasure(c, t') < TxMeasure(c, t)
  {
  }

  lemma TxStepDecreases(c: Job, e: TxEnd)
    requires TxOk(c, e.tx) && !e.tx.pc.Done?
    ensures TxOk(c, TxStep(c, e).tx)
    ensures 0 <= TxMeasure(c, TxStep(c, e).tx) < TxMeasure(c, e.tx)
  {
    hide TxFetch, TxSend, TxReceive;
    var t, w := e.tx, e.wire;
    match t.pc
    case Begin =>
    case Fetch => TxFetchDecreases(c, t, w.Fault());
    case Send => TxSendDecreases(c, t, w.Fault());
    case Wait => TxReceiveDecreases(c, t, w.Incoming());
  }

  /** The whole run, which ends whatever the system answers. */
  ghost function TxRun(c: Job, e: TxEnd): (r: TxEnd)
    requires TxOk(c, e.tx)
    ensures r.tx.pc.Done?
    decreases TxMeasure(c, e.tx)
  {
    if e.tx.pc.Done? then e else
      TxStepDecreases(c, e);
      TxRun(c, TxStep(c, e))
  }

  /** `TxRun` unfolded once, for proofs that hide its definition. */
  lemma TxRunStep(c: Job, e: TxEnd)
    requires TxOk(c, e.tx)
    ensures TxOk(c, TxStep(c, e).tx) && TxRun(c, TxStep(c, e)) == TxRun(c, e)
    ensures TxStep(c, e).tx.pc.Done? ==> TxRun(c, e) == TxStep(c, e)
    ensures e.tx.pc.Done? ==> TxRun(c, e) == e
  {
    if !e.tx.pc.Done? {
      TxStepDecreases(c, e);
    }
  }

  // ---------- What goes onto the wire ----------

  ghost function Copies(p: Packet, n: nat): seq<Packet> {
    seq(n, _ => p)
  }

  /** Block 1 sent counts[0] times, then block 2 sent counts[1] times, and so on. */
  ghost function Traffic(c: Job, counts: seq<nat>): seq<Packet> {
    var n := |counts|;
    if n == 0 then [] else
      Traffic(c, counts[..n - 1]) + Copies(DataPacket(Wrap(n), Block(c, n)), counts[n - 1])
  }

  ghost predicate Attempts(counts: seq<nat>, low: nat) {
    forall j :: 0 <= j < |counts| ==> low <= counts[j] <= MAX_RETRY_COUNT
  }

  lemma {:induction false} TrafficVolume(c: Job, counts: seq<nat>)
    requires Attempts(counts, 0)
    ensures |Traffic(c, counts)| <= MAX_RETRY_COUNT * |counts|
    ensures Attempts(counts, 1) ==> |counts| <= |Traffic(c, counts)|
  {
    if counts != [] {
      TrafficVolume(c, counts[..|counts| - 1]);
    }
  }

  /** The answer carries the number of block `i`. */
  predicate AcksBlock(i: nat, r: Recv) {
    r.Datagram? && r.packet.opcode == ACK && r.packet.word == Wrap(i)
  }

  predicate Useless(i: nat, answers: seq<Recv>) {
    forall r :: r in answers ==> !AcksBlock(i, r)
  }

  /** Behind `past`, one answer came for each packet sent: for every block some without its number
      and then one with it, or five without it. */
  ghost predicate Settled(past: seq<Recv>, counts: seq<nat>, heard: seq<Recv>)
    decreases |counts|
  {
    if counts == [] then heard == past else
      var n, k, m := |counts|, counts[|counts| - 1], |heard| - 1;
      && 1 <= k <= |heard|
      && Settled(past, counts[..n - 1], heard[..m + 1 - k])
      && Useless(n, heard[m + 1 - k..m])
      && (AcksBlock(n, heard[m]) || (k == MAX_RETRY_COUNT && Useless(n, heard[m..])))
  }

  lemma {:induction false} SettledVolume(c: Job, past: seq<Recv>, counts: seq<nat>, heard: seq<Recv>)
    requires Settled(past, counts, heard)
    ensures |heard| == |past| + |Traffic(c, counts)| && past <= heard
    decreases |counts|
  {
    if counts != [] {
      var n, k := |counts|, counts[|counts| - 1];
      SettledVolume(c, past, counts[..n - 1], heard[..|heard| - k]);
    }
  }

  lemma {:induction false} SettledCounts(past: seq<Recv>, counts: seq<nat>, heard: seq<Recv>)
    requires Settled(past, counts, heard) && Attempts(counts, 0)
    ensures Attempts(counts, 1)
    decreases |counts|
  {
    if counts != [] {
      SettledCounts(past, counts[..|counts| - 1], heard[..|heard| - counts[|counts| - 1]]);
    }
  }

  /** Without a single ACK, every block takes five packets. */
  lemma {:induction false} SettledInSilence(past: seq<Recv>, counts: seq<nat>, heard: seq<Recv>)
    requires Settled(past, counts, heard) && forall r :: r in heard ==> !r.Datagram?
    ensures forall j :: 0 <= j < |counts| ==> counts[j] == MAX_RETRY_COUNT
    decreases |counts|
  {
    if counts != [] {
      SettledInSilence(past, counts[..|counts| - 1], heard[..|heard| - counts[|counts| - 1]]);
    }
  }

  /** The blocks before the one under way are settled, and it has had `tries` useless answers. */
  ghost predicate UnderWay(past: seq<Recv>, counts: seq<nat>, heard: seq<Recv>, tries: nat) {
    var n := |counts|;
    && n > 0 && tries <= |heard|
    && Settled(past, counts[..n - 1], heard[..|heard| - tries])
    && Useless(n, heard[|heard| - tries..])
  }

  /** The block under way has been sent once for each useless answer, and once more while its reply
      is awaited. */
  ghost predicate Tally(t: Tx, past: seq<Recv>, counts: seq<nat>, heard: seq<Recv>) {
    if t.pc.Send? || t.pc.Wait? then
      && UnderWay(past, counts, heard, t.resend)
      && counts[|counts| - 1] == (if t.pc.Send? then t.resend else t.resend + 1)
    else t.pc != Done(false) ==> Settled(past, counts, heard)
  }

  /** A transmitter that has so far sent `counts[j]` times block `j + 1`, having heard `past` before
      its start. */
  ghost predicate TrafficInv(c: Job, e: TxEnd, past: seq<Recv>, counts: seq<nat>) {
    && TxInv(c, e.tx, |counts|)
    && Attempts(counts, 0)
    && Tally(e.tx, past, counts, e.wire.heard)
    && (e.wire.sent == Traffic(c, counts)
        || (e.tx.pc == Done(false) && e.wire.sent == Traffic(c, counts) + [ErrorPacket()]))
  }

  lemma FetchTally(past: seq<Recv>, counts: seq<nat>, heard: seq<Recv>)
    requires Settled(past, counts, heard)
    ensures UnderWay(past, counts + [0], heard, 0)
  {
    hide Settled;
    assert (counts + [0])[..|counts|] == counts && heard[..|heard|] == heard;
  }

  lemma FetchTraffic(c: Job, e: TxEnd, past: seq<Recv>, counts: seq<nat>)
    requires e.tx.pc.Fetch? && TrafficInv(c, e, past, counts)
    ensures TrafficInv(c, TxStep(c, e), past, if e.wire.Fault() then counts else counts + [0])
  {
    hide Settled, UnderWay, Block;
    var n := |counts|;
    TxFetchKeeps(c, e.tx, n, e.wire.Fault());
    if !e.wire.Fault() {
      FetchTally(past, counts, e.wire.heard);
      var counts' := counts + [0];
      assert counts'[..n] == counts;
      assert Copies(DataPacket(Wrap(n + 1), Block(c, n + 1)), 0) == [];
      assert TxStep(c, e).wire.sent == Traffic(c, counts');
    }
  }

  lemma SendTally(c: Job, past: seq<Recv>, counts: seq<nat>, heard: seq<Recv>, tries: nat)
    requires UnderWay(past, counts, heard, tries)
    ensures var n := |counts|;
      var counts' := counts[n - 1 := counts[n - 1] + 1];
      && UnderWay(past, counts', heard, tries)
      && Traffic(c, counts') == Traffic(c, counts) + [DataPacket(Wrap(n), Block(c, n))]
  {
    hide Settled, Useless, Block, Wrap;
    var n := |counts|;
    var counts' := counts[n - 1 := counts[n - 1] + 1];
    assert counts'[..n - 1] == counts[..n - 1];
    var p := DataPacket(Wrap(n), Block(c, n));
    assert Copies(p, counts'[n - 1]) == Copies(p, counts[n - 1]) + [p];
  }

  lemma SendTraffic(c: Job, e: TxEnd, past: seq<Recv>, counts: seq<nat>)
    requires e.tx.pc.Send? && TrafficInv(c, e, past, counts)
    ensures var n := |counts|; TrafficInv(c, TxStep(c, e), past,
      if e.wire.Fault() then counts else counts[n - 1 := counts[n - 1] + 1])
  {
    hide UnderWay, Traffic, Settled;
    TxSendKeeps(c, e.tx, |counts|, e.wire.Fault());
    SendTally(c, past, counts, e.wire.heard, e.tx.resend);
  }

  lemma AnswerTally(past: seq<Recv>, counts: seq<nat>, heard: seq<Recv>, tries: nat, r: Recv)
    requires UnderWay(past, counts, heard, tries) && counts[|counts| - 1] == tries + 1
    ensures !AcksBlock(|counts|, r) ==> UnderWay(past, counts, heard + [r], tries + 1)
    ensures AcksBlock(|counts|, r) || tries + 1 == MAX_RETRY_COUNT ==> Settled(past, counts, heard + [r])
  {
    var m := |heard| - tries;
    assert (heard + [r])[..m] == heard[..m];
    assert (heard + [r])[m..] == heard[m..] + [r];
    assert (heard + [r])[m..|heard|] == heard[m..] && (heard + [r])[|heard|..] == [r];
  }

  lemma TxInvReads(c: Job, t: Tx, i: nat)
    requires TxInv(c, t, i)
    ensures t.block == Wrap(i) && t.offset <= |c.file|
  {
  }

  lemma ReceiveTraffic(c: Job, e: TxEnd, past: seq<Recv>, counts: seq<nat>)
    requires e.tx.pc.Wait? && TrafficInv(c, e, past, counts)
    ensures TrafficInv(c, TxStep(c, e), past, counts)
  {
    hide TxInv, UnderWay, Settled, Traffic, Wrap;
    var n, r := |counts|, e.wire.Incoming();
    TxInvReads(c, e.tx, n);
    var e' := TxStep(c, e);
    TxReceiveKeeps(c, e.tx, n, r);
    AnswerTally(past, counts, e.wire.heard, e.tx.resend, r);
    assert e'.wire.heard == e.wire.heard + [r];
  }

  lemma TxStepTraffic(c: Job, e: TxEnd, past: seq<Recv>, counts: seq<nat>) returns (counts': seq<nat>)
    requires !e.tx.pc.Done? && TrafficInv(c, e, past, counts)
    ensures TrafficInv(c, TxStep(c, e), past, counts')
    ensures counts' == counts || (e.tx.pc.Fetch? && counts' == counts + [0])
         || (e.tx.pc.Send? && counts' == counts[|counts| - 1 := counts[|counts| - 1] + 1])
  {
    counts' := counts;
    match e.tx.pc {
      case Begin =>
        assert e.wire.sent + [] == e.wire.sent;
      case Fetch =>
        FetchTraffic(c, e, past, counts);
        counts' := if e.wire.Fault() then counts else counts + [0];
      case Send =>
        SendTraffic(c, e, past, counts);
        counts' := if e.wire.Fault() then counts else counts[|counts| - 1 := counts[|counts| - 1] + 1];
      case Wait =>
        ReceiveTraffic(c, e, past, counts);
    }
  }

  lemma {:induction false} TxRunTraffic(c: Job, e: TxEnd, past: seq<Recv>, counts: seq<nat>) returns (final: seq<nat>)
    requires TxOk(c, e.tx) && TrafficInv(c, e, past, counts)
    ensures TrafficInv(c, TxRun(c, e), past, final)
    decreases TxMeasure(c, e.tx)
  {
    if e.tx.pc.Done? {
      final := counts;
    } else {
      var counts' := TxStepTraffic(c, e, past, counts);
      TxStepDecreases(c, e);
      final := TxRunTraffic(c, TxStep(c, e), past, counts');
    }
  }

  // ---------- What a listener can read off the wire ----------

  /** The bodies of a packet sequence, leaving out every packet equal to the one before it. */
  function Unrepeated(packets: seq<Packet>): seq<seq<byte>> {
    var n := |packets|;
    if n == 0 then [] else
      var before := Unrepeated(packets[..n - 1]);
      if n > 1 && packets[n - 2] == packets[n - 1] then before else before + [packets[n - 1].body]
  }

  lemma {:induction false} UnrepeatedCopies(packets: seq<Packet>, p: Packet, n: nat)
    requires packets == [] || packets[|packets| - 1] != p
    requires 1 <= n
    ensures Unrepeated(packets + Copies(p, n)) == Unrepeated(packets) + [p.body]
  {
    var all := packets + Copies(p, n);
    assert all[..|all| - 1] == packets + Copies(p, n - 1);
    if n == 1 {
      assert packets + Copies(p, 0) == packets;
    } else {
      UnrepeatedCopies(packets, p, n - 1);
    }
  }

  lemma TrafficEnd(c: Job, counts: seq<nat>)
    requires counts != [] && 1 <= counts[|counts| - 1]
    ensures var n, packets := |counts|, Traffic(c, counts);
      packets != [] && packets[|packets| - 1] == DataPacket(Wrap(n), Block(c, n))
  {
  }

  /** Segmentation and conservation: taking every block once, in the order of its first sending,
      gives back exactly the blocks of the file. */
  lemma {:induction false} TrafficCarriesFile(c: Job, counts: seq<nat>)
    requires Attempts(counts, 1)
    ensures Unrepeated(Traffic(c, counts)) == FirstBlocks(c, |counts|)
    ensures |counts| == BlockCount(c) ==> Concat(Unrepeated(Traffic(c, counts))) == c.file
  {
    hide Wrap, Block, BlockCount, Concat;
    var n := |counts|;
    if n > 0 {
      var packets, p := Traffic(c, counts[..n - 1]), DataPacket(Wrap(n), Block(c, n));
      TrafficCarriesFile(c, counts[..n - 1]);
      if n > 1 {
        TrafficEnd(c, counts[..n - 1]);
        NextNumber(n - 1);
      }
      UnrepeatedCopies(packets, p, counts[n - 1]);
      assert FirstBlocks(c, n) == FirstBlocks(c, n - 1) + [Block(c, n)];
    }
    if n == BlockCount(c) {
      BlocksRebuildFile(c, n);
    }
  }

  // ---------- The verdict ----------

  /** The answers of `recvfrom` on which the transmitter gives up. An ERROR packet is not one. */
  predicate Fatal(r: Recv) {
    r.Failed? || (r.Datagram? && r.packet.opcode == SWAPPED_ERROR)
  }

  /** No fault has struck, and no answer from number `past` on is fatal. */
  ghost predicate Clean(past: nat, w: Wire) {
    !w.faulted && past <= |w.heard| && forall i :: past <= i < |w.heard| ==> !Fatal(w.heard[i])
  }

  lemma TxStepVerdict(c: Job, e: TxEnd, past: nat)
    requires TxOk(c, e.tx) && !e.tx.pc.Done? && Clean(past, e.wire)
    ensures var e' := TxStep(c, e);
      Follows(e.wire, e'.wire) && (e'.tx.pc != Done(false) <==> Clean(past, e'.wire))
  {
    var e' := TxStep(c, e);
    assert e.tx.pc.Wait? ==> e'.wire.heard[|e.wire.heard|] == e.wire.Incoming();
  }

  /** The verdict is false exactly when a fault has struck or a fatal answer was given. An
      acknowledgement is never needed for it. */
  lemma {:induction false} TxVerdict(c: Job, e: TxEnd, past: nat)
    requires TxOk(c, e.tx) && (e.tx.pc != Done(false) <==> Clean(past, e.wire))
    ensures var e' := TxRun(c, e);
      && Follows(e.wire, e'.wire) && |e.wire.heard| <= |e'.wire.heard|
      && (e'.tx.pc == Done(true) <==> Clean(past, e'.wire))
    decreases TxMeasure(c, e.tx)
  {
    if !e.tx.pc.Done? {
      TxStepVerdict(c, e, past);
      TxStepDecreases(c, e);
      TxVerdict(c, TxStep(c, e), past);
    }
  }

  // ---------- Who is told ----------

  /** How many ERROR packets there are. */
  function Errors(packets: seq<Packet>): nat {
    var n := |packets|;
    if n == 0 then 0 else Errors(packets[..n - 1]) + if packets[n - 1].opcode == ERROR then 1 else 0
  }

  lemma ErrorsGrow(packets: seq<Packet>, p: Packet)
    ensures Errors(packets + [p]) == Errors(packets) + if p.opcode == ERROR then 1 else 0
  {
    assert (packets + [p])[..|packets|] == packets;
  }

  /** The transmitter found a reason of its own to give up: a fault, or a failing `recvfrom`. */
  ghost predicate OwnFailure(past: nat, w: Wire) {
    w.faulted || exists i :: past <= i < |w.heard| && w.heard[i].Failed?
  }

  lemma TxStepTold(c: Job, e: TxEnd, past: nat)
    requires TxOk(c, e.tx) && !e.tx.pc.Done? && Clean(past, e.wire)
    ensures var e' := TxStep(c, e);
      Errors(e'.wire.sent) == Errors(e.wire.sent) + if OwnFailure(past, e'.wire) then 1 else 0
  {
    hide Errors, Leave, Retry;
    ErrorsGrow(e.wire.sent, ErrorPacket());
    ErrorsGrow(e.wire.sent, DataPacket(e.tx.block, e.tx.buffer));
    var e' := TxStep(c, e);
    assert e.tx.pc.Wait? ==> e'.wire.heard[|e.wire.heard|] == e.wire.Incoming();
  }

  /** A transmitter that gives up on a fault or a failing `recvfrom` tells its peer, with exactly one
      ERROR packet; one that is told to, by opcode 0x0500, and one that succeeds send none. */
  lemma {:induction false} TxTold(c: Job, e: TxEnd, past: nat)
    requires TxOk(c, e.tx) && Clean(past, e.wire)
    ensures var e' := TxRun(c, e);
      Errors(e'.wire.sent) == Errors(e.wire.sent) + if OwnFailure(past, e'.wire) then 1 else 0
    decreases TxMeasure(c, e.tx)
  {
    hide Errors, OwnFailure;
    if e.tx.pc.Done? {
      assert !OwnFailure(past, e.wire) by {
        CleanIsNoFailure(past, e.wire);
      }
    } else {
      TxStepVerdict(c, e, past);
      TxStepTold(c, e, past);
      TxStepDecreases(c, e);
      if TxStep(c, e).tx.pc != Done(false) {
        CleanIsNoFailure(past, TxStep(c, e).wire);
        TxTold(c, TxStep(c, e), past);
      }
    }
  }

  lemma CleanIsNoFailure(past: nat, w: Wire)
    requires Clean(past, w)
    ensures !OwnFailure(past, w)
  {
  }

  lemma {:induction false} TrafficHasNoError(c: Job, counts: seq<nat>)
    ensures Errors(Traffic(c, counts)) == 0
  {
    if counts != [] {
      var n := |counts|;
      TrafficHasNoError(c, counts[..n - 1]);
      CopiesHaveNoError(Traffic(c, counts[..n - 1]), DataPacket(Wrap(n), Block(c, n)), counts[n - 1]);
    }
  }

  lemma {:induction false} CopiesHaveNoError(before: seq<Packet>, p: Packet, n: nat)
    requires p.opcode != ERROR
    ensures Errors(before + Copies(p, n)) == Errors(before)
    decreases n
  {
    if n == 0 {
      assert before + Copies(p, 0) == before;
    } else {
      assert before + Copies(p, n) == before + Copies(p, n - 1) + [p];
      ErrorsGrow(before + Copies(p, n - 1), p);
      CopiesHaveNoError(before, p, n - 1);
    }
  }

  /** What a transmission has put onto the wire, behind the first `past` answers: some first blocks of
      the file, each at most five times, all of them if nothing went wrong, and one ERROR if it was
      the transmitter that gave up. */
  ghost predicate Carried(c: Job, past: nat, w: Wire, counts: seq<nat>) {
    && |counts| <= BlockCount(c) && Attempts(counts, 0)
    && w.sent == Traffic(c, counts) + (if OwnFailure(past, w) then [ErrorPacket()] else [])
    && |w.sent| <= MAX_RETRY_COUNT * BlockCount(c) + 1
    && (Clean(past, w) ==> |counts| == BlockCount(c) && Attempts(counts, 1))
  }

  /** A transmission against any peer and any faults sends the blocks in order, each at most five
      times. One that returns true, which it does exactly if no fault has struck and no answer was
      fatal, has sent every block and waited for one answer to each packet: for every block in turn it
      has gone on after the first with the block's number, or after five without it. Its byte count is
      the file's size however often blocks were sent again. One that returns false has told its peer
      by one ERROR packet, unless it was told itself. */
  lemma Transmission(c: Job, w: Wire) returns (counts: seq<nat>)
    requires w.sent == [] && !w.faulted
    ensures var e, past := TxRun(c, TxEnd(TX_START, w)), |w.heard|;
      && e.tx.pc.Done?
      && Carried(c, past, e.wire, counts)
      && (e.tx.pc == Done(true) <==> Clean(past, e.wire))
      && (e.tx.pc == Done(true) <==>
            !e.wire.faulted && forall i :: past <= i < |e.wire.heard| ==>
              var r := e.wire.heard[i]; !r.Failed? && !(r.Datagram? && r.packet.opcode == 0x0500))
      && (e.wire.sent == Traffic(c, counts) + [ErrorPacket()] <==>
            e.wire.faulted || exists i :: past <= i < |e.wire.heard| && e.wire.heard[i].Failed?)
      && (e.tx.pc == Done(true) ==>
            && Settled(w.heard, counts, e.wire.heard)
            && e.wire.sent == Traffic(c, counts) && |e.wire.heard| == past + |e.wire.sent|
            && BlockCount(c) <= |e.wire.sent| <= MAX_RETRY_COUNT * BlockCount(c)
            && e.tx.total == |c.file|)
  {
    hide TxRun, Errors;
    var e0 := TxEnd(TX_START, w);
    var e, past := TxRun(c, e0), |w.heard|;
    counts := TxRunTraffic(c, e0, w.heard, []);
    TrafficVolume(c, counts);
    TxVerdict(c, e0, past);
    TxTold(c, e0, past);
    TrafficHasNoError(c, counts);
    ErrorsGrow(Traffic(c, counts), ErrorPacket());
    NoErrors();
    assert Traffic(c, counts) + [] == Traffic(c, counts);
    assert |Traffic(c, counts) + [ErrorPacket()]| == |Traffic(c, counts)| + 1;
    if e.tx.pc == Done(true) {
      CleanIsNoFailure(past, e.wire);
      SettledVolume(c, w.heard, counts, e.wire.heard);
      SettledCounts(w.heard, counts, e.wire.heard);
    }
  }

  lemma NoErrors()
    ensures Errors([]) == 0
  {
  }

  lemma NothingHeard(w: Wire)
    requires Follows(Fresh([], []), w)
    ensures Clean(0, w) && forall r :: r in w.heard ==> !r.Datagram?
  {
    assert forall i :: 0 <= i < |w.heard| ==> w.heard[i] in w.heard;
  }

  /** That the last block was acknowledged does not follow from a true verdict: with no fault and
      nothing received at all, every block is sent five times and the verdict is true. */
  lemma SilenceIsSuccess(c: Job) returns (counts: seq<nat>)
    ensures var e := TxRun(c, TxEnd(TX_START, Fresh([], [])));
      && e.tx.pc == Done(true)
      && e.wire.sent == Traffic(c, counts)
      && |counts| == BlockCount(c)
      && forall j :: 0 <= j < |counts| ==> counts[j] == MAX_RETRY_COUNT
  {
    hide TxRun;
    var e := TxEnd(TX_START, Fresh([], []));
    TxVerdict(c, e, 0);
    NothingHeard(TxRun(c, e).wire);
    counts := Transmission(c, Fresh([], []));
    SettledInSilence([], counts, TxRun(c, e).wire.heard);
  }
}
