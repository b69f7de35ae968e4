/** The receiving side as an automaton, one step for each call it makes into the system, and what
    every run of it does. */
module Receiver {
  import opened Common
  import opened Packets
  import opened Link
  import opened Segmentation

  /** Where in `tftp_receive_file` the receiver stands: at its entry, at the head of the do loop,
      in `recvfrom`, or returned. */
  datatype RxPc = Begin | Check | Wait | Done(ok: bool)

  /** The receiver's fields and locals; `written` is the content of its file. */
  datatype Rx = Rx(
    pc: RxPc,
    block: uint16,
    prev: uint16,
    resend: nat,
    bytesReceived: int,
    written: seq<byte>)

  const RX_START := Rx(Begin, 0, 0, 0, 0, [])

  /** What the receiver knows of the job. */
  datatype Sink = Sink(blockSize: BlockSize, acceptEmpty: bool)

  function Abort(r: Rx): (Rx, seq<Packet>) {
    (r.(pc := Done(false)), [ErrorPacket()])
  }

  function RxBegin(r: Rx, fault: bool): (Rx, seq<Packet>) {
    if fault then Abort(r) else (r.(pc := Check, block := 1, prev := 0), [])
  }

  function RxCheck(r: Rx, fault: bool): (Rx, seq<Packet>) {
    if fault then Abort(r) else (r.(pc := Wait), [])
  }

  /** `recvfrom` cuts a datagram off at the size of the packet buffer. */
  function Payload(k: Sink, p: Packet): seq<byte> {
    p.body[..Min(|p.body|, k.blockSize)]
  }

  predicate Matches(r: Rx, p: Packet) {
    p.opcode == DATA && p.word == r.block
  }

  /** Writing the data of the expected block. `fwrite` reports 0 bytes for an empty block, which
      the program takes for a failure. */
  function RxWrite(k: Sink, r: Rx, data: seq<byte>, fault: bool): (Rx, seq<Packet>) {
    if fault || (data == [] && !k.acceptEmpty) then Abort(r.(bytesReceived := HEADER + |data|)) else
      (Rx(if |data| == k.blockSize then Check else Done(true),
       Wrap(r.block + 1), Wrap(r.prev + 1), 0, HEADER + |data|, r.written + data),
       [AckPacket(r.block)])
  }

  function RxReceive(k: Sink, r: Rx, answer: Recv, fault: bool): (Rx, seq<Packet>) {
    if answer.Datagram? then
      var p := answer.packet;
      if p.opcode == ERROR then (r.(pc := Done(false), bytesReceived := HEADER + |Payload(k, p)|), [])
      else if Matches(r, p) then RxWrite(k, r, Payload(k, p), fault)
      else (r.(bytesReceived := HEADER + |Payload(k, p)|), [])
    else if r.resend < MAX_RETRY_COUNT then (r.(resend := r.resend + 1, bytesReceived := -1), [])
    else Abort(r.(bytesReceived := -1))
  }

  /** What holds of a receiver that has accepted `n` blocks; in particular the previous block
      number is always one behind the current one. */
  ghost predicate RxInv(r: Rx, n: nat) {
    && r.resend <= MAX_RETRY_COUNT
    && (r.pc == Begin ==> r == RX_START && n == 0)
    && (r.pc.Check? || r.pc.Wait? || r.pc == Done(true) ==> r.block == Wrap(n + 1) && r.prev == Wrap(n))
  }

  /** A receiver and the system it runs in. */
  datatype RxEnd = RxEnd(rx: Rx, wire: Wire)

  function Emitted(r: (Rx, seq<Packet>), w: Wire): RxEnd {
    RxEnd(r.0, w.Emit(r.1))
  }

  /** One step against the answers of the system; only `fwrite` and the termination flag can fault. */
  function RxStep(k: Sink, e: RxEnd): RxEnd {
    var r, w := e.rx, e.wire;
    match r.pc
    case Begin => Emitted(RxBegin(r, w.Fault()), w.Polled())
    case Check => Emitted(RxCheck(r, w.Fault()), w.Polled())
    case Wait =>
      var answer := w.Incoming();
      var w' := w.Received();
      var writes := answer.Datagram? && answer.packet.opcode != ERROR && Matches(r, answer.packet);
      Emitted(RxReceive(k, r, answer, w.Fault()), if writes then w'.Polled() else w')
    case Done(_) => e
  }

  /** What the step from `r` to `r'` has accepted: only an accepted block moves the number on. */
  predicate Advances(r: Rx, r': Rx) {
    r.pc.Wait? && r'.block != r.block
  }

  /** A datagram that changes nothing: neither ERROR nor the block waited for. */
  predicate Stray(r: Rx, p: Packet) {
    p.opcode != ERROR && !Matches(r, p)
  }

  /** How many steps a receiver takes that hears no datagram any more. */
  function Patience(r: Rx): nat {
    var left := if r.resend < MAX_RETRY_COUNT then MAX_RETRY_COUNT - r.resend else 0;
    match r.pc
    case Begin => left + 3
    case Check => left + 2
    case Wait => left + 1
    case Done(_) => 0
  }

  const FULL_PATIENCE := MAX_RETRY_COUNT + 3

  /** Datagrams still to come and, between them, the steps without any. */
  ghost function RxMeasure(e: RxEnd): nat {
    if e.rx.pc.Done? then 0 else 10 * |e.wire.inbox| + Patience(e.rx)
  }

  /** Every step uses up patience, except that a stray datagram costs none and an accepted block
      renews it; so against finitely many datagrams the loop ends. */
  lemma RxStepDecreases(k: Sink, e: RxEnd)
    requires !e.rx.pc.Done?
    ensures RxMeasure(RxStep(k, e)) < RxMeasure(e)
    ensures var r, a := e.rx, e.wire.Incoming();
      Patience(RxStep(k, e).rx) < Patience(r)
        + (if r.pc.Wait? && a.Datagram? && Stray(r, a.packet) then 1
           else if Advances(r, RxStep(k, e).rx) then FULL_PATIENCE else 0)
  {
  }

  /** The whole run, which ends because only finitely many datagrams arrive. */
  ghost function RxRun(k: Sink, e: RxEnd): (e': RxEnd)
    ensures e'.rx.pc.Done?
    decreases RxMeasure(e)
  {
    if e.rx.pc.Done? then e else
      RxStepDecreases(k, e);
      RxRun(k, RxStep(k, e))
  }

  /** `RxRun` unfolded once, for proofs that hide its definition. */
  lemma RxRunStep(k: Sink, e: RxEnd)
    ensures RxRun(k, RxStep(k, e)) == RxRun(k, e)
    ensures RxStep(k, e).rx.pc.Done? ==> RxRun(k, e) == RxStep(k, e)
    ensures e.rx.pc.Done? ==> RxRun(k, e) == e
  {
    if !e.rx.pc.Done? {
      RxStepDecreases(k, e);
    }
  }

  // ---------- Acceptance and acknowledgement ----------

  /** How often `recvfrom` has failed. */
  function Timeouts(answers: seq<Recv>): nat {
    if answers == [] then 0 else (if answers[0].Datagram? then 0 else 1) + Timeouts(answers[1..])
  }

  lemma {:induction false} TimeoutsGrow(answers: seq<Recv>, a: Recv)
    ensures Timeouts(answers + [a]) == Timeouts(answers) + if a.Datagram? then 0 else 1
  {
    if answers == [] {
      assert [a][1..] == [];
    } else {
      assert (answers + [a])[1..] == answers[1..] + [a];
      TimeoutsGrow(answers[1..], a);
    }
  }

  /** ACK 1, ACK 2, ... ACK n, in 16-bit numbers. */
  function Acks(n: nat): seq<Packet> {
    seq(n, i requires 0 <= i => AckPacket(Wrap(i + 1)))
  }

  predicate IsData(a: Recv) {
    a.Datagram? && a.packet.opcode == DATA
  }

  /** How many DATA datagrams `recvfrom` has returned. */
  function DataHeard(heard: seq<Recv>): nat {
    if heard == [] then 0 else DataHeard(heard[..|heard| - 1]) + if IsData(heard[|heard| - 1]) then 1 else 0
  }

  /** The chunks came in this order, each in a datagram of its own, at these positions among the
      answers, with the number its place calls for. */
  ghost predicate InOrder(k: Sink, chunks: seq<seq<byte>>, heard: seq<Recv>, at: seq<nat>) {
    && |at| == |chunks|
    && (forall i :: 0 <= i < |at| ==> at[i] < |heard| && CameIn(k, heard[at[i]], i + 1, chunks[i]))
    && (forall i, j :: 0 <= i < j < |at| ==> at[i] < at[j])
  }

  predicate CameIn(k: Sink, a: Recv, i: nat, data: seq<byte>) {
    IsData(a) && a.packet.word == Wrap(i) && Payload(k, a.packet) == data
  }

  lemma InOrderGrows(k: Sink, chunks: seq<seq<byte>>, heard: seq<Recv>, at: seq<nat>, a: Recv)
    requires InOrder(k, chunks, heard, at)
    ensures InOrder(k, chunks, heard + [a], at)
    ensures IsData(a) && a.packet.word == Wrap(|chunks| + 1) ==>
      InOrder(k, chunks + [Payload(k, a.packet)], heard + [a], at + [|heard|])
  {
    hide Payload, Wrap;
  }

  /** So there are at most as many chunks as DATA datagrams. */
  lemma {:induction false} InOrderCounts(k: Sink, chunks: seq<seq<byte>>, heard: seq<Recv>, at: seq<nat>)
    requires InOrder(k, chunks, heard, at)
    ensures |chunks| <= DataHeard(heard)
    decreases |heard|
  {
    hide Payload, Wrap;
    if chunks != [] {
      var n, m := |chunks| - 1, |heard| - 1;
      if at[n] == m {
        InOrderCounts(k, chunks[..n], heard[..m], at[..n]);
      } else {
        InOrderCounts(k, chunks, heard[..m], at);
      }
    }
  }

  /** All chunks but the last are full, and empty ones need the variant. */
  predicate Shape(k: Sink, chunks: seq<seq<byte>>) {
    && (forall i :: 0 <= i < |chunks| ==> |chunks[i]| <= k.blockSize && (chunks[i] != [] || k.acceptEmpty))
    && (forall i :: 0 <= i < |chunks| - 1 ==> |chunks[i]| == k.blockSize)
  }

  predicate Complete(k: Sink, chunks: seq<seq<byte>>) {
    chunks != [] && |chunks[|chunks| - 1]| < k.blockSize
  }

  /** The answers behind the last accepted block begin here. */
  function Since(at: seq<nat>): nat {
    if at == [] then 0 else at[|at| - 1] + 1
  }

  ghost predicate ErrorHeard(heard: seq<Recv>) {
    exists i :: 0 <= i < |heard| && heard[i].Datagram? && heard[i].packet.opcode == ERROR
  }

  predicate Expected(a: Recv, i: nat) {
    IsData(a) && a.packet.word == Wrap(i)
  }

  /** The last answer is the block waited for, but empty, and the program cannot write it. */
  predicate Refused(k: Sink, heard: seq<Recv>, since: nat, i: nat) {
    && !k.acceptEmpty && since < |heard|
    && Expected(heard[|heard| - 1], i) && Payload(k, heard[|heard| - 1].packet) == []
  }

  /** A reason to return false: a fault, an ERROR, a sixth timeout since the last accepted block, or
      an empty block refused. */
  ghost predicate Doomed(k: Sink, w: Wire, since: nat, i: nat)
    requires since <= |w.heard|
  {
    || w.faulted
    || ErrorHeard(w.heard)
    || Timeouts(w.heard[since..]) == MAX_RETRY_COUNT + 1
    || Refused(k, w.heard, since, i)
  }

  /** A receiver returns false only for such a reason. Until then it has counted the timeouts since
      the last accepted block, and the block it waits for has not come. */
  ghost predicate Fate(k: Sink, e: RxEnd, since: nat, i: nat) {
    && since <= |e.wire.heard|
    && if e.rx.pc == Done(false) then Doomed(k, e.wire, since, i) else
         && !e.wire.faulted && !ErrorHeard(e.wire.heard)
         && Timeouts(e.wire.heard[since..]) == e.rx.resend
         && forall j :: since <= j < |e.wire.heard| ==> !Expected(e.wire.heard[j], i)
  }

  /** The packets of a receiver that has accepted `n` blocks: their ACKs, and one ERROR if it has
      given up without having been told to. */
  ghost predicate Sent(e: RxEnd, before: seq<Packet>, n: nat) {
    e.wire.sent == before + Acks(n)
                   + if e.rx.pc == Done(false) && !ErrorHeard(e.wire.heard) then [ErrorPacket()] else []
  }

  /** Having sent `before` at its start, the receiver has written exactly `chunks`, each taken from a
      datagram of its own with the number its place calls for, and has acknowledged each of them once
      and nothing else. */
  ghost predicate Accepted(k: Sink, e: RxEnd, before: seq<Packet>, chunks: seq<seq<byte>>, at: seq<nat>) {
    var n := |chunks|;
    && RxInv(e.rx, n)
    && e.rx.written == Concat(chunks)
    && InOrder(k, chunks, e.wire.heard, at)
    && Shape(k, chunks)
    && (e.rx.pc == Done(true) <==> Complete(k, chunks))
    && Sent(e, before, n)
    && Fate(k, e, Since(at), n + 1)
  }

  lemma ChunksGrow(k: Sink, chunks: seq<seq<byte>>, data: seq<byte>)
    requires Shape(k, chunks) && !Complete(k, chunks)
    requires |data| <= k.blockSize && (data != [] || k.acceptEmpty)
    ensures var chunks' := chunks + [data];
      && Shape(k, chunks')
      && (Complete(k, chunks') <==> |data| < k.blockSize)
      && Concat(chunks') == Concat(chunks) + data
  {
    hide Concat;
    ConcatGrows(chunks, data);
  }

  lemma ConcatGrows(chunks: seq<seq<byte>>, data: seq<byte>)
    ensures Concat(chunks + [data]) == Concat(chunks) + data
  {
    assert (chunks + [data])[..|chunks|] == chunks;
  }

  /** One more answer. */
  lemma HeardGrows(heard: seq<Recv>, a: Recv, since: nat)
    requires since <= |heard|
    ensures Timeouts((heard + [a])[since..]) == Timeouts(heard[since..]) + if a.Datagram? then 0 else 1
    ensures ErrorHeard(heard + [a]) <==> ErrorHeard(heard) || (a.Datagram? && a.packet.opcode == ERROR)
  {
    assert (heard + [a])[since..] == heard[since..] + [a];
    TimeoutsGrow(heard[since..], a);
    assert (heard + [a])[|heard|] == a;
    assert forall i :: 0 <= i < |heard| ==> (heard + [a])[i] == heard[i];
  }

  /** A step that accepts nothing. */
  lemma IdleFate(k: Sink, e: RxEnd, since: nat, n: nat)
    requires !e.rx.pc.Done? && Fate(k, e, since, n + 1) && RxInv(e.rx, n)
    requires e.rx.pc.Wait? ==> var a := e.wire.Incoming(); !(a.Datagram? && Matches(e.rx, a.packet))
    ensures Fate(k, RxStep(k, e), since, n + 1)
  {
    hide Timeouts, ErrorHeard, Payload, Wrap;
    var a, e' := e.wire.Incoming(), RxStep(k, e);
    HeardGrows(e.wire.heard, a, since);
    if e.rx.pc.Wait? {
      assert e'.wire.heard == e.wire.heard + [a];
      assert e.rx.block == Wrap(n + 1);
    }
  }

  lemma IdleSent(k: Sink, e: RxEnd, before: seq<Packet>, n: nat, since: nat)
    requires !e.rx.pc.Done? && Sent(e, before, n) && Fate(k, e, since, n + 1)
    requires e.rx.pc.Wait? ==> var a := e.wire.Incoming(); !(a.Datagram? && Matches(e.rx, a.packet))
    ensures Sent(RxStep(k, e), before, n)
  {
    hide Timeouts, ErrorHeard, Payload, Wrap, Acks;
    var a, e' := e.wire.Incoming(), RxStep(k, e);
    HeardGrows(e.wire.heard, a, since);
    assert e.wire.sent + [] == e.wire.sent;
  }

  /** The step at which the block waited for arrives: it is taken, unless a fault strikes or it is
      empty. */
  lemma MatchFate(k: Sink, e: RxEnd, before: seq<Packet>, since: nat, n: nat)
    requires e.rx.pc.Wait? && Fate(k, e, since, n + 1) && RxInv(e.rx, n) && Sent(e, before, n)
    requires var a := e.wire.Incoming(); a.Datagram? && Matches(e.rx, a.packet)
    ensures var e' := RxStep(k, e);
      if e'.rx.pc == Done(false) then Fate(k, e', since, n + 1) && Sent(e', before, n)
      else Fate(k, e', |e.wire.heard| + 1, n + 2) && Sent(e', before, n + 1)
  {
    hide Timeouts, ErrorHeard, Payload, Wrap, Acks;
    var a, e' := e.wire.Incoming(), RxStep(k, e);
    HeardGrows(e.wire.heard, a, since);
    assert e'.wire.heard == e.wire.heard + [a];
    assert e.rx.block == Wrap(n + 1);
    AcksGrow(n);
    NoTimeouts();
    assert before + Acks(n) + [] == before + Acks(n);
    assert before + (Acks(n) + [AckPacket(Wrap(n + 1))]) + [] == before + Acks(n) + [AckPacket(Wrap(n + 1))];
    assert e'.wire.heard[|e.wire.heard| + 1..] == [];
  }

  lemma AcksGrow(n: nat)
    ensures Acks(n + 1) == Acks(n) + [AckPacket(Wrap(n + 1))]
  {
  }

  lemma NoTimeouts()
    ensures Timeouts([]) == 0
  {
  }

  lemma RxWriteAccepts(k: Sink, e: RxEnd, before: seq<Packet>, chunks: seq<seq<byte>>, at: seq<nat>)
      returns (chunks': seq<seq<byte>>, at': seq<nat>)
    requires e.rx.pc.Wait? && Accepted(k, e, before, chunks, at)
    requires var a := e.wire.Incoming(); a.Datagram? && Matches(e.rx, a.packet)
    ensures Accepted(k, RxStep(k, e), before, chunks', at')
  {
    hide Wrap, InOrder, Shape, Complete, Concat, Fate, Sent;
    var a, e' := e.wire.Incoming(), RxStep(k, e);
    var data := Payload(k, a.packet);
    InOrderGrows(k, chunks, e.wire.heard, at, a);
    MatchFate(k, e, before, Since(at), |chunks|);
    assert e'.wire.heard == e.wire.heard + [a];
    if e'.rx.pc == Done(false) {
      chunks', at' := chunks, at;
    } else {
      chunks', at' := chunks + [data], at + [|e.wire.heard|];
      ChunksGrow(k, chunks, data);
      NextNumber(|chunks|);
      NextNumber(|chunks'|);
    }
  }

  lemma RxStepAccepts(k: Sink, e: RxEnd, before: seq<Packet>, chunks: seq<seq<byte>>, at: seq<nat>)
      returns (chunks': seq<seq<byte>>, at': seq<nat>)
    requires !e.rx.pc.Done? && Accepted(k, e, before, chunks, at)
    ensures Accepted(k, RxStep(k, e), before, chunks', at')
  {
    hide Wrap, InOrder, Shape, Complete, Concat, Acks, Fate, Sent;
    var a := e.wire.Incoming();
    if e.rx.pc.Wait? && a.Datagram? && Matches(e.rx, a.packet) {
      chunks', at' := RxWriteAccepts(k, e, before, chunks, at);
    } else {
      chunks', at' := chunks, at;
      StartKeepsNumber();
      InOrderGrows(k, chunks, e.wire.heard, at, a);
      IdleFate(k, e, Since(at), |chunks|);
      IdleSent(k, e, before, |chunks|, Since(at));
    }
  }

  /** The numbers a receiver starts with. */
  lemma StartKeepsNumber()
    ensures Wrap(0) == 0 && Wrap(1) == 1
  {
  }

  lemma {:induction false} RxRunAccepts(k: Sink, e: RxEnd, before: seq<Packet>, chunks: seq<seq<byte>>, at: seq<nat>)
      returns (chunks': seq<seq<byte>>, at': seq<nat>)
    requires Accepted(k, e, before, chunks, at)
    ensures Accepted(k, RxRun(k, e), before, chunks', at')
    decreases RxMeasure(e)
  {
    hide Accepted;
    if e.rx.pc.Done? {
      chunks', at' := chunks, at;
    } else {
      RxStepDecreases(k, e);
      chunks', at' := RxStepAccepts(k, e, before, chunks, at);
      chunks', at' := RxRunAccepts(k, RxStep(k, e), before, chunks', at');
    }
  }

  /** A reception from any peer, behind what was sent before it: every accepted block provokes exactly
      one ACK, its own, in order, and nothing else provokes any; each is a DATA datagram of its own,
      in order, so there are no more ACKs than DATA heard. The verdict is true exactly when a short
      block was accepted, and false exactly for a fault, an ERROR heard, a sixth timeout since the
      last accepted block, or an empty block refused; but for the ERROR heard, the peer is told by
      one ERROR packet. */
  lemma Reception(k: Sink, faults: seq<bool>, inbox: seq<Recv>, before: seq<Packet>)
      returns (chunks: seq<seq<byte>>, at: seq<nat>)
    ensures var e := RxRun(k, RxEnd(RX_START, Fresh(faults, inbox).Emit(before)));
      && Accepted(k, e, before, chunks, at)
      && e.rx.pc.Done?
      && (e.rx.pc == Done(false) <==> Doomed(k, e.wire, Since(at), |chunks| + 1))
      && e.wire.sent == before + Acks(|chunks|)
                        + (if e.rx.pc == Done(false) && !ErrorHeard(e.wire.heard) then [ErrorPacket()] else [])
      && |chunks| <= DataHeard(e.wire.heard)
  {
    var e0 := RxEnd(RX_START, Fresh(faults, inbox).Emit(before));
    assert before + [] + [] == before && [] + before == before;
    chunks, at := RxRunAccepts(k, e0, before, [], []);
    var e := RxRun(k, e0);
    InOrderCounts(k, chunks, e.wire.heard, at);
    if e.rx.pc != Done(false) {
      NotDoomed(k, e, chunks, at, before);
    }
  }

  lemma NotDoomed(k: Sink, e: RxEnd, chunks: seq<seq<byte>>, at: seq<nat>, before: seq<Packet>)
    requires Accepted(k, e, before, chunks, at) && e.rx.pc != Done(false)
    ensures !Doomed(k, e.wire, Since(at), |chunks| + 1)
  {
    hide Timeouts, ErrorHeard, Payload, InOrder, Shape, Complete, Concat, Sent, Wrap;
  }

  // ---------- Patience ----------

  ghost predicate OnlyStrays(r: Rx, answers: seq<Recv>) {
    forall a :: a in answers && a.Datagram? ==> Stray(r, a.packet)
  }

  /** The receiver after one useless answer: a timeout is counted, a stray datagram is not, and
      nothing is written or sent. */
  lemma UselessAnswer(k: Sink, e: RxEnd)
    requires e.rx.pc.Wait? && e.rx.resend <= MAX_RETRY_COUNT
    requires var a := e.wire.Incoming();
      if a.Datagram? then Stray(e.rx, a.packet) else e.rx.resend < MAX_RETRY_COUNT
    ensures var a, e' := e.wire.Incoming(), RxStep(k, e);
      && e'.rx == e.rx.(resend := e.rx.resend + Timeouts([a]), bytesReceived := e'.rx.bytesReceived)
      && e'.wire == e.wire.Received()
      && Timeouts(e'.wire.heard) == Timeouts(e.wire.heard) + Timeouts([a])
      && RxRun(k, e') == RxRun(k, e)
  {
    RxRunStep(k, e);
    TimeoutsGrow(e.wire.heard, e.wire.Incoming());
    assert [e.wire.Incoming()][1..] == [];
  }

  /** With `resend` timeouts already counted a waiting receiver bears 5 - resend more: however many
      stray datagrams come between them, it still waits for the same block, has written and sent
      nothing, and goes on with the answers behind them. */
  lemma {:induction false} RxBears(k: Sink, e: RxEnd, useless: seq<Recv>) returns (e': RxEnd)
    requires e.rx.pc.Wait? && useless <= e.wire.inbox && OnlyStrays(e.rx, useless)
    requires e.rx.resend + Timeouts(useless) <= MAX_RETRY_COUNT
    ensures e'.rx == e.rx.(resend := e.rx.resend + Timeouts(useless), bytesReceived := e'.rx.bytesReceived)
    ensures e'.wire == e.wire.(inbox := e.wire.inbox[|useless|..], heard := e.wire.heard + useless)
    ensures RxRun(k, e') == RxRun(k, e)
    decreases |useless|
  {
    hide RxRun;
    if useless == [] {
      e' := e;
    } else {
      assert e.wire.Incoming() == useless[0] && [useless[0]][1..] == [];
      UselessAnswer(k, e);
      hide RxStep;
      e' := RxBears(k, RxStep(k, e), useless[1..]);
    }
  }

  /** The sixth timeout since the last acceptance aborts the reception, however many stray datagrams
      have come between them and whatever comes after it; and if nothing but strays and silence is
      to come, it does happen. Nothing is written and no ACK is sent again. */
  lemma {:induction false} RxPatience(k: Sink, e: RxEnd, useless: seq<Recv>)
    requires e.rx.pc.Wait? && e.rx.resend <= MAX_RETRY_COUNT
    requires useless <= e.wire.inbox && OnlyStrays(e.rx, useless)
    requires e.rx.resend + Timeouts(useless) > MAX_RETRY_COUNT || useless == e.wire.inbox
    ensures var e' := RxRun(k, e);
      && e'.rx.pc == Done(false)
      && e'.rx.written == e.rx.written
      && e'.wire.sent == e.wire.sent + [ErrorPacket()]
      && Timeouts(e'.wire.heard) == Timeouts(e.wire.heard) + MAX_RETRY_COUNT + 1 - e.rx.resend
    decreases |useless|, MAX_RETRY_COUNT - e.rx.resend
  {
    hide RxRun;
    var a := e.wire.Incoming();
    assert useless != [] ==> a == useless[0];
    assert [a][1..] == [];
    if a.Datagram? || e.rx.resend < MAX_RETRY_COUNT {
      UselessAnswer(k, e);
      hide RxStep;
      RxPatience(k, RxStep(k, e), if useless == [] then [] else useless[1..]);
    } else {
      RxRunStep(k, e);
      TimeoutsGrow(e.wire.heard, a);
    }
  }

  /** An ERROR ends the reception at once, whatever strays and up to five timeouts come before it and
      whatever comes after: nothing more is heard, and nothing written or sent. */
  lemma ErrorEnds(k: Sink, e: RxEnd, useless: seq<Recv>, p: Packet, rest: seq<Recv>)
    requires e.rx.pc.Wait? && OnlyStrays(e.rx, useless) && e.rx.resend + Timeouts(useless) <= MAX_RETRY_COUNT
    requires e.wire.inbox == useless + [Datagram(p)] + rest && p.opcode == ERROR
    ensures var e' := RxRun(k, e);
      && e'.rx.pc == Done(false)
      && e'.rx.written == e.rx.written
      && e'.wire == e.wire.(inbox := rest, heard := e.wire.heard + useless + [Datagram(p)])
  {
    hide RxRun, Timeouts;
    var e1 := RxBears(k, e, useless);
    assert e1.wire.inbox == [Datagram(p)] + rest;
    RxRunStep(k, e1);
  }
}
