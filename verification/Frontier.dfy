/** Runs built step by step: transfers that complete, with any choice of lost ACKs, and runs that
    show where safety ends. */
module Frontier {
  import opened Common
  import opened Packets
  import opened Segmentation
  import opened Network
  import opened Safety
  import T = Transmitter
  import R = Receiver

  /** Delivering a packet its reader is waiting for is allowed. */
  ghost predicate AllowsCurrent(d: Discipline) {
    && (d.dataAge.Some? ==> 1 <= d.dataAge.value)
    && (d.ackAge.Some? ==> 1 <= d.ackAge.value)
  }

  function DataOf(c: Job, i: nat): Tagged
    requires 1 <= i
  {
    Tagged(i, DataPacket(Wrap(i), Block(c, i)))
  }

  function AckOf(i: nat): Tagged {
    Tagged(i, AckPacket(Wrap(i)))
  }

  ghost predicate Leads(d: Discipline, c: Job, s: System, steps: seq<Step>, s': System) {
    Run(d, c, s, steps) && After(d, c, s, steps) == s'
  }

  /** Taking one more step. */
  lemma Then(d: Discipline, c: Job, s: System, steps: seq<Step>, s': System, step: Step) returns (longer: seq<Step>)
    requires Leads(d, c, s, steps, s') && Enabled(c, s', step) && Allowed(d, c, s', step)
    ensures Leads(d, c, s, longer, Next(c, s', step))
  {
    hide Next, Allowed;
    longer := steps + [step];
    assert Run(d, c, Next(c, s', step), []);
    assert [step][1..] == [];
    assert Run(d, c, s', [step]) && After(d, c, s', [step]) == Next(c, s', step);
    RunConcat(d, c, s, steps, [step]);
  }

  lemma Join(d: Discipline, c: Job, s: System, steps: seq<Step>, s': System, more: seq<Step>, s'': System)
    requires Leads(d, c, s, steps, s') && Leads(d, c, s', more, s'')
    ensures Leads(d, c, s, steps + more, s'')
  {
    RunConcat(d, c, s, steps, more);
  }

  /** The receiver waits for a block or is about to. */
  predicate Ready(s: System) {
    s.rx.pc.Check? || s.rx.pc.Wait?
  }

  /** The system once a ready receiver waits. */
  function Listening(c: Job, s: System): System {
    if s.rx.pc.Check? then Next(c, s, RxChecks(false)) else s
  }

  /** The system once a ready receiver has processed the packet `m`. */
  function Taken(c: Job, s: System, m: Tagged): System {
    Next(c, Listening(c, s), RxHears(m, false))
  }

  /** The first `i` blocks and their ACKs have been in the network, and so has ACK 0. */
  ghost predicate History(c: Job, s: System, i: nat) {
    && (forall j :: 1 <= j <= i ==> DataOf(c, j) in s.toRx)
    && (forall j: nat :: j <= i ==> AckOf(j) in s.toTx)
  }

  /** Both sides are between blocks `i` and `i + 1`. */
  ghost predicate Synced(c: Job, s: System, i: nat) {
    && Inv(c, s) && s.index == i && s.accepted == i
    && s.tx.pc == T.Fetch && Ready(s)
    && History(c, s, i)
  }

  /** Block `i` has been accepted and its reply is awaited. */
  ghost predicate Delivered(c: Job, s: System, i: nat) {
    && Inv(c, s) && 1 <= i && s.index == i && s.accepted == i
    && s.tx.pc == T.Wait && s.tx.resend == 0 && s.reached
    && (if i < BlockCount(c) then Ready(s) else s.rx.pc == R.Done(true))
    && History(c, s, i)
  }

  /** Both sides have returned true. */
  ghost predicate Completed(c: Job, s: System) {
    Inv(c, s) && s.tx.pc == T.Done(true) && s.rx.pc == R.Done(true)
  }

  ghost predicate Between(c: Job, s: System, i: nat) {
    if i < BlockCount(c) then Synced(c, s, i) else Completed(c, s)
  }

  lemma Start(d: Discipline, c: Job) returns (steps: seq<Step>, s: System)
    ensures Leads(d, c, Init(), steps, s) && Synced(c, s, 0) && s.abandoned == s.dataSent == 0
  {
    InitKeeps(c);
    var s1 := Next(c, Init(), TxBegins(false));
    StepKeeps(c, Init(), TxBegins(false));
    steps := Then(d, c, Init(), [], Init(), TxBegins(false));
    s := Next(c, s1, RxBegins(false));
    StepKeeps(c, s1, RxBegins(false));
    steps := Then(d, c, Init(), steps, s1, RxBegins(false));
  }

  /** The transmitter reads and sends the next block. */
  lemma SendNext(d: Discipline, c: Job, s: System) returns (steps: seq<Step>, s': System)
    requires Inv(c, s) && s.tx.pc == T.Fetch
    ensures Leads(d, c, s, steps, s') && Inv(c, s')
    ensures s'.tx.pc == T.Wait && s'.tx.resend == 0 && s'.index == s.index + 1
    ensures s'.toRx == s.toRx + {DataOf(c, s'.index)} && s'.toTx == s.toTx
    ensures s'.rx == s.rx && s'.accepted == s.accepted && s'.abandoned == s.abandoned
    ensures s'.dataSent == s.dataSent + 1
  {
    var s1 := Next(c, s, TxFetches(false));
    StepKeeps(c, s, TxFetches(false));
    T.TxFetchKeeps(c, s.tx, s.index, false);
    steps := Then(d, c, s, [], s, TxFetches(false));
    s' := Next(c, s1, TxSends(false));
    StepKeeps(c, s1, TxSends(false));
    steps := Then(d, c, s, steps, s1, TxSends(false));
  }

  /** The receiver takes the next DATA packet it is offered. */
  lemma TakeNext(d: Discipline, c: Job, s: System, m: Tagged) returns (steps: seq<Step>, s': System)
    requires Ready(s) && m in s.toRx && m.packet.opcode == DATA
    requires d.dataAge.Some? ==> s.accepted + 1 - m.index < d.dataAge.value
    ensures Leads(d, c, s, steps, s')
    ensures s' == Taken(c, s, m)
    ensures s'.tx == s.tx && s'.index == s.index && s'.toRx == s.toRx && s.toTx <= s'.toTx
    ensures s'.abandoned == s.abandoned && s'.dataSent == s.dataSent
  {
    steps := [];
    if s.rx.pc.Check? {
      steps := Then(d, c, s, [], s, RxChecks(false));
    }
    s' := Taken(c, s, m);
    steps := Then(d, c, s, steps, Listening(c, s), RxHears(m, false));
  }

  /** One block sent, accepted and acknowledged, the ACK still under way. */
  lemma Deliver(d: Discipline, c: Job, s: System, i: nat) returns (steps: seq<Step>, s': System)
    requires Synced(c, s, i) && AllowsCurrent(d) && (i + 1 < BlockCount(c) || Receivable(c))
    ensures Leads(d, c, s, steps, s') && Delivered(c, s', i + 1)
    ensures s'.dataSent == s.dataSent + 1 && s'.abandoned == s.abandoned
  {
    hide Next, Run, After;
    var m := DataOf(c, i + 1);
    var first, s1 := SendNext(d, c, s);
    var second;
    second, s' := TakeNext(d, c, s1, m);
    Join(d, c, s, first, s1, second, s');
    steps := first + second;
    Accepting(c, s1, m);
  }

  /** A waiting receiver accepts the block it waits for. */
  lemma AcceptingNow(c: Job, s: System, m: Tagged)
    requires Inv(c, s) && s.rx.pc.Wait? && m in s.toRx && m == DataOf(c, s.accepted + 1)
    requires s.accepted + 1 < BlockCount(c) || Receivable(c)
    ensures var s' := Next(c, s, RxHears(m, false));
      && Inv(c, s') && s'.accepted == s.accepted + 1
      && s'.rx.pc == (if s'.accepted < BlockCount(c) then R.Check else R.Done(true))
      && AckOf(s'.accepted) in s'.toTx
      && (m.index == s.index ==> s'.reached)
  {
    hide Wrap;
    AcceptKeeps(c, s, m, false);
    BlockShape(c, m.index);
    assert R.Payload(SinkOf(c), m.packet) == Block(c, m.index);
  }

  /** A ready receiver does the same. */
  lemma Accepting(c: Job, s: System, m: Tagged)
    requires Inv(c, s) && Ready(s) && m in s.toRx && m == DataOf(c, s.accepted + 1)
    requires s.accepted + 1 < BlockCount(c) || Receivable(c)
    ensures var s' := Taken(c, s, m);
      && Inv(c, s') && s'.accepted == s.accepted + 1
      && s'.rx.pc == (if s'.accepted < BlockCount(c) then R.Check else R.Done(true))
      && AckOf(s'.accepted) in s'.toTx
      && (m.index == s.index ==> s'.reached)
  {
    var s1 := Listening(c, s);
    if s.rx.pc.Check? {
      StepKeeps(c, s, RxChecks(false));
    }
    assert s1.rx.pc.Wait? && s1.accepted == s.accepted && s1.toRx == s.toRx && s1.index == s.index;
    hide Next, Inv, Block, Wrap;
    AcceptingNow(c, s1, m);
  }

  /** The ACK arrives. */
  lemma TakeAck(d: Discipline, c: Job, s: System, i: nat) returns (steps: seq<Step>, s': System)
    requires Delivered(c, s, i) && AllowsCurrent(d)
    ensures Leads(d, c, s, steps, s') && Between(c, s', i)
    ensures s'.dataSent == s.dataSent && s'.abandoned == s.abandoned
    ensures s'.rx == s.rx && s'.toRx == s.toRx && s'.toTx == s.toTx
  {
    var step := TxHears(AckOf(i));
    s' := Next(c, s, step);
    StepKeeps(c, s, step);
    T.TxReceiveKeeps(c, s.tx, i, Datagram(AckPacket(Wrap(i))));
    steps := Then(d, c, s, [], s, step);
  }

  /** No reply arrives: the block is sent until the attempts are used up, then left behind. */
  lemma {:induction false} Exhaust(d: Discipline, c: Job, s: System) returns (steps: seq<Step>, s': System)
    requires Inv(c, s) && s.tx.pc == T.Wait && (d.tolerant ==> s.reached)
    ensures Leads(d, c, s, steps, s') && Inv(c, s')
    ensures s'.tx.pc == if s.index < BlockCount(c) then T.Fetch else T.Done(true)
    ensures s'.rx == s.rx && s'.index == s.index && s'.accepted == s.accepted
    ensures s.toRx <= s'.toRx && s'.toTx == s.toTx
    ensures s'.abandoned == s.abandoned + 1
    ensures s'.dataSent == s.dataSent + MAX_RETRY_COUNT - 1 - s.tx.resend
    decreases MAX_RETRY_COUNT - s.tx.resend
  {
    var s1 := Next(c, s, TxTimesOut);
    StepKeeps(c, s, TxTimesOut);
    T.TxReceiveKeeps(c, s.tx, s.index, TimedOut);
    steps := Then(d, c, s, [], s, TxTimesOut);
    if s1.tx.pc.Send? {
      var s2 := Next(c, s1, TxSends(false));
      StepKeeps(c, s1, TxSends(false));
      steps := Then(d, c, s, steps, s1, TxSends(false));
      var more;
      more, s' := Exhaust(d, c, s2);
      Join(d, c, s, steps, s2, more, s');
      steps := steps + more;
    } else {
      s' := s1;
    }
  }

  /** One block transferred, its ACK lost or not. */
  lemma OneBlock(d: Discipline, c: Job, s: System, i: nat, lost: bool) returns (steps: seq<Step>, s': System)
    requires Synced(c, s, i) && AllowsCurrent(d) && (i + 1 < BlockCount(c) || Receivable(c))
    ensures Leads(d, c, s, steps, s') && Between(c, s', i + 1)
    ensures s'.dataSent == s.dataSent + if lost then MAX_RETRY_COUNT else 1
    ensures s'.abandoned == s.abandoned + if lost then 1 else 0
  {
    hide Next, Run, After;
    var s1, more;
    steps, s1 := Deliver(d, c, s, i);
    if lost {
      more, s' := Exhaust(d, c, s1);
    } else {
      more, s' := TakeAck(d, c, s1, i + 1);
    }
    Join(d, c, s, steps, s1, more, s');
    steps := steps + more;
  }

  // ---------- Runs that complete ----------

  /** DATA packets needed when the ACK of block `j + 1` is lost exactly if `lost[j]`. */
  function Sendings(lost: seq<bool>): nat {
    if lost == [] then 0 else (if lost[0] then MAX_RETRY_COUNT else 1) + Sendings(lost[1..])
  }

  lemma {:induction false} SendingsLossless(lost: seq<bool>)
    requires forall j :: 0 <= j < |lost| ==> !lost[j]
    ensures Sendings(lost) == |lost|
  {
    if lost != [] {
      SendingsLossless(lost[1..]);
    }
  }

  lemma {:induction false} CompleteFrom(d: Discipline, c: Job, s: System, i: nat, lost: seq<bool>)
      returns (steps: seq<Step>, s': System)
    requires i < BlockCount(c) == i + |lost| && Synced(c, s, i) && AllowsCurrent(d) && Receivable(c)
    ensures Leads(d, c, s, steps, s') && Completed(c, s')
    ensures s'.dataSent == s.dataSent + Sendings(lost) && s'.abandoned <= s.abandoned + |lost|
    ensures (forall j :: 0 <= j < |lost| ==> !lost[j]) ==> s'.abandoned == s.abandoned
    decreases |lost|
  {
    hide Next, Run, After;
    steps, s' := OneBlock(d, c, s, i, lost[0]);
    if |lost| > 1 {
      var s1, more := s', [];
      more, s' := CompleteFrom(d, c, s1, i + 1, lost[1..]);
      Join(d, c, s, steps, s1, more, s');
      steps := steps + more;
    }
  }

  /** For every receivable file and every choice of lost ACKs there is a run, tolerant and with
      only current packets, in which both sides return true and the files are equal. It takes one
      ACK for each block, and one DATA packet for each acknowledged and five for each other. */
  lemma Completion(d: Discipline, c: Job, lost: seq<bool>) returns (steps: seq<Step>)
    requires |lost| == BlockCount(c) && Receivable(c) && AllowsCurrent(d)
    ensures Run(d, c, Init(), steps)
    ensures var s := After(d, c, Init(), steps);
      && s.tx.pc == T.Done(true) && s.rx.pc == R.Done(true)
      && s.rx.written == c.file
      && s.dataSent == Sendings(lost)
      && s.acksSent == BlockCount(c)
      && ((forall j :: 0 <= j < |lost| ==> !lost[j]) ==> s.abandoned == 0)
  {
    hide Next, Run, After;
    var s0, more, s;
    steps, s0 := Start(d, c);
    more, s := CompleteFrom(d, c, s0, 0, lost);
    Join(d, c, Init(), steps, s0, more, s);
    steps := steps + more;
    InvIsSafe(c, s);
  }

  /** Without losses the transfer is a plain file copy: exactly size / blocksize + 1 DATA packets
      and as many ACKs, across any number of wraps. */
  lemma LosslessCopy(d: Discipline, c: Job) returns (steps: seq<Step>)
    requires Receivable(c) && AllowsCurrent(d)
    ensures Run(d, c, Init(), steps)
    ensures var s := After(d, c, Init(), steps);
      && s.tx.pc == T.Done(true) && s.rx.pc == R.Done(true)
      && s.rx.written == c.file && s.abandoned == 0
      && s.dataSent == s.acksSent == |c.file| / c.blockSize + 1
  {
    var lost := seq(BlockCount(c), _ => false);
    steps := Completion(d, c, lost);
    SendingsLossless(lost);
    BlockCountIsDivision(|c.file|, c.blockSize);
  }

  ghost predicate Accomplishes(d: Discipline, c: Job, steps: seq<Step>) {
    Run(d, c, Init(), steps)
    && var s := After(d, c, Init(), steps); s.abandoned < WRAP && s.rx.pc == R.Done(true)
  }

  /** Some timely run makes the receiver return true if and only if the size of the file is not a
      multiple of the block size (or the receiver is the variant that accepts an empty block). */
  lemma VerdictIffReceivable(c: Job)
    ensures var d := Discipline(Some(WRAP), Some(WRAP), false);
      (exists steps :: Accomplishes(d, c, steps)) <==> c.acceptEmpty || |c.file| % c.blockSize != 0
  {
    ReceivableIff(c);
    var d := Discipline(Some(WRAP), Some(WRAP), false);
    if Receivable(c) {
      var steps := LosslessCopy(d, c);
      assert Accomplishes(d, c, steps);
    }
    forall steps | Accomplishes(d, c, steps) ensures Receivable(c) {
      TimelySafety(d, c, steps);
    }
  }

  // ---------- Where safety ends ----------

  /** Any number of blocks short of the last transferred without loss. */
  lemma {:induction false} Reach(d: Discipline, c: Job, i: nat) returns (steps: seq<Step>, s: System)
    requires i < BlockCount(c) && AllowsCurrent(d)
    ensures Leads(d, c, Init(), steps, s) && Synced(c, s, i) && s.abandoned == 0
  {
    hide Next, Run, After;
    if i == 0 {
      steps, s := Start(d, c);
    } else {
      var s0, more;
      steps, s0 := Reach(d, c, i - 1);
      more, s := OneBlock(d, c, s0, i - 1, false);
      Join(d, c, Init(), steps, s0, more, s);
      steps := steps + more;
    }
  }

  /** `n` blocks in a row that never reach the receiver. */
  lemma {:induction false} AbandonBlocks(d: Discipline, c: Job, s: System, n: nat)
      returns (steps: seq<Step>, s': System)
    requires Inv(c, s) && s.tx.pc == T.Fetch && s.index + n < BlockCount(c) && !d.tolerant
    ensures Leads(d, c, s, steps, s') && Inv(c, s') && s'.tx.pc == T.Fetch
    ensures s'.index == s.index + n && s'.abandoned == s.abandoned + n
    ensures s'.rx == s.rx && s'.accepted == s.accepted && s'.toTx == s.toTx
    decreases n
  {
    if n == 0 {
      steps, s' := [], s;
    } else {
      var s1, s2, more;
      steps, s1 := SendNext(d, c, s);
      more, s2 := Exhaust(d, c, s1);
      Join(d, c, s, steps, s1, more, s2);
      steps := steps + more;
      more, s' := AbandonBlocks(d, c, s2, n - 1);
      Join(d, c, s, steps, s2, more, s');
      steps := steps + more;
    }
  }

  /** `n` blocks in a row that never reach the receiver, each taken for acknowledged because an ACK
      65536 blocks old arrives. */
  lemma {:induction false} OvertakeBlocks(d: Discipline, c: Job, s: System, n: nat)
      returns (steps: seq<Step>, s': System)
    requires Inv(c, s) && s.tx.pc == T.Fetch && s.index + n < BlockCount(c) && !d.tolerant
    requires n == 0 || (!Recent(d.ackAge) && WRAP <= s.index + 1)
    requires forall j: nat :: j + WRAP <= s.index + n ==> AckOf(j) in s.toTx
    ensures Leads(d, c, s, steps, s') && Inv(c, s') && s'.tx.pc == T.Fetch
    ensures s'.index == s.index + n && s'.abandoned == s.abandoned
    ensures s'.rx == s.rx && s'.accepted == s.accepted && s'.toTx == s.toTx
    decreases n
  {
    hide Next, Run, After, Inv, BlockCount;
    if n == 0 {
      steps := Stay(d, c, s);
      s' := s;
    } else {
      var s1, s2, more;
      steps, s1 := SendNext(d, c, s);
      more, s2 := HearStale(d, c, s1);
      Join(d, c, s, steps, s1, more, s2);
      steps := steps + more;
      more, s' := OvertakeBlocks(d, c, s2, n - 1);
      Join(d, c, s, steps, s2, more, s');
      steps := steps + more;
    }
  }

  lemma Stay(d: Discipline, c: Job, s: System) returns (steps: seq<Step>)
    ensures Leads(d, c, s, steps, s)
  {
    steps := [];
  }

  lemma HearStale(d: Discipline, c: Job, s: System) returns (steps: seq<Step>, s': System)
    requires Inv(c, s) && s.tx.pc == T.Wait && WRAP <= s.index < BlockCount(c) && !d.tolerant
    requires AckOf(s.index - WRAP) in s.toTx && !Recent(d.ackAge)
    ensures Leads(d, c, s, steps, s') && Inv(c, s') && s'.tx.pc == T.Fetch
    ensures s'.index == s.index && s'.abandoned == s.abandoned && s'.toTx == s.toTx
    ensures s'.rx == s.rx && s'.accepted == s.accepted
  {
    var step := TxHears(AckOf(s.index - WRAP));
    SameNumber(s.index - WRAP);
    StepKeeps(c, s, step);
    T.TxReceiveKeeps(c, s.tx, s.index, Datagram(step.message.packet));
    s' := Next(c, s, step);
    steps := Stay(d, c, s);
    steps := Then(d, c, s, steps, s, step);
  }

  /** A block whose number happens to match is taken for the expected one. */
  lemma Mistaking(c: Job, s: System, m: Tagged)
    requires Inv(c, s) && Ready(s) && m in s.toRx && 1 <= m.index && m == DataOf(c, m.index)
    requires Wrap(m.index) == Wrap(s.accepted + 1) && |Block(c, m.index)| <= c.blockSize
    requires Block(c, m.index) != [] || c.acceptEmpty
    ensures var s' := Taken(c, s, m);
      && s'.accepted == s.accepted + 1
      && s'.rx.written == s.rx.written + Block(c, m.index)
      && s'.rx.pc == if |Block(c, m.index)| == c.blockSize then R.Check else R.Done(true)
  {
    assert R.Payload(SinkOf(c), m.packet) == Block(c, m.index);
  }

  /** A full block taken for the last one makes the file longer than the source. */
  lemma TakenTooLong(c: Job, s: System)
    requires BlockCount(c) > WRAP && Synced(c, s, BlockCount(c) - 1)
    ensures var s' := Taken(c, s, DataOf(c, BlockCount(c) - WRAP));
      !Exact(c, s') && |s'.rx.written| > |c.file|
  {
    var n := BlockCount(c);
    BlockShape(c, n - WRAP);
    BlockShape(c, n);
    SameNumber(n - WRAP);
    Mistaking(c, s, DataOf(c, n - WRAP));
  }

  /** The last block taken for an earlier one ends the reception early. */
  lemma TakenTooEarly(c: Job, s: System)
    requires BlockCount(c) > WRAP && Receivable(c) && Inv(c, s)
    requires Ready(s) && s.accepted + 1 == BlockCount(c) - WRAP && DataOf(c, BlockCount(c)) in s.toRx
    ensures var s' := Taken(c, s, DataOf(c, BlockCount(c)));
      !Exact(c, s') && s'.rx.pc == R.Done(true) && |s'.rx.written| < |c.file|
  {
    var n := BlockCount(c);
    BlockShape(c, n - WRAP);
    BlockShape(c, n);
    SameNumber(n - WRAP);
    Mistaking(c, s, DataOf(c, n));
  }

  /** With more than 65536 blocks, one stale packet is enough: a copy of the block 65536 before the
      last is accepted in place of the last, and the file grows beyond its size. */
  lemma StaleBlockBreaks(d: Discipline, c: Job) returns (steps: seq<Step>)
    requires BlockCount(c) > WRAP && AllowsCurrent(d) && !Recent(d.dataAge)
    ensures Run(d, c, Init(), steps)
    ensures var s := After(d, c, Init(), steps); s.abandoned == 0 && !Exact(c, s) && |s.rx.written| > |c.file|
  {
    hide Next, Run, After;
    var m := DataOf(c, BlockCount(c) - WRAP);
    var s, more, s';
    steps, s := Reach(d, c, BlockCount(c) - 1);
    TakenTooLong(c, s);
    more, s' := TakeNext(d, c, s, m);
    Join(d, c, Init(), steps, s, more, s');
    steps := steps + more;
  }

  /** 65536 blocks in a row that miss the receiver are enough as well, with every DATA packet
      current: the last block is accepted in place of the one 65536 before it, and the receiver
      returns true too early. If ACKs may be 65536 blocks old, the transmitter passes every block
      behind the first 65535 without abandoning it. */
  lemma AbandonmentBreaks(d: Discipline, c: Job, lost: nat) returns (steps: seq<Step>)
    requires BlockCount(c) > WRAP && AllowsCurrent(d) && !d.tolerant && Receivable(c)
    requires lost == WRAP || (!Recent(d.ackAge) && lost <= WRAP && 2 * WRAP <= lost + BlockCount(c))
    ensures Run(d, c, Init(), steps)
    ensures var s := After(d, c, Init(), steps);
      s.abandoned == lost && !Exact(c, s) && s.rx.pc == R.Done(true) && |s.rx.written| < |c.file|
  {
    hide Next, Run, After, BlockCount;
    var n := BlockCount(c);
    var s0, s1, s2, s3, s4, more;
    steps, s0 := Reach(d, c, n - WRAP - 1);
    more, s1 := AbandonBlocks(d, c, s0, lost);
    Join(d, c, Init(), steps, s0, more, s1);
    steps := steps + more;
    more, s2 := OvertakeBlocks(d, c, s1, WRAP - lost);
    Join(d, c, Init(), steps, s1, more, s2);
    steps := steps + more;
    more, s3 := SendNext(d, c, s2);
    Join(d, c, Init(), steps, s2, more, s3);
    steps := steps + more;
    TakenTooEarly(c, s3);
    more, s4 := TakeNext(d, c, s3, DataOf(c, n));
    Join(d, c, Init(), steps, s3, more, s4);
    steps := steps + more;
  }

  predicate Within(s: System, abandoned: Option<nat>) {
    abandoned.Some? ==> s.abandoned <= abandoned.value
  }

  ghost predicate AlwaysExact(d: Discipline, c: Job, abandoned: Option<nat>) {
    forall steps :: Run(d, c, Init(), steps) && Within(After(d, c, Init(), steps), abandoned) ==>
      Exact(c, After(d, c, Init(), steps))
  }

  /** What a discipline and a bound on the abandoned blocks must promise to keep the transfer of a
      file exact, `Guarded` for every run they allow. */
  predicate Suffices(d: Discipline, c: Job, abandoned: Option<nat>) {
    || BlockCount(c) <= WRAP
    || (&& Recent(d.dataAge) && abandoned.Some?
        && if Recent(d.ackAge) then abandoned.value < WRAP else abandoned.value + BlockCount(c) < 2 * WRAP)
  }

  /** The limits of safety: all runs of a receivable file on a network of this kind, with as many
      abandoned blocks, are exact if and only if the file has at most 65536 blocks, or no DATA is
      65536 blocks old and fewer than 65536 blocks in a row can miss the receiver, by being
      abandoned or, behind the first 65535, by meeting an ACK 65536 blocks old. */
  lemma ExactIffSuffices(d: Discipline, c: Job, abandoned: Option<nat>)
    requires !d.tolerant && AllowsCurrent(d) && Receivable(c)
    ensures AlwaysExact(d, c, abandoned) <==> Suffices(d, c, abandoned)
  {
    if Suffices(d, c, abandoned) {
      forall steps | Run(d, c, Init(), steps) && Within(After(d, c, Init(), steps), abandoned)
        ensures Exact(c, After(d, c, Init(), steps))
      {
        GuardedSafety(d, c, steps);
      }
    } else if !Recent(d.dataAge) {
      var steps := StaleBlockBreaks(d, c);
    } else {
      var behind := 2 * WRAP - BlockCount(c);
      var steps := AbandonmentBreaks(d, c, if Recent(d.ackAge) then WRAP else if behind < 0 then 0 else behind);
    }
  }

  /** The hypothesis under which lost ACKs are tolerated is exact as well, with any number of blocks
      abandoned. */
  lemma ExactIffTolerated(d: Discipline, c: Job)
    requires d.tolerant && AllowsCurrent(d) && Receivable(c)
    ensures AlwaysExact(d, c, None) <==> BlockCount(c) <= WRAP || Recent(d.dataAge)
  {
    if BlockCount(c) <= WRAP || Recent(d.dataAge) {
      forall steps | Run(d, c, Init(), steps) ensures Exact(c, After(d, c, Init(), steps)) {
        LostAcksTolerated(d, c, steps);
      }
    } else {
      var steps := StaleBlockBreaks(d, c);
    }
  }

  /** On an arbitrary network every run is exact if and only if the file has at most 65536 blocks,
      receivable or not... */
  lemma ExactIffFewBlocks(c: Job)
    ensures AlwaysExact(ANY, c, None) <==> BlockCount(c) <= WRAP
  {
    if BlockCount(c) <= WRAP {
      forall steps | Run(ANY, c, Init(), steps) ensures Exact(c, After(ANY, c, Init(), steps)) {
        SmallFileSafety(c, steps);
      }
    } else {
      var steps := StaleBlockBreaks(ANY, c);
    }
  }

  /** ... and with more blocks, of which fewer than 65536 are abandoned, and no ACK 65536 blocks old,
      if and only if no DATA is 65536 blocks old. */
  lemma ExactIffTimely(c: Job, dataAge: nat, ackAge: nat, abandoned: nat)
    requires BlockCount(c) > WRAP && 1 <= dataAge && 1 <= ackAge <= WRAP && abandoned < WRAP
    ensures AlwaysExact(Discipline(Some(dataAge), Some(ackAge), false), c, Some(abandoned)) <==> dataAge <= WRAP
  {
    var d := Discipline(Some(dataAge), Some(ackAge), false);
    if dataAge <= WRAP {
      forall steps | Run(d, c, Init(), steps) && Within(After(d, c, Init(), steps), Some(abandoned))
        ensures Exact(c, After(d, c, Init(), steps))
      {
        TimelySafety(d, c, steps);
      }
    } else {
      var steps := StaleBlockBreaks(d, c);
    }
  }

  /** For a receivable file with more than 65536 blocks and no packet 65536 blocks old, a bound on
      the abandoned blocks keeps every run exact if and only if it is at most 65535... */
  lemma ExactIffFewAbandoned(c: Job, dataAge: nat, ackAge: nat, abandoned: nat)
    requires BlockCount(c) > WRAP && 1 <= dataAge <= WRAP && 1 <= ackAge <= WRAP && Receivable(c)
    ensures AlwaysExact(Discipline(Some(dataAge), Some(ackAge), false), c, Some(abandoned)) <==> abandoned < WRAP
  {
    ExactIffSuffices(Discipline(Some(dataAge), Some(ackAge), false), c, Some(abandoned));
  }

  /** ... and for one with at least 131072 blocks and no DATA 65536 blocks old, a limit on the age of
      ACKs does, however few blocks below 65536 are abandoned, if and only if it is at most 65536. */
  lemma ExactIffRecentAcks(c: Job, dataAge: nat, ackAge: nat, abandoned: nat)
    requires BlockCount(c) >= 2 * WRAP && 1 <= dataAge <= WRAP && 1 <= ackAge && abandoned < WRAP && Receivable(c)
    ensures AlwaysExact(Discipline(Some(dataAge), Some(ackAge), false), c, Some(abandoned)) <==> ackAge <= WRAP
  {
    ExactIffSuffices(Discipline(Some(dataAge), Some(ackAge), false), c, Some(abandoned));
  }
}
