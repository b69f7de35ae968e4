/** What the receiver's file can be, over all runs of the system. */
module Safety {
  import opened Common
  import opened Packets
  import opened Segmentation
  import opened Network
  import T = Transmitter
  import R = Receiver

  /** What every state of a safe run satisfies: the file is exact, one ACK has been sent for each
      block accepted and none besides, and true is returned only with the whole file. */
  ghost predicate Safe(c: Job, s: System) {
    && Exact(c, s)
    && s.acksSent == s.accepted
    && (s.rx.pc == R.Done(true) ==> s.rx.written == c.file && Receivable(c))
  }

  lemma InvIsSafe(c: Job, s: System)
    requires Inv(c, s)
    ensures Safe(c, s)
  {
    if s.rx.pc == R.Done(true) {
      BlockShape(c, BlockCount(c));
    }
  }

  // ---------- When no packet is mistaken for another ----------

  /** Packets as old as this never share a number with the one their reader is waiting for. */
  predicate Recent(age: Option<nat>) {
    age.Some? && age.value <= WRAP
  }

  /** What keeps a run safe up to `s`: so few blocks that no two share a number; or no DATA that is
      65536 blocks old and fewer than 65536 blocks abandoned; or, if ACKs may be that old, so few
      blocks abandoned that the others cannot make 65536 in a row. */
  ghost predicate Guarded(d: Discipline, c: Job, s: System) {
    || BlockCount(c) <= WRAP
    || (Recent(d.dataAge) && if Recent(d.ackAge) then s.abandoned < WRAP else s.abandoned + BlockCount(c) < 2 * WRAP)
  }

  /** The number of blocks the transmitter has left behind it. */
  function Left(s: System): int {
    s.index - if s.tx.pc.Fetch? || s.tx.pc == T.Done(true) then 0 else 1
  }

  /** How far the transmitter can be ahead of the receiver: among the first 65535 blocks, and among
      all of them if no ACK is 65536 blocks old, it has abandoned whatever the receiver has not
      accepted. */
  ghost predicate Lag(d: Discipline, s: System) {
    (if Recent(d.ackAge) then Left(s) else Min(Left(s), WRAP - 1)) <= s.accepted + s.abandoned
  }

  /** An ACK with the number of the block under way is its own or 65536 blocks old, which only
      blocks behind the first 65535 can meet. */
  lemma AckIsOwnOrStale(c: Job, s: System, m: Tagged)
    requires Inv(c, s) && s.tx.pc.Wait? && m in s.toTx && T.Acknowledges(s.tx, m.packet)
    ensures s.accepted == s.index || WRAP <= s.index - m.index
  {
    hide Wrap;
    if m.index < s.index {
      SharedNumber(m.index, s.index);
    }
  }

  lemma LagGets(d: Discipline, c: Job, s: System, answer: Recv)
    requires Inv(c, s) && Lag(d, s) && s.tx.pc.Wait?
    requires answer.Datagram? && T.Acknowledges(s.tx, answer.packet) ==>
      s.accepted == s.index || (WRAP <= s.index && !Recent(d.ackAge))
    ensures Lag(d, TxGets(c, s, answer)) && s.abandoned <= TxGets(c, s, answer).abandoned
  {
    hide Inv;
  }

  lemma LagKeeps(d: Discipline, c: Job, s: System, step: Step)
    requires Inv(c, s) && Lag(d, s) && Enabled(c, s, step) && Allowed(d, c, s, step)
    ensures Lag(d, Next(c, s, step)) && s.abandoned <= Next(c, s, step).abandoned
  {
    match step
    case TxHears(m) =>
      if T.Acknowledges(s.tx, m.packet) {
        AckIsOwnOrStale(c, s, m);
      }
      LagGets(d, c, s, Datagram(m.packet));
    case TxTimesOut => LagGets(d, c, s, TimedOut);
    case TxFails => LagGets(d, c, s, Failed);
    case _ =>
  }

  /** A DATA packet with the number the receiver waits for is the true block or 65536 blocks off. */
  lemma MatchIsOwnOrApart(c: Job, s: System, step: Step)
    requires Inv(c, s) && Enabled(c, s, step)
    requires step.RxHears? && step.message.packet.opcode == DATA && R.Matches(s.rx, step.message.packet)
    ensures var i, next := step.message.index, s.accepted + 1;
      i == next || i + WRAP <= next || next + WRAP <= i <= s.index
  {
    hide Wrap;
    var i, next := step.message.index, s.accepted + 1;
    if i < next {
      SharedNumber(i, next);
    } else if next < i {
      SharedNumber(next, i);
    }
  }

  /** In a guarded run a packet is the true one when its number matches. */
  lemma GuardedFaithful(d: Discipline, c: Job, s: System, step: Step)
    requires Inv(c, s) && Lag(d, s) && Enabled(c, s, step) && Allowed(d, c, s, step) && Guarded(d, c, s)
    ensures Faithful(s, step)
  {
    hide Wrap;
    if step.RxHears? && step.message.packet.opcode == DATA && R.Matches(s.rx, step.message.packet) {
      MatchIsOwnOrApart(c, s, step);
    }
  }

  lemma {:induction false} AbandonedGrows(d: Discipline, c: Job, s: System, steps: seq<Step>)
    requires Run(d, c, s, steps)
    ensures s.abandoned <= After(d, c, s, steps).abandoned
    decreases |steps|
  {
    if steps != [] {
      AbandonedGrows(d, c, Next(c, s, steps[0]), steps[1..]);
    }
  }

  lemma {:induction false} GuardedRun(d: Discipline, c: Job, s: System, steps: seq<Step>)
    requires Inv(c, s) && Lag(d, s) && Run(d, c, s, steps) && Guarded(d, c, After(d, c, s, steps))
    ensures var s' := After(d, c, s, steps); Inv(c, s') && Lag(d, s')
    decreases |steps|
  {
    hide Next;
    if steps != [] {
      AbandonedGrows(d, c, s, steps);
      GuardedFaithful(d, c, s, steps[0]);
      StepKeeps(c, s, steps[0]);
      LagKeeps(d, c, s, steps[0]);
      GuardedRun(d, c, Next(c, s, steps[0]), steps[1..]);
    }
  }

  /** Every guarded run is safe, and every number match the true block. */
  lemma GuardedSafety(d: Discipline, c: Job, steps: seq<Step>)
    requires Run(d, c, Init(), steps) && Guarded(d, c, After(d, c, Init(), steps))
    ensures var s := After(d, c, Init(), steps);
      && Inv(c, s) && Safe(c, s) && Lag(d, s)
      && forall step :: Enabled(c, s, step) && Allowed(d, c, s, step) ==> Faithful(s, step)
  {
    var s := After(d, c, Init(), steps);
    InitKeeps(c);
    GuardedRun(d, c, Init(), steps);
    InvIsSafe(c, s);
    forall step | Enabled(c, s, step) && Allowed(d, c, s, step) ensures Faithful(s, step) {
      GuardedFaithful(d, c, s, step);
    }
  }

  /** A file of at most 65536 blocks is safe on every network: however packets are lost,
      duplicated, reordered and delayed and however many blocks are abandoned, the receiver holds
      exactly the first blocks, and it returns true only with the whole file. */
  lemma SmallFileSafety(c: Job, steps: seq<Step>)
    requires BlockCount(c) <= WRAP && Run(ANY, c, Init(), steps)
    ensures Safe(c, After(ANY, c, Init(), steps))
  {
    GuardedSafety(ANY, c, steps);
  }

  /** A file of any length, across any number of wraps: as long as every packet delivered is fewer
      than 65536 blocks old and at most 65535 blocks were abandoned, the transmitter is no further
      ahead than the receiver's next block plus the abandoned ones, every number match is the true
      block, and the receiver is safe. */
  lemma TimelySafety(d: Discipline, c: Job, steps: seq<Step>)
    requires Recent(d.dataAge) && Recent(d.ackAge) && Run(d, c, Init(), steps)
    requires After(d, c, Init(), steps).abandoned < WRAP
    ensures var s := After(d, c, Init(), steps);
      && Safe(c, s)
      && s.index <= s.accepted + 1 + s.abandoned
      && forall step :: Enabled(c, s, step) && Allowed(d, c, s, step) ==> Faithful(s, step)
  {
    GuardedSafety(d, c, steps);
  }

  /** ACKs of any age, which let the transmitter pass blocks without abandoning them, are harmless
      as long as the blocks of the file and the abandoned ones are fewer than 131072 together. */
  lemma StaleAcksSafety(d: Discipline, c: Job, steps: seq<Step>)
    requires Recent(d.dataAge) && Run(d, c, Init(), steps)
    requires After(d, c, Init(), steps).abandoned + BlockCount(c) < 2 * WRAP
    ensures Safe(c, After(d, c, Init(), steps))
  {
    GuardedSafety(d, c, steps);
  }

  // ---------- ACKs may be lost at will ----------

  /** In a tolerant run the receiver keeps step with the transmitter. */
  ghost predicate InStep(s: System) {
    && s.accepted <= s.index <= s.accepted + 1
    && (s.reached ==> s.accepted == s.index)
    && (s.tx.pc.Begin? || s.tx.pc.Fetch? || s.tx.pc == T.Done(true) ==> s.accepted == s.index)
    && s.tx.pc != T.Done(false) && s.rx.pc != R.Done(false)
    && (forall m :: m in s.toRx ==> m.packet.opcode == DATA)
  }

  lemma InStepHears(c: Job, s: System, m: Tagged)
    requires Receivable(c) && Inv(c, s) && InStep(s)
    requires s.rx.pc.Wait? && m in s.toRx && Faithful(s, RxHears(m, false))
    ensures InStep(Next(c, s, RxHears(m, false)))
  {
    if R.Matches(s.rx, m.packet) {
      BlockShape(c, s.accepted + 1);
    }
  }

  lemma InStepGets(c: Job, s: System, answer: Recv)
    requires Inv(c, s) && InStep(s) && s.tx.pc.Wait? && !answer.Failed?
    requires answer.Datagram? ==> answer.packet.opcode != SWAPPED_ERROR
    requires TxGets(c, s, answer).tx.pc.Send? || s.reached
    ensures InStep(TxGets(c, s, answer))
  {
  }

  lemma InStepKeeps(d: Discipline, c: Job, s: System, step: Step)
    requires d.tolerant && Receivable(c) && Inv(c, s) && InStep(s)
    requires Enabled(c, s, step) && Allowed(d, c, s, step) && Faithful(s, step)
    ensures InStep(Next(c, s, step))
  {
    match step
    case TxHears(m) => InStepGets(c, s, Datagram(m.packet));
    case TxTimesOut => InStepGets(c, s, TimedOut);
    case RxHears(m, _) => InStepHears(c, s, m);
    case _ =>
  }

  lemma TolerantFaithful(d: Discipline, c: Job, s: System, step: Step)
    requires Inv(c, s) && InStep(s) && Enabled(c, s, step) && Allowed(d, c, s, step)
    requires BlockCount(c) <= WRAP || Recent(d.dataAge)
    ensures Faithful(s, step)
  {
    hide Wrap;
    if step.RxHears? && step.message.packet.opcode == DATA && R.Matches(s.rx, step.message.packet) {
      MatchIsOwnOrApart(c, s, step);
    }
  }

  lemma {:induction false} TolerantRun(d: Discipline, c: Job, s: System, steps: seq<Step>)
    requires d.tolerant && Receivable(c) && Inv(c, s) && InStep(s) && Run(d, c, s, steps)
    requires BlockCount(c) <= WRAP || Recent(d.dataAge)
    ensures var s' := After(d, c, s, steps); Inv(c, s') && InStep(s')
    decreases |steps|
  {
    hide Next;
    if steps != [] {
      TolerantFaithful(d, c, s, steps[0]);
      InStepKeeps(d, c, s, steps[0]);
      StepKeeps(c, s, steps[0]);
      TolerantRun(d, c, Next(c, s, steps[0]), steps[1..]);
    }
  }

  /** Lost ACKs are harmless, however many: in a tolerant run of a receivable file (short enough,
      or with no DATA 65536 blocks old delivered) neither side fails, and once the transmitter has
      returned, the receiver has returned true with the whole file. */
  lemma LostAcksTolerated(d: Discipline, c: Job, steps: seq<Step>)
    requires d.tolerant && Receivable(c) && Run(d, c, Init(), steps)
    requires BlockCount(c) <= WRAP || Recent(d.dataAge)
    ensures var s := After(d, c, Init(), steps);
      && Safe(c, s)
      && s.accepted <= s.index <= s.accepted + 1
      && s.tx.pc != T.Done(false) && s.rx.pc != R.Done(false)
      && (s.tx.pc == T.Done(true) ==> s.rx.pc == R.Done(true) && s.rx.written == c.file)
  {
    InitKeeps(c);
    TolerantRun(d, c, Init(), steps);
    InvIsSafe(c, After(d, c, Init(), steps));
  }

  // ---------- Nothing is lost ----------

  /** No timeout of the transmitter, and no answer to it but the ACK it waits for. */
  ghost predicate Prompt(s: System, step: Step) {
    step != TxTimesOut && (step.TxHears? ==> T.Acknowledges(s.tx, step.message.packet))
  }

  ghost predicate PromptRun(d: Discipline, c: Job, s: System, steps: seq<Step>)
    requires Run(d, c, s, steps)
    decreases |steps|
  {
    steps == [] || (Prompt(s, steps[0]) && PromptRun(d, c, Next(c, s, steps[0]), steps[1..]))
  }

  /** Every block begun has been sent once, and none is abandoned. */
  ghost predicate Single(s: System) {
    && s.abandoned == 0
    && (s.tx.pc.Send? || s.tx.pc.Wait? ==> s.tx.resend == 0)
    && s.dataSent == s.index - if s.tx.pc.Send? then 1 else 0
  }

  lemma SingleKeeps(d: Discipline, c: Job, s: System, step: Step)
    requires d.tolerant && Inv(c, s) && Single(s)
    requires Enabled(c, s, step) && Allowed(d, c, s, step) && Prompt(s, step)
    ensures Single(Next(c, s, step))
  {
    hide Inv, Wrap;
  }

  lemma {:induction false} SingleRun(d: Discipline, c: Job, s: System, steps: seq<Step>)
    requires d.tolerant && Receivable(c) && Inv(c, s) && InStep(s) && Single(s)
    requires Run(d, c, s, steps) && PromptRun(d, c, s, steps)
    requires BlockCount(c) <= WRAP || Recent(d.dataAge)
    ensures Single(After(d, c, s, steps))
    decreases |steps|
  {
    hide Next, Inv, InStep, Single, Prompt;
    if steps != [] {
      TolerantFaithful(d, c, s, steps[0]);
      InStepKeeps(d, c, s, steps[0]);
      StepKeeps(c, s, steps[0]);
      SingleKeeps(d, c, s, steps[0]);
      SingleRun(d, c, Next(c, s, steps[0]), steps[1..]);
    }
  }

  /** Every lossless run is a plain file copy: however the DATA is duplicated and delayed, if the
      transmitter hears nothing but the ACKs it waits for, then once it has returned, the receiver
      has the whole file, after one DATA packet and one ACK for each block. */
  lemma LosslessRunsCopy(d: Discipline, c: Job, steps: seq<Step>)
    requires d.tolerant && Receivable(c) && Run(d, c, Init(), steps) && PromptRun(d, c, Init(), steps)
    requires BlockCount(c) <= WRAP || Recent(d.dataAge)
    ensures var s := After(d, c, Init(), steps);
      s.tx.pc == T.Done(true) ==>
        && s.rx.pc == R.Done(true) && s.rx.written == c.file && s.abandoned == 0
        && s.dataSent == s.acksSent == |c.file| / c.blockSize + 1
  {
    InitKeeps(c);
    LostAcksTolerated(d, c, steps);
    TolerantRun(d, c, Init(), steps);
    SingleRun(d, c, Init(), steps);
    BlockCountIsDivision(|c.file|, c.blockSize);
  }
}
