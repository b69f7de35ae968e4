/** Each side of a run of the system is a run of its transfer loop against some answers, so what is
    proved of the system holds of the loops, and the other way round. */
module Projection {
  import opened Common
  import opened Packets
  import opened Link
  import opened Segmentation
  import opened Network
  import opened Safety
  import T = Transmitter
  import R = Receiver

  predicate OfReceiver(step: Step) {
    step.RxBegins? || step.RxChecks? || step.RxHears? || step.RxTimesOut?
  }

  /** The answers that make the receiver take this step, put before those it is given later. */
  function RxAnswers(s: System, step: Step, w: Wire): Wire {
    match step
    case RxBegins(fault) => w.(faults := [fault] + w.faults)
    case RxChecks(fault) => w.(faults := [fault] + w.faults)
    case RxHears(m, fault) =>
      var w' := w.(inbox := [Datagram(m.packet)] + w.inbox);
      if m.packet.opcode != ERROR && R.Matches(s.rx, m.packet) then w'.(faults := [fault] + w.faults) else w'
    case RxTimesOut => w.(inbox := [TimedOut] + w.inbox)
    case _ => w
  }

  lemma AnswersAreLists(s: System, step: Step, w: Wire)
    ensures var v := RxAnswers(s, step, w); v == w.(faults := v.faults, inbox := v.inbox)
  {
  }

  lemma OtherSideStays(c: Job, s: System, step: Step)
    requires Enabled(c, s, step)
    ensures if OfReceiver(step) then Next(c, s, step).tx == s.tx else Next(c, s, step).rx == s.rx
  {
  }

  /** The history after this step, which does not depend on the later answers. */
  function RxHistory(c: Job, s: System, step: Step, past: Wire): Wire {
    R.RxStep(SinkOf(c), R.RxEnd(s.rx, RxAnswers(s, step, past.(faults := [], inbox := [])))).wire
  }

  lemma RxStepAgrees(c: Job, s: System, step: Step, past: Wire, faults: seq<bool>, inbox: seq<Recv>)
    requires Enabled(c, s, step) && OfReceiver(step)
    ensures R.RxStep(SinkOf(c), R.RxEnd(s.rx, RxAnswers(s, step, past.(faults := faults, inbox := inbox))))
         == R.RxEnd(Next(c, s, step).rx, RxHistory(c, s, step, past).(faults := faults, inbox := inbox))
  {
    if step.RxHears? {
      RxHearsAgrees(c, s, step, past, faults, inbox);
    } else {
      assert ([TimedOut] + inbox)[1..] == inbox && ([TimedOut] + [])[1..] == [];
      assert !step.RxTimesOut? ==> ([step.fault] + faults)[1..] == faults && ([step.fault] + [])[1..] == [];
    }
  }

  lemma RxHearsAgrees(c: Job, s: System, step: Step, past: Wire, faults: seq<bool>, inbox: seq<Recv>)
    requires Enabled(c, s, step) && step.RxHears?
    ensures R.RxStep(SinkOf(c), R.RxEnd(s.rx, RxAnswers(s, step, past.(faults := faults, inbox := inbox))))
         == R.RxEnd(Next(c, s, step).rx, RxHistory(c, s, step, past).(faults := faults, inbox := inbox))
  {
    hide R.RxWrite, R.Payload;
    var a := Datagram(step.message.packet);
    assert ([a] + inbox)[1..] == inbox && ([a] + [])[1..] == [];
    assert ([step.fault] + faults)[1..] == faults && ([step.fault] + [])[1..] == [];
  }

  /** The receiver of a run that has returned did what `tftp_receive_file` does on these answers. */
  lemma {:induction false} RxProjection(d: Discipline, c: Job, s: System, steps: seq<Step>, past: Wire)
      returns (faults: seq<bool>, inbox: seq<Recv>)
    requires Run(d, c, s, steps) && After(d, c, s, steps).rx.pc.Done?
    ensures R.RxRun(SinkOf(c), R.RxEnd(s.rx, past.(faults := faults, inbox := inbox))).rx
         == After(d, c, s, steps).rx
    decreases |steps|
  {
    hide R.RxRun, Next, R.RxStep, RxAnswers, RxHistory;
    if steps == [] {
      faults, inbox := [], [];
      R.RxRunStep(SinkOf(c), R.RxEnd(s.rx, past.(faults := [], inbox := [])));
    } else {
      var step := steps[0];
      OtherSideStays(c, s, step);
      if OfReceiver(step) {
        faults, inbox := RxProjection(d, c, Next(c, s, step), steps[1..], RxHistory(c, s, step, past));
        var w := past.(faults := faults, inbox := inbox);
        RxStepAgrees(c, s, step, past, faults, inbox);
        R.RxRunStep(SinkOf(c), R.RxEnd(s.rx, RxAnswers(s, step, w)));
        AnswersAreLists(s, step, w);
        faults, inbox := RxAnswers(s, step, w).faults, RxAnswers(s, step, w).inbox;
      } else {
        faults, inbox := RxProjection(d, c, Next(c, s, step), steps[1..], past);
      }
    }
  }

  /** The answers that make the transmitter take this step, put before those it is given later. */
  function TxAnswers(step: Step, w: Wire): Wire {
    match step
    case TxBegins(fault) => w.(faults := [fault] + w.faults)
    case TxFetches(fault) => w.(faults := [fault] + w.faults)
    case TxSends(fault) => w.(faults := [fault] + w.faults)
    case TxHears(m) => w.(inbox := [Datagram(m.packet)] + w.inbox)
    case TxTimesOut => w.(inbox := [TimedOut] + w.inbox)
    case TxFails => w.(inbox := [Failed] + w.inbox)
    case _ => w
  }

  lemma TxAnswersAreLists(step: Step, w: Wire)
    ensures var v := TxAnswers(step, w); v == w.(faults := v.faults, inbox := v.inbox)
  {
  }

  function TxHistory(c: Job, s: System, step: Step, past: Wire): Wire
    requires s.tx.offset <= |c.file|
  {
    T.TxStep(c, T.TxEnd(s.tx, TxAnswers(step, past.(faults := [], inbox := [])))).wire
  }

  lemma TxStepAgrees(c: Job, s: System, step: Step, past: Wire, faults: seq<bool>, inbox: seq<Recv>)
    requires Enabled(c, s, step) && !OfReceiver(step) && T.TxOk(c, s.tx)
    ensures T.TxStep(c, T.TxEnd(s.tx, TxAnswers(step, past.(faults := faults, inbox := inbox))))
         == T.TxEnd(Next(c, s, step).tx, TxHistory(c, s, step, past).(faults := faults, inbox := inbox))
  {
    var v := TxAnswers(step, past.(faults := faults, inbox := inbox));
    assert v.inbox != inbox ==> v.inbox[1..] == inbox;
    assert v.faults != faults ==> v.faults[1..] == faults;
  }

  /** The transmitter of a run that has returned did what `tftp_transmit_file` does on these
      answers. */
  lemma {:induction false} TxProjection(d: Discipline, c: Job, s: System, steps: seq<Step>, past: Wire)
      returns (faults: seq<bool>, inbox: seq<Recv>)
    requires T.TxOk(c, s.tx) && Run(d, c, s, steps) && After(d, c, s, steps).tx.pc.Done?
    ensures T.TxRun(c, T.TxEnd(s.tx, past.(faults := faults, inbox := inbox))).tx == After(d, c, s, steps).tx
    decreases |steps|
  {
    hide T.TxRun, Next, T.TxStep, T.TxOk, TxAnswers, TxHistory;
    if steps == [] {
      faults, inbox := [], [];
      T.TxRunStep(c, T.TxEnd(s.tx, past.(faults := [], inbox := [])));
    } else {
      var step := steps[0];
      OtherSideStays(c, s, step);
      if OfReceiver(step) {
        faults, inbox := TxProjection(d, c, Next(c, s, step), steps[1..], past);
      } else {
        T.TxRunStep(c, T.TxEnd(s.tx, TxAnswers(step, past.(faults := [], inbox := []))));
        TxStepAgrees(c, s, step, past, [], []);
        assert T.TxOk(c, Next(c, s, step).tx);
        TxOkReads(c, s.tx);
        faults, inbox := TxProjection(d, c, Next(c, s, step), steps[1..], TxHistory(c, s, step, past));
        var w := past.(faults := faults, inbox := inbox);
        TxStepAgrees(c, s, step, past, faults, inbox);
        T.TxRunStep(c, T.TxEnd(s.tx, TxAnswers(step, w)));
        TxAnswersAreLists(step, w);
        faults, inbox := TxAnswers(step, w).faults, TxAnswers(step, w).inbox;
      }
    }
  }

  lemma TxOkReads(c: Job, t: T.Tx)
    requires T.TxOk(c, t)
    ensures t.offset <= |c.file|
  {
  }

  function TxSteps(steps: seq<Step>): nat {
    if steps == [] then 0 else (if OfReceiver(steps[0]) then 0 else 1) + TxSteps(steps[1..])
  }

  /** In every interleaving the transmitter takes only so many steps, whatever the network does. */
  lemma {:induction false} TransmitterStops(d: Discipline, c: Job, s: System, steps: seq<Step>)
    requires T.TxOk(c, s.tx) && Run(d, c, s, steps)
    ensures var t := After(d, c, s, steps).tx;
      T.TxOk(c, t) && TxSteps(steps) + T.TxMeasure(c, t) <= T.TxMeasure(c, s.tx)
    decreases |steps|
  {
    hide Next, T.TxStep, T.TxOk, T.TxMeasure, TxAnswers, TxHistory;
    if steps != [] {
      var step, past := steps[0], Fresh([], []);
      OtherSideStays(c, s, step);
      if !OfReceiver(step) {
        T.TxStepDecreases(c, T.TxEnd(s.tx, TxAnswers(step, past)));
        TxStepAgrees(c, s, step, past, [], []);
        NotDone(c, s, step);
      }
      TransmitterStops(d, c, Next(c, s, step), steps[1..]);
    }
  }

  lemma NotDone(c: Job, s: System, step: Step)
    requires Enabled(c, s, step)
    ensures if OfReceiver(step) then !s.rx.pc.Done? else !s.tx.pc.Done?
  {
  }

  function RxSteps(steps: seq<Step>): nat {
    if steps == [] then 0 else (if OfReceiver(steps[0]) then 1 else 0) + RxSteps(steps[1..])
  }

  /** The deliveries of a run that bring the receiver a datagram it ignores. */
  ghost function Strays(d: Discipline, c: Job, s: System, steps: seq<Step>): nat
    requires Run(d, c, s, steps)
    decreases |steps|
  {
    if steps == [] then 0 else (if IsStray(s, steps[0]) then 1 else 0) + Strays(d, c, Next(c, s, steps[0]), steps[1..])
  }

  predicate IsStray(s: System, step: Step) {
    step.RxHears? && R.Stray(s.rx, step.message.packet)
  }

  lemma RxStepCost(c: Job, s: System, step: Step)
    requires Enabled(c, s, step)
    ensures var s' := Next(c, s, step);
      R.Patience(s'.rx) + (if OfReceiver(step) then 1 else 0)
      <= R.Patience(s.rx) + R.FULL_PATIENCE * (s'.accepted - s.accepted) + if IsStray(s, step) then 1 else 0
  {
  }

  /** In every interleaving on any network, only accepted blocks and stray datagrams keep the
      receiver going. */
  lemma {:induction false} ReceiverCost(d: Discipline, c: Job, s: System, steps: seq<Step>)
    requires Run(d, c, s, steps)
    ensures var s' := After(d, c, s, steps);
      RxSteps(steps) + R.Patience(s'.rx)
      <= R.Patience(s.rx) + R.FULL_PATIENCE * (s'.accepted - s.accepted) + Strays(d, c, s, steps)
    decreases |steps|
  {
    hide Next, R.Patience, IsStray;
    if steps != [] {
      RxStepCost(c, s, steps[0]);
      ReceiverCost(d, c, Next(c, s, steps[0]), steps[1..]);
    }
  }

  /** The receiver of a file stops whenever only finitely many stray datagrams arrive: in a guarded
      run it takes at most eight steps for each block and eight more, and one for each stray. */
  lemma ReceiverStops(d: Discipline, c: Job, steps: seq<Step>)
    requires Run(d, c, Init(), steps) && Guarded(d, c, After(d, c, Init(), steps))
    ensures RxSteps(steps) + R.Patience(After(d, c, Init(), steps).rx)
         <= R.FULL_PATIENCE * (BlockCount(c) + 1) + Strays(d, c, Init(), steps)
  {
    ReceiverCost(d, c, Init(), steps);
    GuardedSafety(d, c, steps);
  }

  /** Each block begun stands for five DATA packets at most, those of the block under way still to
      be sent included. */
  ghost predicate Budgeted(c: Job, s: System) {
    && T.TxInv(c, s.tx, s.index)
    && s.dataSent + (if s.tx.pc.Send? then MAX_RETRY_COUNT - s.tx.resend
                     else if s.tx.pc.Wait? then MAX_RETRY_COUNT - 1 - s.tx.resend else 0)
       <= MAX_RETRY_COUNT * s.index
  }

  lemma AnswerKeepsBudget(c: Job, s: System, answer: Recv)
    requires Budgeted(c, s) && s.tx.pc.Wait?
    ensures Budgeted(c, TxGets(c, s, answer))
  {
    T.TxReceiveKeeps(c, s.tx, s.index, answer);
  }

  lemma StepKeepsBudget(c: Job, s: System, step: Step)
    requires Budgeted(c, s) && Enabled(c, s, step)
    ensures Budgeted(c, Next(c, s, step))
  {
    match step
    case TxFetches(fault) => T.TxFetchKeeps(c, s.tx, s.index, fault);
    case TxSends(fault) => T.TxSendKeeps(c, s.tx, s.index, fault);
    case TxHears(m) => AnswerKeepsBudget(c, s, Datagram(m.packet));
    case TxTimesOut => AnswerKeepsBudget(c, s, TimedOut);
    case TxFails => AnswerKeepsBudget(c, s, Failed);
    case _ => OtherSideStays(c, s, step);
  }

  lemma {:induction false} RunKeepsBudget(d: Discipline, c: Job, s: System, steps: seq<Step>)
    requires Budgeted(c, s) && Run(d, c, s, steps)
    ensures Budgeted(c, After(d, c, s, steps))
    decreases |steps|
  {
    hide Next, Budgeted;
    if steps != [] {
      StepKeepsBudget(c, s, steps[0]);
      RunKeepsBudget(d, c, Next(c, s, steps[0]), steps[1..]);
    }
  }

  /** On every network whatever, guarded or not, at most five DATA packets are sent for each block. */
  lemma DataBounded(d: Discipline, c: Job, steps: seq<Step>)
    requires Run(d, c, Init(), steps)
    ensures After(d, c, Init(), steps).dataSent <= MAX_RETRY_COUNT * BlockCount(c)
  {
    RunKeepsBudget(d, c, Init(), steps);
  }

  /** Both loops inside the network: when a side of a run has returned, some answers make its loop
      end in that very state. */
  lemma SidesAreLoops(d: Discipline, c: Job, steps: seq<Step>)
    requires Run(d, c, Init(), steps)
    ensures var s := After(d, c, Init(), steps);
      && (s.rx.pc.Done? ==> exists faults, inbox ::
            R.RxRun(SinkOf(c), R.RxEnd(R.RX_START, Fresh(faults, inbox))).rx == s.rx)
      && (s.tx.pc.Done? ==> exists faults, inbox ::
            T.TxRun(c, T.TxEnd(T.TX_START, Fresh(faults, inbox))).tx == s.tx)
  {
    var s := After(d, c, Init(), steps);
    if s.rx.pc.Done? {
      var faults, inbox := RxProjection(d, c, Init(), steps, Fresh([], []));
      assert R.RxRun(SinkOf(c), R.RxEnd(R.RX_START, Fresh(faults, inbox))).rx == s.rx;
    }
    if s.tx.pc.Done? {
      var faults, inbox := TxProjection(d, c, Init(), steps, Fresh([], []));
      assert T.TxRun(c, T.TxEnd(T.TX_START, Fresh(faults, inbox))).tx == s.tx;
    }
  }
}
