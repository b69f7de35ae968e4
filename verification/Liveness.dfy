/** The system never gets stuck: from every state a run can be in, unless a side has given up, some
    continuation completes the transfer. */
module Liveness {
  import opened Common
  import opened Packets
  import opened Segmentation
  import opened Network
  import opened Safety
  import opened Frontier
  import T = Transmitter
  import R = Receiver

  /** The block under way has been sent. */
  predicate Shipped(s: System) {
    !s.tx.pc.Send? && s.tx.pc != T.Done(false)
  }

  /** Every block begun and every ACK due has been in the network, and the block under way has
      reached a receiver that has accepted it. */
  ghost predicate Recorded(c: Job, s: System) {
    && (forall j :: 1 <= j && (j < s.index || (j == s.index && Shipped(s))) ==> DataOf(c, j) in s.toRx)
    && (forall j: nat :: j <= s.accepted ==> AckOf(j) in s.toTx)
    && (s.accepted == s.index > 0 ==> s.reached)
  }

  lemma TxStepRecords(c: Job, s: System, step: Step)
    requires Inv(c, s) && Recorded(c, s) && Enabled(c, s, step)
    requires !step.RxBegins? && !step.RxChecks? && !step.RxHears? && !step.RxTimesOut?
    ensures Recorded(c, Next(c, s, step))
  {
    hide Wrap, BlockCount;
  }

  lemma RxStepRecords(c: Job, s: System, step: Step)
    requires Inv(c, s) && Recorded(c, s) && Enabled(c, s, step) && Faithful(s, step)
    requires step.RxBegins? || step.RxChecks? || step.RxHears? || step.RxTimesOut?
    ensures Recorded(c, Next(c, s, step))
  {
    hide Wrap, BlockCount;
  }

  lemma StepRecords(c: Job, s: System, step: Step)
    requires Inv(c, s) && Recorded(c, s) && Enabled(c, s, step) && Faithful(s, step)
    ensures Recorded(c, Next(c, s, step))
  {
    if step.RxBegins? || step.RxChecks? || step.RxHears? || step.RxTimesOut? {
      RxStepRecords(c, s, step);
    } else {
      TxStepRecords(c, s, step);
    }
  }

  lemma {:induction false} RecordedRun(d: Discipline, c: Job, s: System, steps: seq<Step>)
    requires Inv(c, s) && Recorded(c, s) && Lag(d, s)
    requires Run(d, c, s, steps) && Guarded(d, c, After(d, c, s, steps))
    ensures var s' := After(d, c, s, steps); Inv(c, s') && Recorded(c, s')
    decreases |steps|
  {
    hide Next, Recorded;
    if steps != [] {
      AbandonedGrows(d, c, s, steps);
      GuardedFaithful(d, c, s, steps[0]);
      LagKeeps(d, c, s, steps[0]);
      StepKeeps(c, s, steps[0]);
      StepRecords(c, s, steps[0]);
      RecordedRun(d, c, Next(c, s, steps[0]), steps[1..]);
    }
  }

  // ---------- Completing from anywhere ----------

  /** Neither side has given up. */
  predicate Alive(s: System) {
    s.tx.pc != T.Done(false) && s.rx.pc != R.Done(false)
  }

  ghost predicate Good(c: Job, s: System) {
    Inv(c, s) && Recorded(c, s) && Alive(s)
  }

  /** Steps that bring both sides into their loops and the block under way into the network. */
  lemma Wake(d: Discipline, c: Job, s: System) returns (steps: seq<Step>, s': System)
    requires Good(c, s)
    ensures Leads(d, c, s, steps, s') && Good(c, s') && s'.abandoned == s.abandoned
    ensures !s'.tx.pc.Begin? && !s'.tx.pc.Send? && !s'.rx.pc.Begin?
  {
    steps, s' := [], s;
    if s'.tx.pc.Begin? {
      steps, s' := Onward(d, c, s, steps, s', TxBegins(false));
    }
    if s'.tx.pc.Send? {
      steps, s' := Onward(d, c, s, steps, s', TxSends(false));
    }
    if s'.rx.pc.Begin? {
      steps, s' := Onward(d, c, s, steps, s', RxBegins(false));
    }
  }

  /** One more step without any danger. */
  lemma Onward(d: Discipline, c: Job, s: System, steps: seq<Step>, s': System, step: Step)
      returns (longer: seq<Step>, s'': System)
    requires Leads(d, c, s, steps, s') && Good(c, s') && Enabled(c, s', step)
    requires step == TxBegins(false) || step == TxSends(false) || step == RxBegins(false)
    ensures Leads(d, c, s, longer, s'') && s'' == Next(c, s', step) && Good(c, s'')
  {
    longer := Then(d, c, s, steps, s', step);
    s'' := Next(c, s', step);
    StepKeeps(c, s', step);
    StepRecords(c, s', step);
  }

  /** The receiver takes every block it has missed: all of them have been sent. */
  lemma {:induction false} CatchUp(d: Discipline, c: Job, s: System) returns (steps: seq<Step>, s': System)
    requires AllowsCurrent(d) && Receivable(c) && Good(c, s) && Shipped(s) && !s.rx.pc.Begin?
    ensures Leads(d, c, s, steps, s') && Good(c, s') && s'.accepted == s'.index && !s'.rx.pc.Begin?
    ensures s'.tx == s.tx && s'.abandoned == s.abandoned
    decreases s.index - s.accepted
  {
    steps, s' := [], s;
    if s.accepted < s.index {
      var s1, more;
      steps, s1 := TakeMissed(d, c, s);
      more, s' := CatchUp(d, c, s1);
      Join(d, c, s, steps, s1, more, s');
      steps := steps + more;
    }
  }

  lemma TakeMissed(d: Discipline, c: Job, s: System) returns (steps: seq<Step>, s': System)
    requires AllowsCurrent(d) && Receivable(c) && Good(c, s) && Shipped(s) && !s.rx.pc.Begin?
    requires s.accepted < s.index
    ensures Leads(d, c, s, steps, s') && Good(c, s') && s'.accepted == s.accepted + 1 && !s'.rx.pc.Begin?
    ensures s'.tx == s.tx && s'.abandoned == s.abandoned && s'.index == s.index
  {
    hide Next, Run, After;
    var m := DataOf(c, s.accepted + 1);
    steps, s' := TakeNext(d, c, s, m);
    Accepting(c, s, m);
    TakenRecords(c, s, m);
  }

  lemma TakenRecords(c: Job, s: System, m: Tagged)
    requires Inv(c, s) && Recorded(c, s) && Ready(s) && m in s.toRx && m == DataOf(c, s.accepted + 1)
    ensures Recorded(c, Taken(c, s, m))
  {
    if s.rx.pc.Check? {
      StepKeeps(c, s, RxChecks(false));
      StepRecords(c, s, RxChecks(false));
    }
    StepRecords(c, Listening(c, s), RxHears(m, false));
  }

  /** The ACK of the block under way, which has been sent, arrives. */
  lemma HearAck(d: Discipline, c: Job, s: System) returns (steps: seq<Step>, s': System)
    requires AllowsCurrent(d) && Good(c, s) && s.tx.pc.Wait? && s.accepted == s.index
    ensures Leads(d, c, s, steps, s') && Good(c, s') && s'.abandoned == s.abandoned && s'.accepted == s'.index
    ensures (s'.tx.pc.Fetch? || s'.tx.pc == T.Done(true)) && s'.rx == s.rx
  {
    var step := TxHears(AckOf(s.index));
    T.TxReceiveKeeps(c, s.tx, s.index, Datagram(AckPacket(Wrap(s.index))));
    steps := Then(d, c, s, [], s, step);
    s' := Next(c, s, step);
    StepKeeps(c, s, step);
    StepRecords(c, s, step);
  }

  /** Both sides are now in step, and what is left of the file follows without loss. */
  lemma Finish(d: Discipline, c: Job, s: System) returns (steps: seq<Step>, s': System)
    requires AllowsCurrent(d) && Receivable(c) && Good(c, s)
    ensures Leads(d, c, s, steps, s') && Completed(c, s') && s'.abandoned == s.abandoned
  {
    hide Next, Run, After;
    var s1, s2, more;
    steps, s1 := Wake(d, c, s);
    more, s2 := CatchUp(d, c, s1);
    Join(d, c, s, steps, s1, more, s2);
    steps := steps + more;
    s' := s2;
    if s2.tx.pc.Wait? {
      more, s' := HearAck(d, c, s2);
      Join(d, c, s, steps, s2, more, s');
      steps := steps + more;
    }
    if s'.tx.pc.Fetch? {
      var s3 := s';
      more, s' := CompleteFrom(d, c, s3, s3.index, seq(BlockCount(c) - s3.index, _ => false));
      Join(d, c, s, steps, s3, more, s');
      steps := steps + more;
    }
  }

  lemma {:induction false} GivenUp(d: Discipline, c: Job, s: System, steps: seq<Step>)
    requires Run(d, c, s, steps) && !Alive(s)
    ensures !Alive(After(d, c, s, steps))
    decreases |steps|
  {
    if steps != [] {
      GivenUp(d, c, Next(c, s, steps[0]), steps[1..]);
    }
  }

  /** `more` completes the transfer on both sides, abandoning no further block. */
  ghost predicate Finishes(d: Discipline, c: Job, s: System, more: seq<Step>) {
    && Run(d, c, s, more)
    && var s' := After(d, c, s, more);
      s'.tx.pc == T.Done(true) && s'.rx.pc == R.Done(true) && s'.abandoned == s.abandoned
  }

  /** Whatever the network has lost, repeated and delayed so far and however many blocks were
      abandoned, a transfer that is safe can still be completed with the whole file, exactly if the
      file is receivable and neither side has given up. */
  lemma CompletableIffAlive(d: Discipline, c: Job, steps: seq<Step>)
    requires AllowsCurrent(d) && Run(d, c, Init(), steps) && Guarded(d, c, After(d, c, Init(), steps))
    ensures var s := After(d, c, Init(), steps);
      && ((exists more :: Finishes(d, c, s, more)) <==> Receivable(c) && Alive(s))
      && forall more :: Finishes(d, c, s, more) ==> After(d, c, s, more).rx.written == c.file
  {
    var s := After(d, c, Init(), steps);
    InitKeeps(c);
    RecordedRun(d, c, Init(), steps);
    forall more | Finishes(d, c, s, more)
      ensures Receivable(c) && Alive(s) && After(d, c, s, more).rx.written == c.file
    {
      RunConcat(d, c, Init(), steps, more);
      RecordedRun(d, c, Init(), steps + more);
      InvIsSafe(c, After(d, c, s, more));
      if !Alive(s) {
        GivenUp(d, c, s, more);
      }
    }
    if Receivable(c) && Alive(s) {
      var more, s' := Finish(d, c, s);
      assert Finishes(d, c, s, more);
    }
  }

  lemma {:induction false} TolerantRecorded(d: Discipline, c: Job, s: System, steps: seq<Step>)
    requires d.tolerant && Receivable(c) && (BlockCount(c) <= WRAP || Recent(d.dataAge))
    requires Inv(c, s) && InStep(s) && Recorded(c, s) && Run(d, c, s, steps)
    ensures var s' := After(d, c, s, steps); Inv(c, s') && InStep(s') && Recorded(c, s')
    decreases |steps|
  {
    hide Next, Recorded, InStep;
    if steps != [] {
      TolerantFaithful(d, c, s, steps[0]);
      InStepKeeps(d, c, s, steps[0]);
      StepKeeps(c, s, steps[0]);
      StepRecords(c, s, steps[0]);
      TolerantRecorded(d, c, Next(c, s, steps[0]), steps[1..]);
    }
  }

  /** A tolerant run of a receivable file can always be completed with the whole file, however many
      ACKs it has lost and however long the file is. */
  lemma NeverStuck(d: Discipline, c: Job, steps: seq<Step>) returns (more: seq<Step>)
    requires d.tolerant && AllowsCurrent(d) && Receivable(c) && Run(d, c, Init(), steps)
    requires BlockCount(c) <= WRAP || Recent(d.dataAge)
    ensures Finishes(d, c, After(d, c, Init(), steps), more)
    ensures After(d, c, After(d, c, Init(), steps), more).rx.written == c.file
  {
    InitKeeps(c);
    TolerantRecorded(d, c, Init(), steps);
    var s';
    more, s' := Finish(d, c, After(d, c, Init(), steps));
    InvIsSafe(c, s');
  }
}
