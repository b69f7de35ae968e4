/** What a whole transfer leaves behind in the file system of the receiving end. */
module Upload {
  import opened Common
  import opened Packets
  import opened Link
  import opened Segmentation
  import opened Requests
  import opened Network
  import opened Safety
  import F = Frontier
  import R = Receiver
  import X = Transfer

  type Files = map<cstring, seq<byte>>

  /** The circumstances of a task besides the network: whether the file can be created, the packet
      buffers allocated and ACK 0 sent. */
  datatype Circumstances = Circumstances(creatable: bool, buffered: bool, acknowledged: bool)

  /** A file system with no other operation on the path at hand. */
  class Storage {
    var files: Files

    constructor (files: Files)
      ensures this.files == files
    {
      this.files := files;
    }
  }

  /** The task goes as far as `tftp_receive_file`. */
  predicate Receives(files: Files, path: cstring, at: Circumstances) {
    path !in files && at.creatable && at.buffered && at.acknowledged
  }

  /** The files after the server's RECEIVE task, when its receiver ends as `r`. */
  function AfterServerTask(files: Files, path: cstring, at: Circumstances, r: R.Rx): Files {
    if path in files || !at.creatable then files
    else if !Receives(files, path, at) then files[path := []]
    else if r.pc == R.Done(true) then files[path := r.written]
    else files - {path}
  }

  /** The files after the client's read, which keeps what it has got. */
  function AfterClientRead(files: Files, path: cstring, at: Circumstances, r: R.Rx): Files {
    if path in files || !at.creatable then files
    else if !at.buffered then files[path := []]
    else files[path := r.written]
  }

  /** Reception into the file just created, which is removed again on failure. */
  method ReceiveOrRemove(storage: Storage, path: cstring, k: R.Sink, socket: Socket)
    modifies storage, socket
    ensures var e := R.RxRun(k, R.RxEnd(R.RX_START, old(socket.View())));
      && storage.files == (if e.rx.pc == R.Done(true) then old(storage.files)[path := e.rx.written]
                           else old(storage.files) - {path})
      && socket.View() == e.wire
  {
    hide R.RxRun;
    var transfer := new X.TransferData(k.blockSize, []);
    var received, prev := transfer.ReceiveFile(k, socket);
    storage.files := storage.files[path := transfer.file];
    if !received {
      storage.files := storage.files - {path};
    }
  }

  /** The RECEIVE case of `server_task_start`. */
  method ServerReceiveTask(storage: Storage, path: cstring, at: Circumstances, k: R.Sink, socket: Socket)
    modifies storage, socket
    ensures storage.files == AfterServerTask(old(storage.files), path, at,
      R.RxRun(k, R.RxEnd(R.RX_START, old(socket.View()).Emit([AckPacket(0)]))).rx)
    ensures socket.View() ==
      if path !in old(storage.files) && at.creatable && at.buffered && at.acknowledged then
        R.RxRun(k, R.RxEnd(R.RX_START, old(socket.View()).Emit([AckPacket(0)]))).wire
      else if path !in old(storage.files) && at.creatable && at.buffered then old(socket.View())
      else old(socket.View()).Emit([ErrorPacket()])
  {
    hide R.RxRun;
    if path in storage.files || !at.creatable {
      socket.Send(ErrorPacket());
      return;
    }
    storage.files := storage.files[path := []];
    if !at.buffered {
      socket.Send(ErrorPacket());
      return;
    }
    if at.acknowledged {
      socket.Send(AckPacket(0));
      ReceiveOrRemove(storage, path, k, socket);
    }
  }

  /** The outcome of an upload of `source`: stored completely, or nothing has changed. */
  predicate AllOrNothing(before: Files, after: Files, path: cstring, source: seq<byte>) {
    after == before || (path !in before && after == before[path := source])
  }

  /** When the receiver of a safe run has returned, the server's task has stored the whole source or
      left no file, and a file that was there before is untouched: unless it had created the file
      and then could not allocate its buffers or send ACK 0, which leaves an empty file behind. */
  lemma UploadOutcome(c: Job, s: System, files: Files, path: cstring, at: Circumstances)
    requires Safe(c, s) && s.rx.pc.Done?
    ensures var after := AfterServerTask(files, path, at, s.rx);
      && (AllOrNothing(files, after, path, c.file) <==>
            path in files || !at.creatable || (at.buffered && at.acknowledged) || c.file == [])
      && (path in files ==> after == files)
      && (Receives(files, path, at) ==>
            if s.rx.pc == R.Done(true) then after == files[path := c.file] else after == files)
  {
    var after := AfterServerTask(files, path, at, s.rx);
    if path !in files {
      assert files[path := []][path] == [];
      assert files[path := c.file][path] == c.file;
      assert files - {path} == files;
    }
  }

  /** All-or-nothing upload, over all guarded runs. */
  lemma UploadAllOrNothing(d: Discipline, c: Job, steps: seq<Step>, files: Files, path: cstring, at: Circumstances)
    requires Run(d, c, Init(), steps) && After(d, c, Init(), steps).rx.pc.Done?
    requires Guarded(d, c, After(d, c, Init(), steps))
    requires at.buffered && at.acknowledged
    ensures var r := After(d, c, Init(), steps).rx;
      && AllOrNothing(files, AfterServerTask(files, path, at, r), path, c.file)
      && (path !in files && at.creatable && r.pc == R.Done(true) ==>
            AfterServerTask(files, path, at, r) == files[path := c.file])
  {
    GuardedSafety(d, c, steps);
    UploadOutcome(c, After(d, c, Init(), steps), files, path, at);
  }

  /** A client's read leaves the first blocks of the source, and the whole of it if it reports
      success; so it is all-or-nothing if and only if all bytes came in before it ended. */
  lemma ReadLeavesPrefix(d: Discipline, c: Job, steps: seq<Step>, files: Files, path: cstring, at: Circumstances)
    requires Run(d, c, Init(), steps) && After(d, c, Init(), steps).rx.pc.Done?
    requires Guarded(d, c, After(d, c, Init(), steps))
    requires path !in files && at.creatable && at.buffered
    ensures var s := After(d, c, Init(), steps);
      var after := AfterClientRead(files, path, at, s.rx);
      && path in after && after[path] == Concat(FirstBlocks(c, s.accepted)) && after - {path} == files
      && (s.rx.pc == R.Done(true) ==> after[path] == c.file)
      && (AllOrNothing(files, after, path, c.file) <==> Upto(c, s.accepted) == |c.file|)
  {
    var s := After(d, c, Init(), steps);
    GuardedSafety(d, c, steps);
    BlocksRebuildFile(c, s.accepted);
    Stored(files, path, s.rx.written, c.file);
    assert s.rx.written == c.file <==> Upto(c, s.accepted) == |c.file|;
  }

  /** Whatever its receiver does, a client's read touches no file but its own, and not even that if it
      is there before or cannot be created; without buffers it leaves an empty file. */
  lemma ReadTouchesOwnFileOnly(files: Files, path: cstring, at: Circumstances, r: R.Rx)
    ensures var after := AfterClientRead(files, path, at, r);
      && (path in files || !at.creatable ==> after == files)
      && (path !in files && at.creatable ==>
            path in after && after - {path} == files && after[path] == if at.buffered then r.written else [])
  {
    if path !in files {
      assert files[path := r.written] - {path} == files && files[path := []] - {path} == files;
    }
  }

  lemma Stored(files: Files, path: cstring, written: seq<byte>, source: seq<byte>)
    requires path !in files
    ensures var after := files[path := written];
      && path in after && after[path] == written && after - {path} == files
      && (AllOrNothing(files, after, path, source) <==> written == source)
  {
    assert files[path := written][path] == written && files[path := source][path] == source;
    assert files[path := written] - {path} == files;
  }

  /** A receiver that hears nothing any more gives up. */
  lemma {:induction false} Starve(d: Discipline, c: Job, s: System) returns (steps: seq<Step>, s': System)
    requires Inv(c, s) && s.rx.pc.Wait? && !d.tolerant
    ensures F.Leads(d, c, s, steps, s') && s'.rx.pc == R.Done(false)
    ensures s'.accepted == s.accepted && s'.rx.written == s.rx.written && s'.abandoned == s.abandoned
    decreases MAX_RETRY_COUNT - s.rx.resend
  {
    var s1 := Next(c, s, RxTimesOut);
    StepKeeps(c, s, RxTimesOut);
    steps := F.Then(d, c, s, [], s, RxTimesOut);
    s' := s1;
    if s1.rx.pc.Wait? {
      var more;
      more, s' := Starve(d, c, s1);
      F.Join(d, c, s, steps, s1, more, s');
      steps := steps + more;
    }
  }

  /** The transfer can break off behind any block but the last. */
  lemma BreakOff(d: Discipline, c: Job, k: nat) returns (steps: seq<Step>, s: System)
    requires k < BlockCount(c) && F.AllowsCurrent(d) && !d.tolerant
    ensures F.Leads(d, c, Init(), steps, s) && s.rx.pc == R.Done(false) && s.accepted == k && s.abandoned == 0
  {
    hide Next, Run, After;
    var s0, more;
    steps, s0 := F.Reach(d, c, k);
    if s0.rx.pc.Check? {
      steps, s0 := Listen(d, c, steps, s0);
    }
    more, s := Starve(d, c, s0);
    F.Join(d, c, Init(), steps, s0, more, s);
    steps := steps + more;
  }

  lemma Listen(d: Discipline, c: Job, steps: seq<Step>, s: System) returns (longer: seq<Step>, s': System)
    requires F.Leads(d, c, Init(), steps, s) && Inv(c, s) && s.rx.pc.Check?
    ensures F.Leads(d, c, Init(), longer, s') && Inv(c, s') && s'.rx.pc.Wait?
    ensures s'.accepted == s.accepted && s'.abandoned == s.abandoned
  {
    longer := F.Then(d, c, Init(), steps, s, RxChecks(false));
    s' := Next(c, s, RxChecks(false));
    StepKeeps(c, s, RxChecks(false));
  }

  /** A read that breaks off keeps what it has got: of every file with a byte behind its first `k`
      blocks, some run, with every packet current, leaves just those blocks. */
  lemma ReadIsCut(c: Job, k: nat, files: Files, path: cstring, at: Circumstances) returns (steps: seq<Step>)
    requires k < BlockCount(c) && Upto(c, k) < |c.file|
    requires path !in files && at.creatable && at.buffered
    ensures var d := Discipline(Some(1), Some(1), false);
      && Run(d, c, Init(), steps) && After(d, c, Init(), steps).rx.pc.Done?
      && var after := AfterClientRead(files, path, at, After(d, c, Init(), steps).rx);
      && after == files[path := Concat(FirstBlocks(c, k))]
      && !AllOrNothing(files, after, path, c.file)
  {
    var d, s := Discipline(Some(1), Some(1), false), Init();
    steps, s := BreakOff(d, c, k);
    GuardedSafety(d, c, steps);
    BlocksRebuildFile(c, k);
    Stored(files, path, s.rx.written, c.file);
  }
}
