/** The server's two sides of an operation: the listener that admits a request to a slot, and the
    task that carries it out; and what both ends together make of a client's operation. */
module Server {
  import opened Common
  import opened Packets
  import opened Link
  import opened Segmentation
  import opened Requests
  import S = Slots
  import N = Network
  import P = Projection
  import Safety
  import C = Client
  import U = Upload
  import D = Deletion
  import T = Transmitter
  import R = Receiver
  import X = Transfer

  /** Operation data a task can carry out. */
  predicate Servable(op: OperationData) {
    && (op.id.Receive? || op.id.Send? || op.id.HandleDelete?)
    && (op.id.HandleDelete? || BLKSIZE_MIN <= op.blockSize <= BLKSIZE_MAX)
  }

  /** Whatever the datagram, the parser returns nothing but servable operations. */
  lemma ParsedIsServable(b: seq<byte>, received: int)
    requires 2 <= |b|
    ensures Parsed(b, received).Some? ==> Servable(Parsed(b, received).value)
  {
    hide StringAt, ParseMode, ParseBlockSize, ParsedBlockSize;
  }

  // ---------- server_try_create_operation_thread ----------

  datatype Admission = Rejected | Unparsable | Started(slot: nat)

  /** The slots after a request, and what became of it. */
  function Admit(t: S.Table, parsed: Option<OperationData>): (S.Table, Admission)
    requires |t.opData| == |t.occupied|
  {
    var (t', slot) := S.Acquire(t);
    if slot < 0 then (t, Rejected)
    else if parsed.None? then (S.Release(t', slot), Unparsable)
    else (t'.(opData := t'.opData[slot := parsed]), Started(slot))
  }

  /** `server_try_create_operation_thread`, up to the creation of the thread. */
  method TryCreateOperationThread(listener: Listener, slots: S.ServerSlots) returns (admission: Admission)
    requires listener.Valid() && slots.Valid()
    modifies slots, slots.slotOccupiedFlags, slots.opData
    ensures slots.Valid()
    ensures (slots.View(), admission)
         == Admit(old(slots.View()), Parsed(old(listener.requestBuffer[..]), listener.bytesReceived))
  {
    hide Parsed;
    var slot := slots.AcquireSlot();
    if slot == -1 {
      return Rejected;
    }
    var operation := listener.ParseRequest();
    if operation.None? {
      slots.ReleaseSlot(slot);
      return Unparsable;
    }
    slots.opData[slot] := operation;
    return Started(slot);
  }

  /** The steps the listener takes for a request. */
  function AdmissionSteps(t: S.Table, parsed: Option<OperationData>): seq<S.Step> {
    if S.Acquire(t).1 < 0 then [S.Request(parsed)]
    else if parsed.None? then [S.Request(parsed), S.Refuse]
    else [S.Request(parsed), S.Store, S.Spawn]
  }

  /** In any reachable state of the server, admitting a request is a run of the listener's steps: it
      leaves exactly these slots, adds a task for this very request if it was started and none
      otherwise, and changes nothing at all unless it was. The request is rejected if and only if every
      slot has an owner, and otherwise dropped if and only if it cannot be parsed; a task gets the
      lowest slot without an owner. */
  lemma AdmissionIsRun(s: S.Server, parsed: Option<OperationData>)
    requires S.Inv(s) && s.listener.Idle?
    ensures var steps := AdmissionSteps(s.table, parsed);
      && S.Run(s, steps)
      && var (table, admission) := Admit(s.table, parsed);
         var s' := S.After(s, steps);
         && s'.table == table && s'.listener.Idle?
         && (if admission.Started? then
               s'.tasks == s.tasks[s.spawned := S.Task(admission.slot, parsed.value, None)]
             else s'.tasks == s.tasks && table == s.table)
         && (admission.Rejected? <==> forall i :: 0 <= i < |s.table.occupied| ==> S.Owned(s, i))
         && (admission.Unparsable? <==> !admission.Rejected? && parsed.None?)
         && (admission.Started? ==>
               && admission.slot < |s.table.occupied| && !S.Owned(s, admission.slot)
               && forall i :: 0 <= i < admission.slot ==> S.Owned(s, i))
  {
    hide S.Owned, S.Inv;
    AdmissionByOwners(s, parsed);
    AdmissionSteppingIsRun(s, parsed);
  }

  lemma AdmissionByOwners(s: S.Server, parsed: Option<OperationData>)
    requires S.Inv(s)
    ensures var admission := Admit(s.table, parsed).1;
      && (admission.Rejected? <==> forall i :: 0 <= i < |s.table.occupied| ==> S.Owned(s, i))
      && (admission.Unparsable? <==> !admission.Rejected? && parsed.None?)
      && (admission.Started? ==>
            && admission.slot < |s.table.occupied| && !S.Owned(s, admission.slot)
            && forall i :: 0 <= i < admission.slot ==> S.Owned(s, i))
  {
    hide S.Owned;
    S.Acquisition(s);
  }

  lemma AdmissionSteppingIsRun(s: S.Server, parsed: Option<OperationData>)
    requires S.Inv(s) && s.listener.Idle?
    ensures var steps := AdmissionSteps(s.table, parsed);
      && S.Run(s, steps)
      && var (table, admission) := Admit(s.table, parsed);
         var s' := S.After(s, steps);
         && s'.table == table && s'.listener.Idle?
         && (if admission.Started? then
               s'.tasks == s.tasks[s.spawned := S.Task(admission.slot, parsed.value, None)]
             else s'.tasks == s.tasks && table == s.table)
  {
    var first := S.Next(s, S.Request(parsed));
    S.StepKeeps(s, S.Request(parsed));
    var steps := AdmissionSteps(s.table, parsed);
    assert steps[1..] == [] || steps[1..] == [S.Refuse] || steps[1..] == [S.Store, S.Spawn];
    if first.listener.Holding? {
      var slot := first.listener.slot;
      assert S.ListenerOwns(first, slot);
      if parsed.None? {
        assert S.After(first, [S.Refuse]) == S.Next(first, S.Refuse);
        assert s.table.occupied[slot := true][slot := false] == s.table.occupied;
      } else {
        var second := S.Next(first, S.Store);
        assert [S.Store, S.Spawn][1..] == [S.Spawn] && [S.Spawn][1..] == [];
        assert S.After(second, [S.Spawn]) == S.Next(second, S.Spawn);
      }
    }
  }

  // ---------- server_task_start ----------

  /** The circumstances of a task: whether the server is being terminated, those of a reception,
      and whether an existing file can be opened and removed. */
  datatype Conditions = Conditions(terminated: bool, receiving: U.Circumstances, readable: bool, removable: bool)

  /** The SEND case: the file is transmitted or an ERROR sent. On a socket that has sent nothing yet,
      the blocks of that very file go out, all of them if nothing goes wrong. */
  method ServerSendTask(storage: U.Storage, path: cstring, at: Conditions, blockSize: BlockSize, socket: Socket)
      returns (ghost counts: seq<nat>)
    modifies socket
    ensures socket.View() ==
      if path in storage.files && at.readable && at.receiving.buffered then
        T.TxRun(Job(storage.files[path], blockSize, false), T.TxEnd(T.TX_START, old(socket.View()))).wire
      else old(socket.View()).Emit([ErrorPacket()])
    ensures path in storage.files && at.readable && at.receiving.buffered ==>
      old(socket.sent) == [] && !old(socket.faulted) ==>
        T.Carried(Job(storage.files[path], blockSize, false), |old(socket.heard)|, socket.View(), counts)
  {
    hide T.TxRun, T.Carried, T.Clean, T.Settled;
    counts := [];
    if path in storage.files && at.readable && at.receiving.buffered {
      ghost var c := Job(storage.files[path], blockSize, false);
      if socket.sent == [] && !socket.faulted {
        counts := T.Transmission(c, socket.View());
      }
      var transfer := new X.TransferData(blockSize, storage.files[path]);
      var ok := transfer.TransmitFile(blockSize, socket);
    } else {
      socket.Send(ErrorPacket());
    }
  }

  /** `server_task_start`: whatever happens, it ends by releasing its own slot, once, and it touches
      no other slot. */
  method TaskStart(slots: S.ServerSlots, slot: nat, storage: U.Storage, at: Conditions, socket: Socket)
      returns (ghost counts: seq<nat>)
    requires slots.Valid() && slot < slots.opData.Length
    requires slots.opData[slot].Some? && Servable(slots.opData[slot].value)
    modifies slots, slots.slotOccupiedFlags, storage, socket
    ensures slots.Valid() && slots.View() == S.Release(old(slots.View()), slot)
    ensures at.terminated ==> storage.files == old(storage.files) && socket.View() == old(socket.View())
    ensures var op := slots.opData[slot].value;
      !at.terminated ==>
        match op.id
        case Receive =>
          var e := R.RxRun(R.Sink(op.blockSize, false),
                           R.RxEnd(R.RX_START, old(socket.View()).Emit([AckPacket(0)])));
          && storage.files == U.AfterServerTask(old(storage.files), op.path, at.receiving, e.rx)
          && socket.View() == (
               if op.path in old(storage.files) || !at.receiving.creatable || !at.receiving.buffered
               then old(socket.View()).Emit([ErrorPacket()])
               else if !at.receiving.acknowledged then old(socket.View())
               else e.wire)
        case Send =>
          && storage.files == old(storage.files)
          && (op.path in storage.files && at.readable && at.receiving.buffered ==>
                var c := Job(storage.files[op.path], op.blockSize, false);
                && socket.View() == T.TxRun(c, T.TxEnd(T.TX_START, old(socket.View()))).wire
                && (old(socket.sent) == [] && !old(socket.faulted) ==>
                      T.Carried(c, |old(socket.heard)|, socket.View(), counts)))
          && (op.path !in storage.files || !at.readable || !at.receiving.buffered ==>
                socket.View() == old(socket.View()).Emit([ErrorPacket()]))
        case _ =>
          var removed := op.path in old(storage.files) && at.readable && at.removable;
          && storage.files == (if removed then old(storage.files) - {op.path} else old(storage.files))
          && socket.sent == old(socket.sent) + [AckPacket(0), if removed then AckPacket(1) else ErrorPacket()]
  {
    hide T.TxRun, R.RxRun, U.AfterServerTask, T.Carried;
    var op := slots.opData[slot].value;
    counts := [];
    if !at.terminated {
      match op.id {
        case Receive =>
          U.ServerReceiveTask(storage, op.path, at.receiving, R.Sink(op.blockSize, false), socket);
        case Send =>
          counts := ServerSendTask(storage, op.path, at, op.blockSize, socket);
        case HandleDelete =>
          var ok := D.DeleteFile(storage, op.path, at.readable, at.removable, socket);
      }
    }
    slots.ReleaseSlot(slot);
  }

  // ---------- Both ends together ----------

  /** `s` is the end of a run of a transfer of `c` that satisfies the hypothesis of one of the safety
      theorems, and its receiver has returned. */
  ghost predicate Ended(n: N.Discipline, c: Job, steps: seq<N.Step>, s: N.System) {
    N.Run(n, c, N.Init(), steps) && N.After(n, c, N.Init(), steps) == s && Safety.Guarded(n, c, s) && s.rx.pc.Done?
  }

  /** A client's write, from its request to the file in the server's storage: the server parses the
      request to a reception at the client's block size, so that both ends take part in the transfer
      of one and the same job, and whatever the network does to it, the server ends with the whole
      content under the name of the client's file, or with its files unchanged. */
  lemma WriteEndToEnd(n: N.Discipline, d: OperationData, c: Job, steps: seq<N.Step>, s: N.System,
                      files: U.Files, at: U.Circumstances)
    requires ClientData(d) && d.id.Send? && |Basename(d.path)| <= FILENAME_MAX
    requires c.blockSize == d.blockSize && !c.acceptEmpty && Ended(n, c, steps, s)
    requires at.buffered && at.acknowledged
    ensures AtServer(d) == Some(Answer(d))
    ensures var op := Answer(d);
      var after := U.AfterServerTask(files, op.path, at, s.rx);
      && op.id.Receive? && R.Sink(op.blockSize, false) == N.SinkOf(c)
      && op.path == StoragePath(Basename(d.path))
      && U.AllOrNothing(files, after, op.path, c.file)
      && (op.path in files || s.rx.pc == R.Done(false) ==> after == files)
  {
    hide N.Run, N.After, N.Inv, N.Enabled, N.Allowed, N.Faithful, AtServer, Basename, BlockCount, Safety.Safe,
      Safety.Lag;
    RequestRoundTrip(d);
    Safety.GuardedSafety(n, c, steps);
    U.UploadOutcome(c, s, files, Answer(d).path, at);
  }

  /** A client's read, from its request to its own file: the server parses the request to a
      transmission of its file of that name at the client's block size, and the client ends with
      the first blocks of that file, all of it if it reports success; that report is the verdict of the
      client's operation on the answers it was given in the run. */
  lemma ReadEndToEnd(n: N.Discipline, d: OperationData, c: Job, steps: seq<N.Step>, s: N.System,
                     storage: U.Files, files: U.Files, at: U.Circumstances)
      returns (faults: seq<bool>, inbox: seq<Recv>)
    requires ClientData(d) && d.id.Receive? && |Basename(d.path)| <= FILENAME_MAX
    requires StoragePath(Basename(d.path)) in storage && c.file == storage[StoragePath(Basename(d.path))]
    requires c.blockSize == d.blockSize && !c.acceptEmpty && Ended(n, c, steps, s)
    requires d.path !in files && at.creatable && at.buffered
    ensures AtServer(d) == Some(Answer(d))
    ensures var op := Answer(d);
      var after := U.AfterClientRead(files, d.path, at, s.rx);
      && op.id.Send? && op.path in storage && c == Job(storage[op.path], op.blockSize, false)
      && d.path in after && after[d.path] == Concat(FirstBlocks(c, s.accepted)) && after - {d.path} == files
      && (s.rx.pc == R.Done(true) ==> after[d.path] == storage[op.path])
    ensures C.Outcome(d, files, at, true, Fresh(faults, inbox)).0 <==> s.rx.pc == R.Done(true)
  {
    hide N.Run, N.After, N.Inv, N.Enabled, N.Allowed, N.Faithful, AtServer, Basename, BlockCount, Safety.Safe,
      Safety.Lag;
    RequestRoundTrip(d);
    U.ReadLeavesPrefix(n, c, steps, files, d.path, at);
    faults, inbox := P.RxProjection(n, c, N.Init(), steps, Fresh([], []));
  }

  /** A client's deletion, from its request to the file in the server's storage: the server parses
      the request to the removal of the file of that name; whatever becomes of the packets of the
      handshake about it, the client decides as the program does on the answers it was given, and
      reports success only if the server has removed the file. */
  lemma DeleteEndToEnd(d: OperationData, files: U.Files, events: seq<D.Event>,
                       local: U.Files, at: U.Circumstances, readable: bool)
    requires ClientData(d) && d.id.RequestDelete? && |Basename(d.path)| <= FILENAME_MAX
    requires var h := D.Begin(Answer(d).path in files);
      D.Run(h, events) && D.After(h, events).client.Finished?
    ensures AtServer(d) == Some(Answer(d)) && Answer(d).id.HandleDelete?
    ensures var h := D.After(D.Begin(Answer(d).path in files), events);
      var success := C.Outcome(d, local, at, readable, Fresh([], D.Answers(events))).0;
      && success == h.client.ok
      && (success ==> h.removals > 0)
      && (success && h.creations == 0 ==> Answer(d).path in files && h.removals == 1 && !h.present)
  {
    hide AtServer, Basename, StoragePath, D.Through, D.Waited, D.Happens;
    RequestRoundTrip(d);
    var present := Answer(d).path in files;
    var w := Fresh([], D.Answers(events));
    D.ClientProjection(D.Begin(present), events, w, present);
    D.ThroughBothWaits(0, w);
    D.DeletionConfirmed(present, events);
  }
}
