/** The sequence of a whole client operation. */
module Client {
  import opened Common
  import opened Packets
  import opened Link
  import opened Segmentation
  import opened Requests
  import opened Deletion
  import T = Transmitter
  import R = Receiver
  import U = Upload
  import X = Transfer

  /** A reception, for which ACK 0 is not waited; a transmission behind it; or the second wait of a
      deletion: the verdict and the system after them. A transfer whose file or buffers cannot be had
      sends an ERROR. */
  ghost function Outcome(d: OperationData, files: U.Files, at: U.Circumstances, readable: bool, w: Wire): (bool, Wire)
    requires ClientData(d)
  {
    if d.id.Receive? then
      if d.path in files || !at.creatable || !at.buffered then (false, w.Emit([ErrorPacket()]))
      else
        var e := R.RxRun(R.Sink(d.blockSize, false), R.RxEnd(R.RX_START, w));
        (e.rx.pc.ok, e.wire)
    else
      var (acknowledged, w') := Waited(w, 0, MAX_RETRY_COUNT);
      if !acknowledged then (false, w')
      else if d.id.RequestDelete? then Waited(w', 1, MAX_RETRY_COUNT)
      else if d.path !in files || !readable || !at.buffered then (false, w'.Emit([ErrorPacket()]))
      else
        var e := T.TxRun(Job(files[d.path], d.blockSize, false), T.TxEnd(T.TX_START, w'));
        (e.tx.pc.ok, e.wire)
  }

  /** The RECEIVE case of `client_start_operation`. */
  method ReceiveFile(d: OperationData, storage: U.Storage, at: U.Circumstances, socket: Socket) returns (ok: bool)
    requires ClientData(d) && d.id.Receive?
    modifies storage, socket
    ensures (ok, socket.View()) == Outcome(d, old(storage.files), at, true, old(socket.View()))
    ensures storage.files == U.AfterClientRead(old(storage.files), d.path, at,
      R.RxRun(R.Sink(d.blockSize, false), R.RxEnd(R.RX_START, old(socket.View()))).rx)
  {
    hide R.RxRun;
    if d.path in storage.files || !at.creatable {
      socket.Send(ErrorPacket());
      return false;
    }
    storage.files := storage.files[d.path := []];
    if !at.buffered {
      socket.Send(ErrorPacket());
      return false;
    }
    var transfer := new X.TransferData(d.blockSize, []);
    var prev;
    ok, prev := transfer.ReceiveFile(R.Sink(d.blockSize, false), socket);
    storage.files := storage.files[d.path := transfer.file];
  }

  /** `client_start_operation`; `requestSent` says whether the request could be sent, `at` and
      `readable` whether the local file can be created or read and the packet buffers allocated. */
  method StartOperation(d: OperationData, requestSent: bool, storage: U.Storage, at: U.Circumstances, readable: bool,
                        socket: Socket)
      returns (outcome: bool)
    requires ClientData(d)
    modifies storage, socket
    ensures !requestSent ==> !outcome && socket.View() == old(socket.View())
    ensures requestSent ==>
      (outcome, socket.View()) == Outcome(d, old(storage.files), at, readable, old(socket.View()))
    ensures storage.files ==
      if requestSent && d.id.Receive? then
        U.AfterClientRead(old(storage.files), d.path, at,
          R.RxRun(R.Sink(d.blockSize, false), R.RxEnd(R.RX_START, old(socket.View()))).rx)
      else old(storage.files)
  {
    hide R.RxRun, T.TxRun, U.AfterClientRead;
    outcome := false;
    if !requestSent {
      return;
    }
    if d.id != Receive {
      var acknowledged := AwaitAcknowledgement(0, socket);
      if !acknowledged {
        return;
      }
    }
    match d.id {
      case RequestDelete =>
        outcome := AwaitAcknowledgement(1, socket);
      case Receive =>
        outcome := ReceiveFile(d, storage, at, socket);
      case Send =>
        if d.path in storage.files && readable && at.buffered {
          var transfer := new X.TransferData(d.blockSize, storage.files[d.path]);
          outcome := transfer.TransmitFile(d.blockSize, socket);
        } else {
          socket.Send(ErrorPacket());
        }
    }
  }

  /** ACK 0 comes in time and, among the answers after it, ACK 1. */
  ghost predicate BothAcks(inbox: seq<Recv>) {
    exists i :: 0 <= i < MAX_RETRY_COUNT && ComesFirst(inbox, 0, i) && AckInTime(inbox[i + 1..], 1)
  }

  /** A deletion is reported successful if and only if both ACKs come in time. */
  lemma DeletionSucceedsIff(d: OperationData, files: U.Files, at: U.Circumstances, readable: bool, inbox: seq<Recv>)
    requires ClientData(d) && d.id.RequestDelete?
    ensures Outcome(d, files, at, readable, Fresh([], inbox)).0 <==> BothAcks(inbox)
  {
    hide Waited, ComesFirst, AckInTime;
    var w := Fresh([], inbox);
    WaitSucceedsIff(w, 0, MAX_RETRY_COUNT);
    AckInTimeIff(Waited(w, 0, MAX_RETRY_COUNT).1, 1);
  }

  /** A read that can create its file and buffers reports success if and only if a short block came
      in; it fails exactly for one of the reasons of a receiver. Its file consists of the blocks that
      came in, each acknowledged once. Otherwise it fails with one ERROR sent. */
  lemma ReadOutcome(d: OperationData, files: U.Files, at: U.Circumstances, readable: bool,
                    faults: seq<bool>, inbox: seq<Recv>)
      returns (chunks: seq<seq<byte>>, places: seq<nat>)
    requires ClientData(d) && d.id.Receive?
    ensures var (ok, w) := Outcome(d, files, at, readable, Fresh(faults, inbox));
      var k := R.Sink(d.blockSize, false);
      if d.path in files || !at.creatable || !at.buffered then
        !ok && w == Fresh(faults, inbox).Emit([ErrorPacket()])
      else
        && (ok <==> R.Complete(k, chunks))
        && R.Shape(k, chunks) && R.InOrder(k, chunks, w.heard, places) && R.Since(places) <= |w.heard|
        && (!ok <==> R.Doomed(k, w, R.Since(places), |chunks| + 1))
        && w.sent == R.Acks(|chunks|) + (if !ok && !R.ErrorHeard(w.heard) then [ErrorPacket()] else [])
        && U.AfterClientRead(files, d.path, at, R.RxRun(k, R.RxEnd(R.RX_START, Fresh(faults, inbox))).rx)
           == files[d.path := Concat(chunks)]
  {
    hide R.RxRun, R.Complete, R.Shape, R.InOrder, R.Doomed, R.ErrorHeard, R.Acks, Concat;
    var w := Fresh(faults, inbox);
    assert w.Emit([]) == w;
    chunks, places := R.Reception(R.Sink(d.blockSize, false), faults, inbox, []);
    assert [] + R.Acks(|chunks|) == R.Acks(|chunks|);
  }

  /** A write sends nothing unless ACK 0 comes in time, and one ERROR if the file or the buffers cannot
      be had. Otherwise it transmits the file, and reports success if and only if no fault strikes and
      no answer from then on is fatal. */
  lemma WriteOutcome(d: OperationData, files: U.Files, at: U.Circumstances, readable: bool,
                     faults: seq<bool>, inbox: seq<Recv>)
      returns (counts: seq<nat>)
    requires ClientData(d) && d.id.Send?
    ensures var (ok, w) := Outcome(d, files, at, readable, Fresh(faults, inbox));
      var past := Waited(Fresh(faults, inbox), 0, MAX_RETRY_COUNT).1.heard;
      if !AckInTime(inbox, 0) then !ok && w.sent == []
      else if d.path !in files || !readable || !at.buffered then !ok && w.sent == [ErrorPacket()]
      else
        var c := Job(files[d.path], d.blockSize, false);
        && (ok <==> T.Clean(|past|, w))
        && T.Carried(c, |past|, w, counts)
        && (ok ==> w.sent == T.Traffic(c, counts) && T.Settled(past, counts, w.heard))
  {
    hide T.TxRun, Waited, AckInTime, T.Clean, T.Carried, T.Settled, T.Traffic;
    var w := Fresh(faults, inbox);
    AckInTimeIff(w, 0);
    var taken := WaitTakes(w, 0, MAX_RETRY_COUNT);
    counts := [];
    if d.path in files {
      counts := T.Transmission(Job(files[d.path], d.blockSize, false), Waited(w, 0, MAX_RETRY_COUNT).1);
    }
  }
}
