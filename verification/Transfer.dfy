/** `TransferData_t` and the two transfer loops, each proved to perform exactly the run of its
    automaton. */
module Transfer {
  import opened Common
  import opened Packets
  import opened Link
  import opened Segmentation
  import T = Transmitter
  import R = Receiver

  /** What a wait for an acknowledgement has brought. */
  datatype Reply = Acknowledging | Useless | Hopeless

  class TransferData {
    var resendCounter: nat
    var dataPacketMaxSize: int
    var currentBlockNumber: uint16
    var bytesReceived: int
    var bytesSent: int
    var totalFileBytesTransmitted: nat
    /** The content of the open file and the position in it. */
    var file: seq<byte>
    var fileOffset: nat
    /** The packet buffer. */
    var dataPacket: Packet

    /** `tftp_fill_transfer_data`, for a file it could open. */
    constructor (blockSize: BlockSize, content: seq<byte>)
      ensures resendCounter == 0 && currentBlockNumber == 0 && fileOffset == 0
      ensures bytesReceived == 0 && bytesSent == 0 && totalFileBytesTransmitted == 0
      ensures dataPacketMaxSize == HEADER + blockSize && file == content && dataPacket == Packet(0, 0, [])
    {
      resendCounter, currentBlockNumber, fileOffset := 0, 0, 0;
      bytesReceived, bytesSent, totalFileBytesTransmitted := 0, 0, 0;
      dataPacketMaxSize, file, dataPacket := HEADER + blockSize, content, Packet(0, 0, []);
    }

    ghost function TxView(pc: T.TxPc): T.Tx
      reads this
    {
      T.Tx(pc, currentBlockNumber, resendCounter, fileOffset, dataPacket.body, bytesSent, totalFileBytesTransmitted)
    }

    /** What is left to do of the transmission from program point `pc`. */
    ghost function Rest(c: Job, pc: T.TxPc, socket: Socket): T.TxEnd
      reads this, socket
      requires T.TxOk(c, TxView(pc))
    {
      T.TxRun(c, T.TxEnd(TxView(pc), socket.View()))
    }

    /** Where the transmitter goes when it leaves the inner loop. */
    ghost function Onward(): T.TxPc
      reads this
    {
      if bytesSent == dataPacketMaxSize then T.Fetch else T.Done(true)
    }

    /** One attempt at the block in the buffer; only the first counts towards the bytes
        transmitted. */
    method SendOnce(ghost c: Job, socket: Socket) returns (ok: bool)
      requires dataPacket == DataPacket(currentBlockNumber, dataPacket.body)
      requires T.TxOk(c, TxView(T.Send))
      modifies `bytesSent, `totalFileBytesTransmitted, socket
      ensures T.TxEnd(TxView(if ok then T.Wait else T.Done(false)), socket.View())
           == T.TxStep(c, old(T.TxEnd(TxView(T.Send), socket.View())))
    {
      var fault := socket.Poll();
      if fault {
        socket.Send(ErrorPacket());
        return false;
      }
      bytesSent := HEADER + |dataPacket.body|;
      socket.Send(dataPacket);
      if resendCounter == 0 {
        totalFileBytesTransmitted := totalFileBytesTransmitted + |dataPacket.body|;
      }
      return true;
    }

    /** The wait for a reply, and what to make of it. */
    method AwaitReply(ghost c: Job, socket: Socket) returns (reply: Reply)
      requires dataPacketMaxSize == T.MaxPacket(c) && T.TxOk(c, TxView(T.Wait))
      modifies socket
      ensures T.TxStep(c, old(T.TxEnd(TxView(T.Wait), socket.View())))
           == T.TxEnd(match reply
                      case Hopeless => TxView(T.Done(false))
                      case Useless => T.Retry(c, TxView(T.Wait))
                      case Acknowledging => TxView(Onward()),
                      socket.View())
    {
      var answer := socket.Receive();
      if answer.Failed? {
        socket.Send(ErrorPacket());
        return Hopeless;
      } else if answer.Datagram? && answer.packet.opcode == SWAPPED_ERROR {
        return Hopeless;
      } else if answer.Datagram? && answer.packet.opcode == ACK && answer.packet.word == currentBlockNumber {
        return Acknowledging;
      }
      return Useless;
    }

    /** The inner loop of `tftp_transmit_file`: send the block and wait, up to five times. */
    method SendBlock(ghost c: Job, socket: Socket) returns (ok: bool)
      requires resendCounter == 0 && dataPacketMaxSize == T.MaxPacket(c)
      requires dataPacket == DataPacket(currentBlockNumber, dataPacket.body)
      requires T.TxOk(c, TxView(T.Send))
      modifies `resendCounter, `bytesSent, `totalFileBytesTransmitted, socket
      ensures ok ==> T.TxOk(c, TxView(Onward())) && Rest(c, Onward(), socket) == old(Rest(c, T.Send, socket))
      ensures ok ==> bytesSent == HEADER + |dataPacket.body|
      ensures !ok ==> T.TxEnd(TxView(T.Done(false)), socket.View()) == old(Rest(c, T.Send, socket))
    {
      hide T.TxRun, T.TxStep;
      ghost var goal := Rest(c, T.Send, socket);
      while resendCounter < MAX_RETRY_COUNT
        invariant resendCounter <= MAX_RETRY_COUNT
        invariant resendCounter > 0 ==> bytesSent == HEADER + |dataPacket.body|
        invariant resendCounter < MAX_RETRY_COUNT ==> Rest(c, T.Send, socket) == goal
        invariant resendCounter == MAX_RETRY_COUNT ==> Rest(c, Onward(), socket) == goal
      {
        T.TxRunStep(c, T.TxEnd(TxView(T.Send), socket.View()));
        ok := SendOnce(c, socket);
        if !ok {
          return false;
        }
        T.TxRunStep(c, T.TxEnd(TxView(T.Wait), socket.View()));
        var reply := AwaitReply(c, socket);
        if reply == Hopeless {
          return false;
        } else if reply == Acknowledging {
          break;
        }
        if resendCounter > MAX_RETRY_COUNT {
          assert false;
        }
        resendCounter := resendCounter + 1;
      }
      return true;
    }

    /** The head of the outer loop: number and read the next block. */
    method FetchBlock(blockSize: BlockSize, ghost c: Job, socket: Socket) returns (ok: bool)
      requires c.blockSize == blockSize && c.file == file && fileOffset <= |file|
      modifies `resendCounter, `currentBlockNumber, `dataPacket, `fileOffset, socket
      ensures T.TxEnd(TxView(if ok then T.Send else T.Done(false)), socket.View())
           == T.TxStep(c, old(T.TxEnd(TxView(T.Fetch), socket.View())))
      ensures ok ==> dataPacket == DataPacket(currentBlockNumber, dataPacket.body) && resendCounter == 0
      ensures ok ==> fileOffset == old(fileOffset) + |dataPacket.body|
    {
      var fault := socket.Poll();
      if fault {
        socket.Send(ErrorPacket());
        return false;
      }
      currentBlockNumber := Wrap(currentBlockNumber + 1);
      resendCounter := 0;
      var next := Min(fileOffset + blockSize, |file|);
      dataPacket := DataPacket(currentBlockNumber, file[fileOffset..next]);
      fileOffset := next;
      return true;
    }

    /** `tftp_transmit_file`. */
    method TransmitFile(blockSize: BlockSize, socket: Socket) returns (ok: bool)
      requires TxView(T.Begin) == T.TX_START && dataPacketMaxSize == HEADER + blockSize
      modifies this, socket
      ensures file == old(file)
      ensures T.TxEnd(TxView(T.Done(ok)), socket.View())
           == T.TxRun(Job(file, blockSize, false), T.TxEnd(T.TX_START, old(socket.View())))
    {
      ghost var c := Job(file, blockSize, false);
      hide T.TxRun;
      T.TxRunStep(c, T.TxEnd(TxView(T.Begin), socket.View()));
      var fault := socket.Poll();
      if fault {
        socket.Send(ErrorPacket());
        return false;
      }
      bytesSent := dataPacketMaxSize;
      ok := SendAll(blockSize, c, socket);
    }

    /** The outer loop of `tftp_transmit_file`. */
    method SendAll(blockSize: BlockSize, ghost c: Job, socket: Socket) returns (ok: bool)
      requires c.blockSize == blockSize && c.file == file && dataPacketMaxSize == HEADER + blockSize
      requires bytesSent == dataPacketMaxSize && T.TxOk(c, TxView(T.Fetch))
      modifies this, socket
      ensures file == old(file)
      ensures T.TxEnd(TxView(T.Done(ok)), socket.View()) == old(Rest(c, T.Fetch, socket))
    {
      hide T.TxRun, T.TxStep;
      ghost var goal := Rest(c, T.Fetch, socket);
      while bytesSent == dataPacketMaxSize
        invariant file == c.file && dataPacketMaxSize == HEADER + blockSize
        invariant T.TxOk(c, TxView(Onward())) && Rest(c, Onward(), socket) == goal
        decreases |file| - fileOffset, bytesSent == dataPacketMaxSize
      {
        T.TxRunStep(c, T.TxEnd(TxView(T.Fetch), socket.View()));
        ok := FetchBlock(blockSize, c, socket);
        if !ok {
          return false;
        }
        ok := SendBlock(c, socket);
        if !ok {
          return false;
        }
      }
      T.TxRunStep(c, T.TxEnd(TxView(T.Done(true)), socket.View()));
      return true;
    }

    ghost function RxView(pc: R.RxPc, prev: uint16): R.Rx
      reads this
    {
      R.Rx(pc, currentBlockNumber, prev, resendCounter, bytesReceived, file)
    }

    /** What is left to do of the reception from program point `pc`. */
    ghost function Remaining(k: R.Sink, pc: R.RxPc, prev: uint16, socket: Socket): R.RxEnd
      reads this, socket
    {
      R.RxRun(k, R.RxEnd(RxView(pc, prev), socket.View()))
    }

    /** Where the receiver goes after a block. */
    ghost function Following(): R.RxPc
      reads this
    {
      if bytesReceived == dataPacketMaxSize then R.Check else R.Done(true)
    }

    /** Writing and acknowledging the block in the buffer. */
    method WriteBlock(k: R.Sink, prevBlockNumber: uint16, socket: Socket) returns (ok: bool)
      requires dataPacketMaxSize == HEADER + k.blockSize && bytesReceived == HEADER + |dataPacket.body|
      modifies this, socket
      ensures dataPacketMaxSize == old(dataPacketMaxSize)
      ensures R.RxWrite(k, old(RxView(R.Wait, prevBlockNumber)), old(dataPacket.body), old(socket.View()).Fault()).0
           == if ok then RxView(Following(), Wrap(prevBlockNumber + 1)) else RxView(R.Done(false), prevBlockNumber)
      ensures socket.View() == old(socket.View()).Polled().Emit(
        R.RxWrite(k, old(RxView(R.Wait, prevBlockNumber)), old(dataPacket.body), old(socket.View()).Fault()).1)
    {
      var fault := socket.Poll();
      var bytesWritten := if fault then 0 else |dataPacket.body|;
      if bytesWritten <= 0 && (fault || !k.acceptEmpty) {
        socket.Send(ErrorPacket());
        return false;
      }
      file := file + dataPacket.body;
      socket.Send(AckPacket(currentBlockNumber));
      resendCounter := 0;
      currentBlockNumber := Wrap(currentBlockNumber + 1);
      return true;
    }

    /** The inner loop of `tftp_receive_file`: wait for the expected block, write and acknowledge
        it. */
    method AwaitBlock(k: R.Sink, prevBlockNumber: uint16, socket: Socket) returns (ok: bool)
      requires dataPacketMaxSize == HEADER + k.blockSize
      modifies this, socket
      ensures dataPacketMaxSize == old(dataPacketMaxSize)
      ensures !ok ==>
        R.RxEnd(RxView(R.Done(false), prevBlockNumber), socket.View())
          == old(Remaining(k, R.Wait, prevBlockNumber, socket))
      ensures ok ==> |socket.inbox| < old(|socket.inbox|)
      ensures ok ==>
        Remaining(k, Following(), Wrap(prevBlockNumber + 1), socket)
          == old(Remaining(k, R.Wait, prevBlockNumber, socket))
    {
      hide R.RxRun, R.RxWrite;
      ghost var goal := Remaining(k, R.Wait, prevBlockNumber, socket);
      var received := false;
      while !received
        invariant dataPacketMaxSize == old(dataPacketMaxSize)
        invariant |socket.inbox| <= old(|socket.inbox|)
        invariant !received ==> Remaining(k, R.Wait, prevBlockNumber, socket) == goal
        invariant received ==> |socket.inbox| < old(|socket.inbox|)
        invariant received ==> Remaining(k, Following(), Wrap(prevBlockNumber + 1), socket) == goal
        decreases !received, |socket.inbox|, MAX_RETRY_COUNT - resendCounter
      {
        ghost var e := R.RxEnd(RxView(R.Wait, prevBlockNumber), socket.View());
        R.RxRunStep(k, e);
        var answer := socket.Receive();
        if answer.Datagram? {
          dataPacket := answer.packet.(body := R.Payload(k, answer.packet));
          bytesReceived := HEADER + |dataPacket.body|;
          if dataPacket.opcode == ERROR {
            return false;
          } else if dataPacket.opcode == DATA && dataPacket.word == currentBlockNumber {
            WriteIgnoresSize(k, e.rx, RxView(R.Wait, prevBlockNumber), dataPacket.body, socket.View().Fault());
            received := WriteBlock(k, prevBlockNumber, socket);
            if !received {
              return false;
            }
          }
        } else {
          bytesReceived := -1;
          if resendCounter < MAX_RETRY_COUNT {
            resendCounter := resendCounter + 1;
          } else {
            socket.Send(ErrorPacket());
            return false;
          }
        }
      }
      return true;
    }

    lemma WriteIgnoresSize(k: R.Sink, r: R.Rx, r': R.Rx, data: seq<byte>, fault: bool)
      requires r' == r.(bytesReceived := r'.bytesReceived)
      ensures R.RxWrite(k, r', data, fault) == R.RxWrite(k, r, data, fault)
    {
    }

    /** `tftp_receive_file`; `acceptEmpty` is false in the program as written. */
    method ReceiveFile(k: R.Sink, socket: Socket) returns (ok: bool, prevBlockNumber: uint16)
      requires RxView(R.Begin, 0) == R.RX_START && dataPacketMaxSize == HEADER + k.blockSize
      modifies this, socket
      ensures R.RxEnd(RxView(R.Done(ok), prevBlockNumber), socket.View())
           == R.RxRun(k, R.RxEnd(R.RX_START, old(socket.View())))
    {
      hide R.RxRun;
      R.RxRunStep(k, R.RxEnd(R.RX_START, socket.View()));
      ghost var goal := Remaining(k, R.Begin, 0, socket);
      prevBlockNumber := 0;
      var fault := socket.Poll();
      if fault {
        socket.Send(ErrorPacket());
        return false, prevBlockNumber;
      }
      currentBlockNumber := 1;
      var again := true;
      while again
        invariant dataPacketMaxSize == HEADER + k.blockSize
        invariant again || Following() == R.Done(true)
        invariant Remaining(k, if again then R.Check else R.Done(true), prevBlockNumber, socket) == goal
        decreases again, |socket.inbox|
      {
        ghost var e := R.RxEnd(RxView(R.Check, prevBlockNumber), socket.View());
        R.RxRunStep(k, e);
        fault := socket.Poll();
        if fault {
          socket.Send(ErrorPacket());
          assert R.RxStep(k, e) == R.RxEnd(RxView(R.Done(false), prevBlockNumber), socket.View());
          return false, prevBlockNumber;
        }
        assert R.RxStep(k, e) == R.RxEnd(RxView(R.Wait, prevBlockNumber), socket.View());
        ok := AwaitBlock(k, prevBlockNumber, socket);
        if !ok {
          return false, prevBlockNumber;
        }
        prevBlockNumber := Wrap(prevBlockNumber + 1);
        again := bytesReceived == dataPacketMaxSize;
      }
      R.RxRunStep(k, R.RxEnd(RxView(R.Done(true), prevBlockNumber), socket.View()));
      return true, prevBlockNumber;
    }
  }
}
