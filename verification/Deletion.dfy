/** The delete operation: waiting for an ACK, the server's task, and the handshake of both over a
    lossy network. */
module Deletion {
  import opened Common
  import opened Packets
  import opened Link
  import opened Requests
  import U = Upload

  // ---------- tftp_await_acknowledgement ----------

  datatype Verdict = Accepted | Rejected | Undecided

  /** What one answer means to a wait for ACK `number`. */
  function Judge(r: Recv, number: uint16): Verdict {
    if !r.Datagram? then Undecided
    else if r.packet.opcode == ACK && r.packet.word == number then Accepted
    else if r.packet.opcode == ERROR then Rejected
    else Undecided
  }

  /** Waiting with `tries` attempts left: whether the ACK came, and the system after the wait. */
  function Waited(w: Wire, number: uint16, tries: nat): (bool, Wire)
    decreases tries
  {
    if tries == 0 then (false, w)
    else match Judge(w.Incoming(), number)
      case Accepted => (true, w.Received())
      case Rejected => (false, w.Received())
      case Undecided => Waited(w.Received(), number, tries - 1)
  }

  predicate IsAck(r: Recv, number: uint16) {
    r.Datagram? && r.packet.opcode == ACK && r.packet.word == number
  }

  predicate IsError(r: Recv) {
    r.Datagram? && r.packet.opcode == ERROR
  }

  /** Answer `i` is the ACK, and before it there was neither that ACK nor an ERROR, whatever else. */
  ghost predicate ComesFirst(inbox: seq<Recv>, number: uint16, i: nat) {
    && i < |inbox| && IsAck(inbox[i], number)
    && forall j :: 0 <= j < i ==> !IsAck(inbox[j], number) && !IsError(inbox[j])
  }

  /** The wait succeeds if and only if the ACK is among the answers it may take, with no ERROR and
      no other ACK of the number before it; it takes the answers up to that one. */
  lemma {:induction false} WaitSucceedsIff(w: Wire, number: uint16, tries: nat)
    ensures Waited(w, number, tries).0 <==> exists i :: 0 <= i < tries && ComesFirst(w.inbox, number, i)
    ensures forall i :: 0 <= i < tries && ComesFirst(w.inbox, number, i) ==>
      Waited(w, number, tries).1.inbox == w.inbox[i + 1..]
    decreases tries
  {
    var inbox := w.inbox;
    if tries > 0 {
      if inbox == [] {
        WaitSucceedsIff(w.Received(), number, tries - 1);
      } else if IsAck(inbox[0], number) {
        assert ComesFirst(inbox, number, 0);
      } else if !IsError(inbox[0]) {
        WaitSucceedsIff(w.Received(), number, tries - 1);
        forall i: nat ensures ComesFirst(inbox[1..], number, i) <==> ComesFirst(inbox, number, i + 1) {
          FirstShifts(inbox, number, i);
        }
        forall i: nat | i < tries && ComesFirst(inbox, number, i)
          ensures i > 0 && ComesFirst(inbox[1..], number, i - 1) && inbox[1..][i..] == inbox[i + 1..]
        {
          FirstShifts(inbox, number, i - 1);
        }
      }
    }
  }

  /** The ACK is one of the first five answers, and no ERROR comes before it; failures of `recvfrom`
      and other packets may. */
  ghost predicate AckInTime(inbox: seq<Recv>, number: uint16) {
    exists i :: 0 <= i < 5 && AckAt(inbox, number, i)
  }

  ghost predicate AckAt(inbox: seq<Recv>, number: uint16, i: nat) {
    && i < |inbox|
    && inbox[i].Datagram? && inbox[i].packet.opcode == 4 && inbox[i].packet.word == number
    && forall j :: 0 <= j < i ==> !(inbox[j].Datagram? && inbox[j].packet.opcode == 5)
  }

  /** The client's waits succeed if and only if the ACK comes in time. */
  lemma AckInTimeIff(w: Wire, number: uint16)
    ensures Waited(w, number, MAX_RETRY_COUNT).0 <==> AckInTime(w.inbox, number)
  {
    WaitSucceedsIff(w, number, MAX_RETRY_COUNT);
    if i :| 0 <= i < 5 && AckAt(w.inbox, number, i) {
      var first := FirstAck(w.inbox, number, i);
    }
    assert forall i: nat :: ComesFirst(w.inbox, number, i) ==> AckAt(w.inbox, number, i);
  }

  lemma {:induction false} FirstAck(inbox: seq<Recv>, number: uint16, i: nat) returns (first: nat)
    requires AckAt(inbox, number, i)
    ensures first <= i && ComesFirst(inbox, number, first)
    decreases i
  {
    if j :| 0 <= j < i && IsAck(inbox[j], number) {
      first := FirstAck(inbox, number, j);
    } else {
      first := i;
    }
  }

  lemma FirstShifts(inbox: seq<Recv>, number: uint16, i: nat)
    requires inbox != [] && !IsAck(inbox[0], number) && !IsError(inbox[0])
    ensures ComesFirst(inbox[1..], number, i) <==> ComesFirst(inbox, number, i + 1)
  {
    if ComesFirst(inbox[1..], number, i) {
      forall j | 0 <= j < i + 1 ensures !IsAck(inbox[j], number) && !IsError(inbox[j]) {
        assert j > 0 ==> inbox[j] == inbox[1..][j - 1];
      }
    }
    if ComesFirst(inbox, number, i + 1) {
      assert forall j :: 0 <= j < i ==> inbox[1..][j] == inbox[j + 1];
    }
  }

  /** A wait takes answers up to the ACK or an ERROR, and otherwise as many as it may; it sends
      nothing. */
  lemma {:induction false} WaitTakes(w: Wire, number: uint16, tries: nat) returns (taken: nat)
    ensures var w' := Waited(w, number, tries).1;
      && w' == w.(inbox := if taken <= |w.inbox| then w.inbox[taken..] else [], heard := w'.heard)
      && |w'.heard| == |w.heard| + taken && w.heard <= w'.heard
    ensures taken <= tries
    ensures forall j :: 0 <= j < |w.inbox| && j + 1 < taken ==> !IsAck(w.inbox[j], number) && !IsError(w.inbox[j])
    ensures taken < tries ==>
      0 < taken <= |w.inbox| && (IsAck(w.inbox[taken - 1], number) || IsError(w.inbox[taken - 1]))
    decreases tries
  {
    hide IsAck, IsError;
    taken := 0;
    if tries > 0 {
      WaitStarts(w, number, tries);
      if w.inbox != [] && (IsAck(w.inbox[0], number) || IsError(w.inbox[0])) {
        taken := 1;
      } else {
        var more := WaitTakes(w.Received(), number, tries - 1);
        taken := 1 + more;
      }
    }
  }

  lemma WaitStarts(w: Wire, number: uint16, tries: nat)
    requires tries > 0
    ensures Waited(w, number, tries).1 ==
      if w.inbox != [] && (IsAck(w.inbox[0], number) || IsError(w.inbox[0])) then w.Received()
      else Waited(w.Received(), number, tries - 1).1
  {
  }

  /** `tftp_await_acknowledgement`: no more than five answers are taken, whatever they are, and
      nothing is sent. */
  method AwaitAcknowledgement(number: uint16, socket: Socket) returns (ok: bool)
    modifies socket
    ensures (ok, socket.View()) == Waited(old(socket.View()), number, MAX_RETRY_COUNT)
    ensures ok <==> AckInTime(old(socket.inbox), number)
  {
    AckInTimeIff(socket.View(), number);
    var retryCounter := 0;
    while retryCounter < MAX_RETRY_COUNT
      invariant 0 <= retryCounter <= MAX_RETRY_COUNT
      invariant Waited(socket.View(), number, MAX_RETRY_COUNT - retryCounter)
             == Waited(old(socket.View()), number, MAX_RETRY_COUNT)
    {
      retryCounter := retryCounter + 1;
      var answer := socket.Receive();
      if answer.Datagram? {
        if answer.packet.opcode == ACK && answer.packet.word == number {
          return true;
        } else if answer.packet.opcode == ERROR {
          return false;
        }
      }
    }
    return false;
  }

  /** Whether `server_delete_file` removes the file... */
  predicate Deletes(present: bool, readable: bool, removable: bool) {
    present && readable && removable
  }

  /** ... and what it sends. */
  function DeletionPackets(ok: bool): seq<Packet> {
    [AckPacket(0), if ok then AckPacket(1) else ErrorPacket()]
  }

  /** `server_delete_file`; `readable` and `removable` say whether `fopen` and `remove` succeed on a
      file that exists. */
  method DeleteFile(storage: U.Storage, path: cstring, readable: bool, removable: bool, socket: Socket)
      returns (ok: bool)
    modifies storage, socket
    ensures ok <==> path in old(storage.files) && path !in storage.files
    ensures ok <==> path in old(storage.files) && readable && removable
    ensures storage.files == if ok then old(storage.files) - {path} else old(storage.files)
    ensures socket.sent == old(socket.sent) + [AckPacket(0), if ok then AckPacket(1) else ErrorPacket()]
    ensures socket.sent == old(socket.sent) + DeletionPackets(ok)
  {
    socket.Send(AckPacket(0));
    if path !in storage.files || !readable {
      socket.Send(ErrorPacket());
      return false;
    }
    if !removable {
      socket.Send(ErrorPacket());
      return false;
    }
    storage.files := storage.files - {path};
    socket.Send(AckPacket(1));
    return true;
  }

  // ---------- The handshake over a network ----------

  /** The client: before its request, in the wait for ACK `number` with `tries` answers taken, or
      done. */
  datatype Client = Ready | Waiting(number: uint16, tries: nat) | Finished(ok: bool)

  /** A server task: about to send ACK 0, to look for the file, to remove it, to send ACK 1, over. */
  datatype TaskPc = Greeting | Looking | Removing | Confirming | Over

  /** The request may be duplicated, so it may start any number of tasks. `toClient` holds every
      packet ever sent to the client; any of them may arrive at any time, any number of times or
      never. `present` says whether the file exists; `removals` and `creations` count how often the
      server has removed it and anyone has created it. */
  datatype Handshake = Handshake(
    client: Client,
    tasks: seq<TaskPc>,
    toClient: set<Packet>,
    present: bool,
    removals: nat,
    creations: nat)

  function Begin(present: bool): Handshake {
    Handshake(Ready, [], {}, present, 0, 0)
  }

  /** `ok` is false where a system call fails. `Appears` stands for anyone creating the file. */
  datatype Event =
    | Requests
    | Starts
    | Greets(task: nat, ok: bool)
    | Looks(task: nat, ok: bool)
    | Removes(task: nat, ok: bool)
    | Confirms(task: nat, ok: bool)
    | Hears(packet: Packet)
    | TimesOut
    | Appears

  ghost predicate Possible(h: Handshake, e: Event) {
    match e
    case Requests => h.client.Ready?
    case Starts => !h.client.Ready?
    case Greets(i, _) => i < |h.tasks| && h.tasks[i] == Greeting
    case Looks(i, _) => i < |h.tasks| && h.tasks[i] == Looking
    case Removes(i, _) => i < |h.tasks| && h.tasks[i] == Removing
    case Confirms(i, _) => i < |h.tasks| && h.tasks[i] == Confirming
    case Hears(p) => h.client.Waiting? && p in h.toClient
    case TimesOut => h.client.Waiting?
    case Appears => true
  }

  /** The client takes an answer, by the same judgement as `AwaitAcknowledgement`. */
  function Takes(client: Client, answer: Recv): Client
    requires client.Waiting?
  {
    match Judge(answer, client.number)
    case Accepted => if client.number == 0 then Waiting(1, 0) else Finished(true)
    case Rejected => Finished(false)
    case Undecided =>
      if client.tries + 1 < MAX_RETRY_COUNT then Waiting(client.number, client.tries + 1) else Finished(false)
  }

  /** The client of the handshake, fed with the answers of `recvfrom` until it is done. */
  function Through(client: Client, w: Wire): bool
    requires client.Waiting? ==> client.number <= 1 && client.tries < MAX_RETRY_COUNT
    decreases if client.Waiting? then 20 - 10 * client.number - client.tries else 0
  {
    match client
    case Ready => false
    case Finished(ok) => ok
    case Waiting(_, _) => Through(Takes(client, w.Incoming()), w.Received())
  }

  lemma ThroughOne(number: uint16, tries: nat, w: Wire)
    requires number <= 1 && tries < MAX_RETRY_COUNT
    ensures Through(Waiting(number, tries), w) == Through(Takes(Waiting(number, tries), w.Incoming()), w.Received())
    ensures forall ok :: Through(Finished(ok), w) == ok
  {
  }

  lemma WaitedOne(w: Wire, number: uint16, tries: nat)
    requires tries > 0
    ensures Waited(w, number, tries) ==
      match Judge(w.Incoming(), number)
      case Accepted => (true, w.Received())
      case Rejected => (false, w.Received())
      case Undecided => Waited(w.Received(), number, tries - 1)
    ensures !Waited(w, number, 0).0
  {
  }

  lemma {:induction false} ThroughSecondWait(tries: nat, w: Wire)
    requires tries < MAX_RETRY_COUNT
    ensures Through(Waiting(1, tries), w) == Waited(w, 1, MAX_RETRY_COUNT - tries).0
    decreases MAX_RETRY_COUNT - tries
  {
    hide Through, Waited, Judge;
    ThroughOne(1, tries, w);
    ThroughOne(1, tries, w.Received());
    WaitedOne(w, 1, MAX_RETRY_COUNT - tries);
    WaitedOne(w.Received(), 1, 1);
    if Judge(w.Incoming(), 1) == Undecided && tries + 1 < MAX_RETRY_COUNT {
      ThroughSecondWait(tries + 1, w.Received());
    }
  }

  /** The client of the handshake is the delete branch of the program: both waits, one after the
      other. */
  lemma {:induction false} ThroughBothWaits(tries: nat, w: Wire)
    requires tries < MAX_RETRY_COUNT
    ensures var (first, w') := Waited(w, 0, MAX_RETRY_COUNT - tries);
      Through(Waiting(0, tries), w) == (first && Waited(w', 1, MAX_RETRY_COUNT).0)
    decreases MAX_RETRY_COUNT - tries
  {
    hide Through, Waited, Judge;
    ThroughOne(0, tries, w);
    ThroughOne(0, tries, w.Received());
    WaitedOne(w, 0, MAX_RETRY_COUNT - tries);
    WaitedOne(w.Received(), 0, 1);
    if Judge(w.Incoming(), 0) == Accepted {
      ThroughSecondWait(0, w.Received());
    } else if Judge(w.Incoming(), 0) == Undecided && tries + 1 < MAX_RETRY_COUNT {
      ThroughBothWaits(tries + 1, w.Received());
    }
  }

  function Goes(h: Handshake, i: nat, pc: TaskPc, out: set<Packet>): Handshake
    requires i < |h.tasks|
  {
    h.(tasks := h.tasks[i := pc], toClient := h.toClient + out)
  }

  function Happens(h: Handshake, e: Event): Handshake
    requires Possible(h, e)
  {
    match e
    case Requests => h.(client := Waiting(0, 0))
    case Starts => h.(tasks := h.tasks + [Greeting])
    case Greets(i, ok) => Goes(h, i, Looking, if ok then {AckPacket(0)} else {})
    case Looks(i, ok) =>
      if ok && h.present then Goes(h, i, Removing, {}) else Goes(h, i, Over, {ErrorPacket()})
    case Removes(i, ok) =>
      if ok && h.present then Goes(h, i, Confirming, {}).(present := false, removals := h.removals + 1)
      else Goes(h, i, Over, {ErrorPacket()})
    case Confirms(i, ok) => Goes(h, i, Over, if ok then {AckPacket(1)} else {})
    case Hears(p) => h.(client := Takes(h.client, Datagram(p)))
    case TimesOut => h.(client := Takes(h.client, TimedOut))
    case Appears => if h.present then h else h.(present := true, creations := h.creations + 1)
  }

  ghost predicate Run(h: Handshake, events: seq<Event>)
    decreases |events|
  {
    events == [] || (Possible(h, events[0]) && Run(Happens(h, events[0]), events[1..]))
  }

  ghost function After(h: Handshake, events: seq<Event>): Handshake
    requires Run(h, events)
    decreases |events|
  {
    if events == [] then h else After(Happens(h, events[0]), events[1..])
  }

  /** An ACK 1 exists, or is about to, only after a removal. */
  ghost predicate Inv(h: Handshake, initially: bool) {
    && (forall p :: p in h.toClient ==> p == AckPacket(0) || p == AckPacket(1) || p == ErrorPacket())
    && (AckPacket(1) in h.toClient || Confirming in h.tasks ==> h.removals > 0)
    && (h.client.Waiting? ==> h.client.tries < MAX_RETRY_COUNT && (h.client.number == 0 || h.client.number == 1))
    && (h.client == Finished(true) ==> h.removals > 0)
    && h.removals + (if h.present then 1 else 0) == h.creations + (if initially then 1 else 0)
  }

  lemma EventKeeps(h: Handshake, e: Event, initially: bool)
    requires Inv(h, initially) && Possible(h, e)
    ensures Inv(Happens(h, e), initially)
  {
    var h' := Happens(h, e);
    if Confirming in h'.tasks && !e.Removes? {
      var i :| 0 <= i < |h'.tasks| && h'.tasks[i] == Confirming;
      assert i < |h.tasks| && h.tasks[i] == Confirming;
    }
  }

  lemma {:induction false} RunKeeps(h: Handshake, events: seq<Event>, initially: bool)
    requires Inv(h, initially) && Run(h, events)
    ensures Inv(After(h, events), initially)
    decreases |events|
  {
    if events != [] {
      EventKeeps(h, events[0], initially);
      RunKeeps(Happens(h, events[0]), events[1..], initially);
    }
  }

  /** Over every run in which packets are lost, duplicated, reordered and delayed, requests
      duplicated and system calls fail: the client reports success only if the server has removed
      the file; if nobody has created it meanwhile, the server has then removed it exactly once and
      it is gone. */
  lemma DeletionConfirmed(present: bool, events: seq<Event>)
    requires Run(Begin(present), events)
    ensures var h := After(Begin(present), events);
      h.client == Finished(true) ==>
        && h.removals > 0
        && (h.creations == 0 ==> present && h.removals == 1 && !h.present)
  {
    RunKeeps(Begin(present), events, present);
  }

  // ---------- The parties of the handshake are the program's ----------

  /** The events of a task that nothing comes between. */
  function TaskEvents(i: nat, present: bool, readable: bool, removable: bool): seq<Event> {
    [Greets(i, true), Looks(i, readable)]
    + (if present && readable then [Removes(i, removable)] else [])
    + (if Deletes(present, readable, removable) then [Confirms(i, true)] else [])
  }

  /** The handshake `h` once task `i` has come to `pc`, having sent `out` and removed the file or
      not. */
  function At(h: Handshake, i: nat, pc: TaskPc, out: set<Packet>, removed: bool): Handshake
    requires i < |h.tasks|
  {
    h.(tasks := h.tasks[i := pc], toClient := h.toClient + out,
       present := h.present && !removed, removals := h.removals + if removed then 1 else 0)
  }

  lemma TaskGoes(h: Handshake, i: nat, pc: TaskPc, out: set<Packet>, removed: bool, pc': TaskPc, more: set<Packet>)
    requires i < |h.tasks|
    ensures Goes(At(h, i, pc, out, removed), i, pc', more) == At(h, i, pc', out + more, removed)
  {
    assert h.tasks[i := pc][i := pc'] == h.tasks[i := pc'];
    assert h.toClient + out + more == h.toClient + (out + more);
  }

  lemma TaskGreets(h: Handshake, i: nat)
    requires i < |h.tasks| && h.tasks[i] == Greeting
    ensures Happens(h, Greets(i, true)) == At(h, i, Looking, {AckPacket(0)}, false)
  {
  }

  lemma TaskLooks(h: Handshake, i: nat, out: set<Packet>, readable: bool)
    requires i < |h.tasks|
    ensures var s := At(h, i, Looking, out, false);
      && Possible(s, Looks(i, readable))
      && Happens(s, Looks(i, readable)) ==
        if readable && h.present then At(h, i, Removing, out, false) else At(h, i, Over, out + {ErrorPacket()}, false)
  {
    hide Goes;
    TaskGoes(h, i, Looking, out, false, Removing, {});
    TaskGoes(h, i, Looking, out, false, Over, {ErrorPacket()});
    assert out + {} == out;
  }

  lemma TaskRemoves(h: Handshake, i: nat, out: set<Packet>, removable: bool)
    requires i < |h.tasks| && h.present
    ensures var s := At(h, i, Removing, out, false);
      && Possible(s, Removes(i, removable))
      && Happens(s, Removes(i, removable)) ==
        if removable then At(h, i, Confirming, out, true) else At(h, i, Over, out + {ErrorPacket()}, false)
  {
    hide Goes;
    TaskGoes(h, i, Removing, out, false, Confirming, {});
    TaskGoes(h, i, Removing, out, false, Over, {ErrorPacket()});
    assert out + {} == out;
  }

  lemma TaskConfirms(h: Handshake, i: nat, out: set<Packet>)
    requires i < |h.tasks|
    ensures var s := At(h, i, Confirming, out, true);
      && Possible(s, Confirms(i, true))
      && Happens(s, Confirms(i, true)) == At(h, i, Over, out + {AckPacket(1)}, true)
  {
    hide Goes;
    TaskGoes(h, i, Confirming, out, true, Over, {AckPacket(1)});
  }

  /** They leave the file and the packets as `DeleteFile` does, and nothing else changes. */
  lemma TaskIsDeleteFile(h: Handshake, i: nat, readable: bool, removable: bool)
    requires i < |h.tasks| && h.tasks[i] == Greeting
    ensures var events := TaskEvents(i, h.present, readable, removable);
      var ok := Deletes(h.present, readable, removable);
      Run(h, events) && After(h, events) == At(h, i, Over, (set p | p in DeletionPackets(ok)), ok)
  {
    hide Run, After, Happens, At;
    var ok := Deletes(h.present, readable, removable);
    var acks := {AckPacket(0)};
    assert (set p | p in DeletionPackets(ok)) == acks + {DeletionPackets(ok)[1]};
    TaskGreets(h, i);
    TaskLooks(h, i, acks, readable);
    var looking := At(h, i, Looking, acks, false);
    var events;
    if h.present && readable {
      TaskRemoves(h, i, acks, removable);
      var removing := At(h, i, Removing, acks, false);
      if removable {
        TaskConfirms(h, i, acks);
        events := TaskEnds(At(h, i, Confirming, acks, true), Confirms(i, true));
        events := Before(removing, Removes(i, true), events);
      } else {
        events := TaskEnds(removing, Removes(i, false));
      }
      events := Before(looking, Looks(i, true), events);
    } else {
      events := TaskEnds(looking, Looks(i, readable));
    }
    events := Before(h, Greets(i, true), events);
    assert events == TaskEvents(i, h.present, readable, removable);
  }

  lemma TaskEnds(h: Handshake, e: Event) returns (events: seq<Event>)
    requires Possible(h, e)
    ensures events == [e] && Run(h, events) && After(h, events) == Happens(h, e)
  {
    events := [e];
    assert events[1..] == [];
  }

  /** What `recvfrom` has answered the client in a run. */
  function Answers(events: seq<Event>): seq<Recv> {
    if events == [] then [] else
      (match events[0]
       case Hears(p) => [Datagram(p)]
       case TimesOut => [TimedOut]
       case _ => []) + Answers(events[1..])
  }

  /** What the program's client decides on the answers of `w`, from where it stands. */
  ghost predicate Decides(client: Client, w: Wire)
    requires client.Waiting? ==> client.number <= 1 && client.tries < MAX_RETRY_COUNT
  {
    Through(if client.Ready? then Waiting(0, 0) else client, w)
  }

  lemma DecidesOn(h: Handshake, e: Event, w: Wire, initially: bool)
    requires Inv(h, initially) && Possible(h, e) && Inv(Happens(h, e), initially)
    requires e.Hears? ==> w.Incoming() == Datagram(e.packet)
    requires e.TimesOut? ==> w.Incoming() == TimedOut
    ensures Decides(Happens(h, e).client, if e.Hears? || e.TimesOut? then w.Received() else w) == Decides(h.client, w)
  {
    hide Through, Judge;
    if e.Hears? || e.TimesOut? {
      ThroughOne(h.client.number, h.client.tries, w);
    }
  }

  /** The client of a run, once done, has decided as the program's client does on these answers. */
  lemma {:induction false} ClientProjection(h: Handshake, events: seq<Event>, w: Wire, initially: bool)
    requires Inv(h, initially) && Run(h, events) && After(h, events).client.Finished?
    requires w.inbox == Answers(events)
    ensures Decides(h.client, w) == After(h, events).client.ok
    decreases |events|
  {
    hide Happens, Takes;
    if events != [] {
      var e, h' := events[0], Happens(h, events[0]);
      EventKeeps(h, e, initially);
      DecidesOn(h, e, w, initially);
      var w' := if e.Hears? || e.TimesOut? then w.Received() else w;
      assert w'.inbox == Answers(events[1..]);
      ClientProjection(h', events[1..], w', initially);
    }
  }

  /** The converse fails: the file can be removed and the client report failure, when ACK 1 is
      lost. */
  lemma DeletionUnconfirmed() returns (events: seq<Event>)
    ensures Run(Begin(true), events)
    ensures var h := After(Begin(true), events);
      h.client == Finished(false) && h.removals == 1 && !h.present && AckPacket(1) in h.toClient
  {
    events := DeletionRun([TimesOut, TimesOut, TimesOut, TimesOut, TimesOut]);
  }

  /** And success does occur. */
  lemma DeletionSucceeds() returns (events: seq<Event>)
    ensures Run(Begin(true), events)
    ensures After(Begin(true), events).client == Finished(true)
  {
    events := DeletionRun([Hears(AckPacket(1))]);
  }

  /** The file is there, nothing fails and the client has heard ACK 0; then `ending` happens. */
  const CONFIRMED := Handshake(Waiting(1, 0), [Over], {AckPacket(0), AckPacket(1)}, false, 1, 0)

  lemma Before(h: Handshake, e: Event, rest: seq<Event>) returns (events: seq<Event>)
    requires Possible(h, e) && Run(Happens(h, e), rest)
    ensures events == [e] + rest && Run(h, events) && After(h, events) == After(Happens(h, e), rest)
  {
    events := [e] + rest;
    assert events[1..] == rest;
  }

  /** The request is answered by one task, and the client hears ACK 0. */
  const GREETED := Handshake(Waiting(1, 0), [Looking], {AckPacket(0)}, true, 0, 0)

  lemma GreetedRun(ending: seq<Event>) returns (events: seq<Event>)
    requires Run(GREETED, ending)
    ensures Run(Begin(true), events) && After(Begin(true), events) == After(GREETED, ending)
  {
    hide Run, After;
    assert [] + [Greeting] == [Greeting];
    assert [Greeting][0 := Looking] == [Looking] && {} + {AckPacket(0)} == GREETED.toClient;
    events := Before(Handshake(Waiting(0, 0), [Looking], GREETED.toClient, true, 0, 0), Hears(AckPacket(0)), ending);
    events := Before(Handshake(Waiting(0, 0), [Greeting], {}, true, 0, 0), Greets(0, true), events);
    events := Before(Handshake(Waiting(0, 0), [], {}, true, 0, 0), Starts, events);
    events := Before(Begin(true), Requests, events);
  }

  lemma DeletionRun(ending: seq<Event>) returns (events: seq<Event>)
    requires Run(CONFIRMED, ending)
    ensures Run(Begin(true), events) && After(Begin(true), events) == After(CONFIRMED, ending)
  {
    hide Run, After;
    var acks := {AckPacket(0)};
    assert [Confirming][0 := Over] == [Over] && acks + {AckPacket(1)} == CONFIRMED.toClient;
    assert [Removing][0 := Confirming] == [Confirming] && [Looking][0 := Removing] == [Removing] && acks + {} == acks;
    events := Before(Handshake(Waiting(1, 0), [Confirming], acks, false, 1, 0), Confirms(0, true), ending);
    events := Before(Handshake(Waiting(1, 0), [Removing], acks, true, 0, 0), Removes(0, true), events);
    events := Before(GREETED, Looks(0, true), events);
    events := GreetedRun(events);
  }
}
