/** The operating system as one end of a transfer sees it. */
module Link {
  import opened Packets

  /** `faults` answers, point by point, whether the code finds a reason to give up there: the
      termination flag set, or a failing `fread`, `sendto` or `fwrite`. `inbox` answers the calls
      of `recvfrom`. A list that has run out means no further fault, and silence (ETIMEDOUT).
      The rest is history: the packets passed to `sendto`, the answers `recvfrom` has given and
      whether a fault has struck. */
  datatype Wire = Wire(faults: seq<bool>, inbox: seq<Recv>, sent: seq<Packet>, heard: seq<Recv>, faulted: bool) {
    function Fault(): bool {
      faults != [] && faults[0]
    }

    function Polled(): Wire {
      this.(faults := if faults == [] then [] else faults[1..], faulted := faulted || Fault())
    }

    function Incoming(): Recv {
      if inbox == [] then TimedOut else inbox[0]
    }

    function Received(): Wire {
      this.(inbox := if inbox == [] then [] else inbox[1..], heard := heard + [Incoming()])
    }

    function Emit(packets: seq<Packet>): Wire {
      if packets == [] then this else this.(sent := sent + packets)
    }
  }

  /** A socket at the start of an operation. */
  function Fresh(faults: seq<bool>, inbox: seq<Recv>): Wire {
    Wire(faults, inbox, [], [], false)
  }

  /** The answers of `later` come from the lists of `earlier`. */
  ghost predicate Follows(earlier: Wire, later: Wire) {
    && (forall r :: r in later.inbox ==> r in earlier.inbox)
    && (forall r :: r in later.heard ==> r in earlier.heard || r in earlier.inbox || r == TimedOut)
    && (forall f :: f in later.faults ==> f in earlier.faults)
    && (later.faulted ==> earlier.faulted || true in earlier.faults)
  }

  /** The data socket of an operation. */
  class Socket {
    var faults: seq<bool>
    var inbox: seq<Recv>
    ghost var sent: seq<Packet>
    ghost var heard: seq<Recv>
    ghost var faulted: bool

    constructor (faults: seq<bool>, inbox: seq<Recv>)
      ensures View() == Fresh(faults, inbox)
    {
      this.faults, this.inbox := faults, inbox;
      this.sent, this.heard, this.faulted := [], [], false;
    }

    ghost function View(): Wire
      reads this
    {
      Wire(faults, inbox, sent, heard, faulted)
    }

    method Poll() returns (fault: bool)
      modifies this
      ensures fault == old(View()).Fault() && View() == old(View()).Polled()
    {
      fault := faults != [] && faults[0];
      faulted := faulted || fault;
      if faults != [] {
        faults := faults[1..];
      }
    }

    method Receive() returns (r: Recv)
      modifies this
      ensures r == old(View()).Incoming() && View() == old(View()).Received()
    {
      if inbox == [] {
        r := TimedOut;
      } else {
        r, inbox := inbox[0], inbox[1..];
      }
      heard := heard + [r];
    }

    method Send(p: Packet)
      modifies this
      ensures View() == old(View()).Emit([p])
    {
      sent := sent + [p];
    }
  }
}
