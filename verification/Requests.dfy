/** Operation data, the request packet the client prints and the parser the server reads it with. */
module Requests {
  import opened Common
  import opened Packets

  /** The characters of a C string, without its terminator. */
  type cstring = s: seq<byte> | 0 !in s

  const SLASH: byte := 47
  const ZERO: byte := 48

  const FILENAME_MAX := 255
  /** The size of the server's request buffer. */
  const BUFFER_SIZE := HEADER + 2 * FILENAME_MAX
  /** "storage/" */
  const STORAGE: cstring := [115, 116, 111, 114, 97, 103, 101, 47]
  /** "octet", "netascii", "mail" and "blksize" */
  const OCTET: cstring := [111, 99, 116, 101, 116]
  const NETASCII: cstring := [110, 101, 116, 97, 115, 99, 105, 105]
  const MAIL: cstring := [109, 97, 105, 108]
  const BLKSIZE: cstring := [98, 108, 107, 115, 105, 122, 101]

  datatype OperationId = Undefined | Receive | Send | RequestDelete | HandleDelete

  datatype TransferMode = Unspecified | Octet | NetAscii | Mail

  datatype OperationData = OperationData(id: OperationId, path: cstring, mode: TransferMode, blockSize: uint16)

  // ---------- tftp_init_operation_data ----------

  predicate IsSpace(b: byte) {
    b == 32 || 9 <= b <= 13
  }

  predicate IsDigit(b: byte) {
    ZERO <= b <= ZERO + 9
  }

  /** The value of the leading digits, continuing from `acc`. */
  function Digits(s: seq<byte>, acc: nat): nat {
    if s == [] || !IsDigit(s[0]) then acc else Digits(s[1..], 10 * acc + (s[0] - ZERO) as int)
  }

  /** The number `strtol` reads: blanks, a sign, digits; saturated to 64 bits. */
  function Strtol(s: seq<byte>): int {
    if s == [] then 0
    else if IsSpace(s[0]) then Strtol(s[1..])
    else if s[0] == 45 then -Min(Digits(s[1..], 0), 0x8000_0000_0000_0000)
    else Min(Digits(if s[0] == 43 then s[1..] else s, 0), 0x7fff_ffff_ffff_ffff)
  }

  /** The block size field: `atoi` cut to 16 bits, 0 standing for the default. */
  function ParseBlockSize(s: Option<cstring>): (r: Option<BlockSize>) {
    var n := if s.None? then 0 else Wrap(Strtol(s.value));
    if n == 0 then Some(BLKSIZE_DEFAULT)
    else if n < BLKSIZE_MIN || n > BLKSIZE_MAX then None
    else Some(n)
  }

  function Lower(s: seq<byte>): seq<byte> {
    seq(|s|, i requires 0 <= i < |s| => if 65 <= s[i] <= 90 then s[i] + 32 else s[i])
  }

  /** `strcasecmp(a, b) == 0` */
  predicate SameIgnoringCase(a: seq<byte>, b: seq<byte>) {
    Lower(a) == Lower(b)
  }

  function ParseMode(s: Option<cstring>): TransferMode {
    if s.None? || s.value == [] then Octet
    else if SameIgnoringCase(s.value, OCTET) then Octet
    else if SameIgnoringCase(s.value, NETASCII) then NetAscii
    else if SameIgnoringCase(s.value, MAIL) then Mail
    else Unspecified
  }

  predicate IsDelete(id: OperationId) {
    id.RequestDelete? || id.HandleDelete?
  }

  function InitOperation(id: OperationId, path: cstring, mode: Option<cstring>, blockSize: Option<cstring>):
      Option<OperationData> {
    if id.Undefined? then None
    else if IsDelete(id) then Some(OperationData(id, path, Octet, 0))
    else if ParseMode(mode) != Octet then None
    else match ParseBlockSize(blockSize)
      case None => None
      case Some(n) => Some(OperationData(id, path, Octet, n))
  }

  /** Every accepted block size lies in the range of RFC 2348, and a whole packet of it fits the
      16 bits of `data_packet_max_size`. */
  lemma AcceptedBlockSize(id: OperationId, path: cstring, mode: Option<cstring>, blockSize: Option<cstring>)
    ensures var r := InitOperation(id, path, mode, blockSize);
      r.Some? && !IsDelete(id) ==>
        && BLKSIZE_MIN <= r.value.blockSize <= BLKSIZE_MAX
        && HEADER + r.value.blockSize < 65536
        && Wrap(HEADER + r.value.blockSize) == HEADER + r.value.blockSize
  {
  }

  /** An accepted size is the number written if and only if that number was in range itself. */
  lemma BlockSizeIsNumberIff(s: cstring)
    requires ParseBlockSize(Some(s)).Some?
    ensures ParseBlockSize(Some(s)).value == Strtol(s) <==> BLKSIZE_MIN <= Strtol(s) <= BLKSIZE_MAX
  {
  }

  /** "66048" is accepted as 512. */
  lemma TruncatedBlockSize()
    ensures var s: cstring := [54, 54, 48, 52, 56];
      Strtol(s) == 66048 && ParseBlockSize(Some(s)) == Some(512)
  {
    var s: cstring := [54, 54, 48, 52, 56];
    assert s[1..] == [54, 48, 52, 56] && s[2..] == [48, 52, 56] && s[3..] == [52, 56] && s[4..] == [56];
    assert Digits([56], 6604) == 66048 by {
      assert [56][1..] == [];
    }
    assert Digits([52, 56], 660) == 66048 by {
      assert [52, 56][1..] == [56];
    }
    assert Digits([48, 52, 56], 66) == 66048 by {
      assert [48, 52, 56][1..] == [52, 56];
    }
    assert Digits([54, 48, 52, 56], 6) == 66048 by {
      assert [54, 48, 52, 56][1..] == [48, 52, 56];
    }
  }

  // ---------- send_request_packet ----------

  function Zeros(n: nat): seq<byte> {
    seq(n, _ => 0)
  }

  /** A zeroed buffer of `size` bytes after `fields` has been written at its start. */
  function Padded(fields: seq<byte>, size: nat): seq<byte>
    requires |fields| <= size
  {
    fields + Zeros(size - |fields|)
  }

  /** The length of what follows the last slash. */
  function NameLength(path: cstring): (n: nat)
    ensures n <= |path|
    ensures forall j :: |path| - n <= j < |path| ==> path[j] != SLASH
    ensures n < |path| ==> path[|path| - n - 1] == SLASH
  {
    if path == [] || path[|path| - 1] == SLASH then 0 else 1 + NameLength(path[..|path| - 1])
  }

  /** What follows the last slash. */
  function Basename(path: cstring): (name: cstring)
    ensures |name| <= |path| && name == path[|path| - |name|..]
    ensures SLASH !in name
    ensures |name| < |path| ==> path[|path| - |name| - 1] == SLASH
  {
    path[|path| - NameLength(path)..]
  }

  predicate Custom(d: OperationData) {
    d.blockSize > 0 && d.blockSize != BLKSIZE_DEFAULT
  }

  function Digit(n: int): (b: byte)
    requires 0 <= n < 10
    ensures b != 0 && IsDigit(b) && (b - ZERO) as int == n
  {
    ZERO + n as byte
  }

  /** `sprintf("%05u")` of a 16-bit number. */
  function FiveDigits(n: uint16): (s: cstring)
    ensures |s| == 5
  {
    [Digit(n / 10000), Digit(n / 1000 % 10), Digit(n / 100 % 10), Digit(n / 10 % 10), Digit(n % 10)]
  }

  function ModeString(m: TransferMode): cstring {
    match m
    case NetAscii => NETASCII
    case Mail => MAIL
    case _ => OCTET
  }

  /** The size computed before the packet is filled in: it has no room for the terminator of the
      transfer mode, which falls into the two bytes by which a `Packet_t` exceeds its opcode. */
  function ContentsSize(d: OperationData): nat {
    |Basename(d.path)| + 1
    + (if IsDelete(d.id) then 0 else |ModeString(d.mode)| + if Custom(d) then 8 + 6 else 0)
  }

  function PacketSize(d: OperationData): nat {
    HEADER + ContentsSize(d)
  }

  predicate FromClient(d: OperationData) {
    (d.id.Receive? || d.id.Send? || d.id.RequestDelete?) && !d.mode.Unspecified?
  }

  function RequestOpcode(id: OperationId): (n: uint16)
    ensures n < 256
  {
    match id
    case Receive => RRQ
    case Send => WRQ
    case _ => DRQ
  }

  /** The packet up to the terminator of its path, of its transfer mode, of the block size string
      and of the number. */
  function Named(d: OperationData): seq<byte> {
    [0, RequestOpcode(d.id) as byte] + Basename(d.path) + [0]
  }

  function Moded(d: OperationData): seq<byte> {
    Named(d) + ModeString(d.mode) + [0]
  }

  function Marked(d: OperationData): seq<byte> {
    Moded(d) + BLKSIZE + [0]
  }

  function Sized(d: OperationData): seq<byte> {
    Marked(d) + FiveDigits(d.blockSize) + [0]
  }

  /** The opcode and the fields, each with its terminator. */
  function Fields(d: OperationData): seq<byte> {
    if IsDelete(d.id) then Named(d) else if Custom(d) then Sized(d) else Moded(d)
  }

  /** The request packet: all its fields, every one of them terminated inside it, and zeros up to
      the computed size. */
  function RequestPacket(d: OperationData): (packet: seq<byte>)
    ensures |packet| == PacketSize(d) > |Fields(d)|
  {
    Padded(Fields(d), PacketSize(d))
  }

  /** `memcpy`; its precondition is that every write stays inside the destination. */
  method Copy(target: array<byte>, at: nat, source: seq<byte>)
    requires at + |source| <= target.Length
    modifies target
    ensures target[..] == old(target[..at]) + source + old(target[at + |source|..])
  {
    var i := 0;
    while i < |source|
      invariant 0 <= i <= |source|
      invariant forall j :: at <= j < at + i ==> target[j] == source[j - at]
      invariant forall j :: 0 <= j < at || at + i <= j < target.Length ==> target[j] == old(target[j])
    {
      target[at + i] := source[i];
      i := i + 1;
    }
    assert target[..at] == old(target[..at]);
    assert target[at..at + |source|] == source;
    assert target[at + |source|..] == old(target[at + |source|..]);
  }

  /** Writing a string behind what has been written, with its terminator or without; left out, the
      terminator is there all the same if the buffer goes on. */
  method Append(target: array<byte>, ghost done: seq<byte>, at: nat, source: seq<byte>, terminated: bool)
    requires |done| == at && at + |source| < target.Length
    requires target[..] == Padded(done, target.Length)
    modifies target
    ensures target[..] == Padded(done + source + [0], target.Length)
  {
    if terminated {
      Copy(target, at, source + [0]);
    } else {
      Copy(target, at, source);
    }
  }

  /** The zeroed packet with its opcode. */
  method NewRequest(size: nat, opcode: byte) returns (packet: array<byte>)
    requires 2 <= size
    ensures fresh(packet) && packet.Length == size && packet[..] == Padded([0, opcode], size)
  {
    packet := new byte[size](_ => 0);
    packet[1] := opcode;
  }

  /** The identifying string and the number, for a block size other than the default. */
  method AppendBlockSize(target: array<byte>, ghost done: seq<byte>, at: nat, blockSize: uint16)
    requires |done| == at && at + 8 + 6 <= target.Length
    requires target[..] == Padded(done, target.Length)
    modifies target
    ensures target[..] == Padded(done + BLKSIZE + [0] + FiveDigits(blockSize) + [0], target.Length)
  {
    hide Padded, FiveDigits;
    Append(target, done, at, BLKSIZE, true);
    Append(target, done + BLKSIZE + [0], at + 8, FiveDigits(blockSize), true);
  }

  /** The transfer mode and, if it is not the default, the block size. */
  method AppendOptions(packet: array<byte>, d: OperationData, at: nat)
    requires !IsDelete(d.id) && packet.Length == PacketSize(d) && at == |Named(d)|
    requires packet[..] == Padded(Named(d), packet.Length)
    modifies packet
    ensures packet[..] == RequestPacket(d)
  {
    LongerFields(d);
    hide Padded, FiveDigits, ModeString, Basename, Named;
    var mode := ModeString(d.mode);
    Append(packet, Named(d), at, mode, false);
    if Custom(d) {
      AppendBlockSize(packet, Moded(d), at + |mode| + 1, d.blockSize);
    }
  }

  /** `send_request_packet`, up to the call of `sendto`. */
  method BuildRequest(d: OperationData) returns (packet: array<byte>)
    requires FromClient(d)
    ensures fresh(packet) && packet[..] == RequestPacket(d)
  {
    LongerFields(d);
    hide Padded, FiveDigits, Moded, Marked, Sized, Basename, PacketSize;
    var name := Basename(d.path);
    packet := NewRequest(PacketSize(d), RequestOpcode(d.id) as byte);
    Append(packet, [0, RequestOpcode(d.id) as byte], 2, name, true);
    if d.id != RequestDelete {
      AppendOptions(packet, d, 2 + |name| + 1);
    }
  }

  // ---------- server_parse_request_data ----------

  /** The string at index `at` of a buffer, as `strlen` and `strcpy` see it. */
  function StringAt(b: seq<byte>, at: nat): cstring
    decreases |b| - at
  {
    if at >= |b| || b[at] == 0 then [] else
      var rest: cstring := StringAt(b, at + 1);
      [b[at]] + rest
  }

  /** A datagram in the zeroed request buffer, cut off at its size. */
  function Buffered(datagram: seq<byte>): (b: seq<byte>)
    ensures |b| == BUFFER_SIZE
  {
    Padded(datagram[..Min(|datagram|, BUFFER_SIZE)], BUFFER_SIZE)
  }

  /** Where the server keeps a file. */
  function StoragePath(name: cstring): cstring {
    STORAGE + name
  }

  /** The operation a request asks of the server. */
  function ServerOperation(opcode: int): OperationId {
    if opcode == RRQ then Send
    else if opcode == WRQ then Receive
    else if opcode == DRQ then HandleDelete
    else Undefined
  }

  /** The block size field, looked for only while the received bytes leave room for it. */
  function ParsedBlockSize(b: seq<byte>, received: int, mode: nat): Option<cstring> {
    if mode + 4 < received then
      var option := mode + |StringAt(b, 2 + mode)| + 1;
      if SameIgnoringCase(StringAt(b, 2 + option), BLKSIZE) && option + 4 < received
      then Some(StringAt(b, 2 + option + |StringAt(b, 2 + option)| + 1))
      else None
    else None
  }

  /** What the parser makes of a buffer whose first `received` bytes are a datagram. */
  function Parsed(b: seq<byte>, received: int): Option<OperationData>
    requires 2 <= |b|
  {
    var name := StringAt(b, 2);
    var path := StoragePath(name[..Min(|name|, FILENAME_MAX)]);
    var id := ServerOperation(256 * b[0] as int + b[1] as int);
    if id.Undefined? then None
    else if id.HandleDelete? then InitOperation(id, path, None, None)
    else InitOperation(id, path, Some(StringAt(b, 2 + |name| + 1)), ParsedBlockSize(b, received, |name| + 1))
  }

  /** The listener's request buffer. */
  class Listener {
    const requestBuffer: array<byte>
    var bytesReceived: int

    ghost predicate Valid()
      reads this, requestBuffer
    {
      requestBuffer.Length == BUFFER_SIZE
    }

    constructor ()
      ensures Valid() && fresh(requestBuffer) && requestBuffer[..] == Zeros(BUFFER_SIZE) && bytesReceived == 0
    {
      requestBuffer := new byte[BUFFER_SIZE](_ => 0);
      bytesReceived := 0;
    }

    /** `recvfrom` into the buffer. */
    method Receive(datagram: seq<byte>)
      requires Valid() && requestBuffer[..] == Zeros(BUFFER_SIZE)
      modifies this, requestBuffer
      ensures Valid() && bytesReceived == Min(|datagram|, BUFFER_SIZE) && requestBuffer[..] == Buffered(datagram)
    {
      bytesReceived := Min(|datagram|, BUFFER_SIZE);
      Copy(requestBuffer, 0, datagram[..bytesReceived]);
    }

    method StringLength(at: nat) returns (n: nat)
      requires Valid() && at <= BUFFER_SIZE
      ensures n == |StringAt(requestBuffer[..], at)| && at + n <= BUFFER_SIZE
      ensures requestBuffer[at..at + n] == StringAt(requestBuffer[..], at)
    {
      n := 0;
      while at + n < BUFFER_SIZE && requestBuffer[at + n] != 0
        invariant at + n <= BUFFER_SIZE
        invariant StringAt(requestBuffer[..], at) == requestBuffer[at..at + n] + StringAt(requestBuffer[..], at + n)
      {
        n := n + 1;
      }
    }

    method ReadString(at: nat) returns (s: cstring)
      requires Valid()
      ensures s == StringAt(requestBuffer[..], at)
    {
      if at > BUFFER_SIZE {
        return [];
      }
      var n := StringLength(at);
      s := requestBuffer[at..at + n];
    }

    /** `server_parse_request_data`. */
    method ParseRequest() returns (r: Option<OperationData>)
      requires Valid()
      ensures r == Parsed(requestBuffer[..], bytesReceived)
    {
      hide StringAt, InitOperation, SameIgnoringCase;
      var name := ReadString(2);
      var filePath := StoragePath(name[..Min(|name|, FILENAME_MAX)]);
      var id := ServerOperation(256 * requestBuffer[0] as int + requestBuffer[1] as int);
      if id == Undefined {
        return None;
      }
      var modeString, octetsString := None, None;
      if id != HandleDelete {
        var index := |name| + 1;
        var mode := ReadString(2 + index);
        modeString := Some(mode);
        if index + 4 < bytesReceived {
          index := index + |mode| + 1;
          var option := ReadString(2 + index);
          if SameIgnoringCase(option, BLKSIZE) && index + 4 < bytesReceived {
            index := index + |option| + 1;
            var octets := ReadString(2 + index);
            octetsString := Some(octets);
          }
        }
      }
      r := InitOperation(id, filePath, modeString, octetsString);
    }

    /** `explicit_bzero` at the end of each round of the listener loop. */
    method Clear()
      requires Valid()
      modifies requestBuffer
      ensures Valid() && requestBuffer[..] == Zeros(BUFFER_SIZE)
    {
      var i := 0;
      while i < BUFFER_SIZE
        invariant 0 <= i <= BUFFER_SIZE
        invariant requestBuffer[..i] == Zeros(i)
      {
        requestBuffer[i] := 0;
        i := i + 1;
      }
    }
  }

  // ---------- The round trip ----------

  /** A terminated string is read back. */
  lemma {:induction false} StringIsRead(b: seq<byte>, at: nat, s: cstring)
    requires at + |s| < |b| && b[at..at + |s|] == s && b[at + |s|] == 0
    ensures StringAt(b, at) == s
    decreases |s|
  {
    if s != [] {
      assert b[at] == s[0];
      assert b[at + 1..at + |s|] == s[1..];
      StringIsRead(b, at + 1, s[1..]);
    }
  }

  lemma DigitIsRead(digit: byte, rest: seq<byte>, acc: nat)
    requires IsDigit(digit)
    ensures Digits([digit] + rest, acc) == Digits(rest, 10 * acc + (digit - ZERO) as int)
  {
    assert ([digit] + rest)[1..] == rest;
  }

  lemma DecimalExpansion(n: uint16)
    ensures n == 10 * (n / 10) + n % 10
    ensures n / 10 == 10 * (n / 100) + n / 10 % 10
    ensures n / 100 == 10 * (n / 1000) + n / 100 % 10
    ensures n / 1000 == 10 * (n / 10000) + n / 1000 % 10
  {
    ByTen(n / 10, n / 100);
    ByTen(n / 100, n / 1000);
    ByTen(n / 1000, n / 10000);
  }

  lemma ByTen(n: nat, tenth: nat)
    requires 10 * tenth <= n < 10 * tenth + 10
    ensures n == 10 * tenth + n % 10
  {
  }

  /** The number printed in five digits is the number read, leading zeros and all. */
  lemma FiveDigitsRead(n: uint16)
    ensures Strtol(FiveDigits(n)) == n
  {
    hide Digits;
    var a, b, c, d, e := Digit(n / 10000), Digit(n / 1000 % 10), Digit(n / 100 % 10), Digit(n / 10 % 10), Digit(n % 10);
    DecimalExpansion(n);
    calc {
      Digits([a, b, c, d, e], 0);
      { DigitIsRead(a, [b, c, d, e], 0); assert [a, b, c, d, e] == [a] + [b, c, d, e]; }
      Digits([b, c, d, e], n / 10000);
      { DigitIsRead(b, [c, d, e], n / 10000); assert [b, c, d, e] == [b] + [c, d, e]; }
      Digits([c, d, e], n / 1000);
      { DigitIsRead(c, [d, e], n / 1000); assert [c, d, e] == [c] + [d, e]; }
      Digits([d, e], n / 100);
      { DigitIsRead(d, [e], n / 100); assert [d, e] == [d] + [e]; }
      Digits([e], n / 10);
      { DigitIsRead(e, [], n / 10); assert [e] == [e] + []; NothingRead(n); }
      n;
    }
  }

  lemma NothingRead(acc: nat)
    ensures Digits([], acc) == acc
  {
  }

  /** The block size field a packet carries, if any. */
  function PrintedBlockSize(n: uint16): Option<cstring> {
    if n > 0 && n != BLKSIZE_DEFAULT then Some(FiveDigits(n)) else None
  }

  /** Both ends agree on the block size: the one printed (or left out when it is the default) is
      the one the server derives. */
  lemma BlockSizeAgreement(n: BlockSize)
    ensures ParseBlockSize(PrintedBlockSize(n)) == Some(n)
  {
    hide FiveDigits, Strtol;
    FiveDigitsRead(n);
  }

  /** Who answers a client's operation. */
  function Complement(id: OperationId): OperationId {
    match id
    case Receive => Send
    case Send => Receive
    case _ => HandleDelete
  }

  lemma FieldIsRead(b: seq<byte>, before: seq<byte>, s: cstring)
    requires before + s + [0] <= b
    ensures StringAt(b, |before|) == s
  {
    hide StringAt;
    assert b[|before|..|before| + |s|] == s;
    assert b[|before| + |s|] == (before + s + [0])[|before| + |s|];
    StringIsRead(b, |before|, s);
  }

  lemma LongerFields(d: OperationData)
    ensures Named(d) <= Moded(d) <= Marked(d) <= Sized(d)
    ensures Named(d) <= Fields(d) && (!IsDelete(d.id) ==> Moded(d) <= Fields(d))
    ensures |Named(d)| == |Basename(d.path)| + 3 && |Moded(d)| == |Named(d)| + |ModeString(d.mode)| + 1
    ensures |Marked(d)| == |Moded(d)| + 8 && |Sized(d)| == |Marked(d)| + 6
    ensures |Named(d)| < PacketSize(d) && |Fields(d)| < PacketSize(d)
  {
    hide FiveDigits, Basename, ModeString, Named, Moded, Marked, Sized;
    PrefixChain(d);
    FieldLengths(d);
    PrefixOfPrefix(Named(d), Marked(d), Sized(d));
    PrefixOfPrefix(Moded(d), Marked(d), Sized(d));
    if IsDelete(d.id) {
      assert Fields(d) == Named(d);
    } else if Custom(d) {
      assert Fields(d) == Sized(d);
    } else {
      assert Fields(d) == Moded(d);
    }
  }

  lemma PrefixChain(d: OperationData)
    ensures Named(d) <= Moded(d) <= Marked(d) <= Sized(d) && Named(d) <= Marked(d)
  {
    hide FiveDigits, Named, ModeString;
    assert Named(d) <= Moded(d);
    assert Moded(d) <= Marked(d);
    PrefixOfPrefix(Named(d), Moded(d), Marked(d));
  }

  lemma FieldLengths(d: OperationData)
    ensures |Named(d)| == |Basename(d.path)| + 3 && |Moded(d)| == |Named(d)| + |ModeString(d.mode)| + 1
    ensures |Marked(d)| == |Moded(d)| + 8 && |Sized(d)| == |Marked(d)| + 6
  {
    hide FiveDigits, Basename, ModeString;
  }

  /** A buffer that holds the fields of a packet and then nothing but zeros. */
  predicate Holds(b: seq<byte>, d: OperationData) {
    |Fields(d)| <= |b| && b == Padded(Fields(d), |b|)
  }

  lemma RequestInBuffer(d: OperationData)
    requires PacketSize(d) <= BUFFER_SIZE
    ensures Holds(Buffered(RequestPacket(d)), d)
  {
    hide Fields, PacketSize;
    var packet := RequestPacket(d);
    PaddedTwice(Fields(d), PacketSize(d), BUFFER_SIZE);
    assert packet[..|packet|] == packet;
  }

  lemma PaddedTwice(fields: seq<byte>, n: nat, m: nat)
    requires |fields| <= n <= m
    ensures Padded(Padded(fields, n), m) == Padded(fields, m)
  {
  }

  lemma HoldsFields(b: seq<byte>, d: OperationData)
    requires Holds(b, d)
    ensures Fields(d) <= b
    ensures forall i :: |Fields(d)| <= i < |b| ==> b[i] == 0
  {
    hide Fields;
  }

  lemma PrefixOfPrefix(a: seq<byte>, b: seq<byte>, c: seq<byte>)
    requires a <= b <= c
    ensures a <= c
  {
  }

  /** The path field. */
  lemma NameIsRead(d: OperationData, b: seq<byte>)
    requires Holds(b, d)
    ensures StringAt(b, 2) == Basename(d.path)
  {
    hide FiveDigits, Basename, ModeString, StringAt, Holds, Moded, Marked, Sized, Fields;
    HoldsFields(b, d);
    LongerFields(d);
    PrefixOfPrefix(Named(d), Fields(d), b);
    FieldIsRead(b, [0, RequestOpcode(d.id) as byte], Basename(d.path));
  }

  /** The transfer mode, whose terminator the size calculation left out. */
  lemma ModeIsRead(d: OperationData, b: seq<byte>)
    requires Holds(b, d) && !IsDelete(d.id)
    ensures StringAt(b, 2 + |Basename(d.path)| + 1) == ModeString(d.mode)
  {
    hide FiveDigits, Basename, ModeString, StringAt, Holds, Named, Marked, Sized, Fields;
    HoldsFields(b, d);
    LongerFields(d);
    PrefixOfPrefix(Moded(d), Fields(d), b);
    FieldIsRead(b, Named(d), ModeString(d.mode));
  }

  /** The block size, printed or left out. */
  lemma BlockSizeIsRead(d: OperationData, b: seq<byte>)
    requires Holds(b, d) && !IsDelete(d.id)
    ensures ParsedBlockSize(b, |Fields(d)| + 1, |Basename(d.path)| + 1)
         == PrintedBlockSize(d.blockSize)
  {
    hide FiveDigits, Basename, ModeString, StringAt, Holds, Named, Moded, Lower;
    HoldsFields(b, d);
    LongerFields(d);
    ModeIsRead(d, b);
    if Custom(d) {
      PrefixOfPrefix(Marked(d), Sized(d), b);
      FieldIsRead(b, Moded(d), BLKSIZE);
      FieldIsRead(b, Marked(d), FiveDigits(d.blockSize));
      assert SameIgnoringCase(BLKSIZE, BLKSIZE);
    } else {
      NothingThere(b, |Moded(d)|);
      NothingIsNotTheOption();
    }
  }

  lemma NothingIsNotTheOption()
    ensures !SameIgnoringCase([], BLKSIZE)
  {
    assert |Lower([])| == 0 && |Lower(BLKSIZE)| == 7;
  }

  lemma NothingThere(b: seq<byte>, at: nat)
    requires at >= |b| || b[at] == 0
    ensures StringAt(b, at) == []
  {
  }

  /** Operation data of a client, as `tftp_init_operation_data` produces it. */
  predicate ClientData(d: OperationData) {
    && (d.id.Receive? || d.id.Send? || d.id.RequestDelete?)
    && d.mode == Octet
    && if IsDelete(d.id) then d.blockSize == 0 else BLKSIZE_MIN <= d.blockSize <= BLKSIZE_MAX
  }

  lemma InitYieldsClientData(id: OperationId, path: cstring, mode: Option<cstring>, blockSize: Option<cstring>)
    requires id.Receive? || id.Send? || id.RequestDelete?
    ensures var r := InitOperation(id, path, mode, blockSize);
      r.Some? ==> ClientData(r.value) && r.value.id == id && r.value.path == path
  {
  }

  /** What the server makes of a datagram. */
  function ParsedFrom(datagram: seq<byte>): Option<OperationData> {
    Parsed(Buffered(datagram), Min(|datagram|, BUFFER_SIZE))
  }

  /** What the server makes of the packet of a client. */
  function AtServer(d: OperationData): Option<OperationData> {
    ParsedFrom(RequestPacket(d))
  }

  /** The operation the server carries out for a client. */
  function Answer(d: OperationData): OperationData {
    OperationData(Complement(d.id), StoragePath(Basename(d.path)), Octet, d.blockSize)
  }

  /** Request round trip: for every operation a client can start, the server parses the emitted
      packet to the complementary operation on the file's name in its storage directory, with the
      same mode and block size, if and only if the name has at most 255 characters. */
  lemma RequestRoundTrip(d: OperationData)
    requires ClientData(d)
    ensures AtServer(d) == Some(Answer(d)) <==> |Basename(d.path)| <= FILENAME_MAX
  {
    hide Parsed, Basename, RequestPacket, Buffered;
    if |Basename(d.path)| > FILENAME_MAX {
      ParsedPath(Buffered(RequestPacket(d)), Min(|RequestPacket(d)|, BUFFER_SIZE));
    } else if IsDelete(d.id) {
      DeleteRoundTrip(d);
    } else {
      TransferRoundTrip(d);
    }
  }

  /** The name a request asks for, cut off at 255 characters. */
  function NameField(b: seq<byte>): (name: cstring)
    ensures |name| <= FILENAME_MAX
  {
    var name := StringAt(b, 2);
    name[..Min(|name|, FILENAME_MAX)]
  }

  lemma ParsedPath(b: seq<byte>, received: int)
    requires 2 <= |b|
    ensures Parsed(b, received).Some? ==> Parsed(b, received).value.path == STORAGE + NameField(b)
  {
    hide StringAt, ParseMode, ParseBlockSize, ParsedBlockSize;
  }

  lemma DeleteRoundTrip(d: OperationData)
    requires ClientData(d) && IsDelete(d.id) && |Basename(d.path)| <= FILENAME_MAX
    ensures AtServer(d) == Some(Answer(d))
  {
    hide Basename, AtServer, InitOperation, StoragePath;
    DeleteArrives(d);
    DeleteAccepted(StoragePath(Basename(d.path)));
  }

  lemma DeleteArrives(d: OperationData)
    requires ClientData(d) && IsDelete(d.id) && |Basename(d.path)| <= FILENAME_MAX
    ensures AtServer(d) == InitOperation(HandleDelete, StoragePath(Basename(d.path)), None, None)
  {
    hide Basename, Fields, RequestPacket, Buffered, Parsed, InitOperation, StoragePath, Holds, PacketSize;
    PacketFits(d);
    RequestInBuffer(d);
    DeleteIsParsed(d, Buffered(RequestPacket(d)), |RequestPacket(d)|);
  }

  lemma DeleteIsParsed(d: OperationData, b: seq<byte>, received: nat)
    requires ClientData(d) && IsDelete(d.id) && |Basename(d.path)| <= FILENAME_MAX
    requires |b| == BUFFER_SIZE && Holds(b, d)
    ensures Parsed(b, received) == InitOperation(HandleDelete, StoragePath(Basename(d.path)), None, None)
  {
    hide Basename, StringAt, Fields, Parsed, InitOperation, ServerOperation, StoragePath, Holds;
    NameIsRead(d, b);
    OpcodeIsRead(d, b);
    ParsedDelete(b, received, Basename(d.path));
  }

  lemma TransferRoundTrip(d: OperationData)
    requires ClientData(d) && !IsDelete(d.id) && |Basename(d.path)| <= FILENAME_MAX
    ensures AtServer(d) == Some(Answer(d))
  {
    hide Basename, AtServer, InitOperation, StoragePath, ModeString, PrintedBlockSize;
    TransferArrives(d);
    TransferAccepted(Complement(d.id), StoragePath(Basename(d.path)), d.blockSize);
  }

  lemma TransferArrives(d: OperationData)
    requires ClientData(d) && !IsDelete(d.id) && |Basename(d.path)| <= FILENAME_MAX
    ensures AtServer(d) == InitOperation(Complement(d.id), StoragePath(Basename(d.path)),
                                         Some(ModeString(d.mode)), PrintedBlockSize(d.blockSize))
  {
    hide Basename, Fields, RequestPacket, Buffered, Parsed, InitOperation, StoragePath, Holds, PacketSize, ModeString,
      PrintedBlockSize;
    PacketFits(d);
    RequestInBuffer(d);
    OneByteLeft(d);
    TransferIsParsed(d, Buffered(RequestPacket(d)), |RequestPacket(d)|);
  }

  lemma TransferIsParsed(d: OperationData, b: seq<byte>, received: nat)
    requires ClientData(d) && !IsDelete(d.id) && |Basename(d.path)| <= FILENAME_MAX
    requires |b| == BUFFER_SIZE && Holds(b, d) && received == |Fields(d)| + 1
    ensures Parsed(b, received) == InitOperation(Complement(d.id), StoragePath(Basename(d.path)),
                                                 Some(ModeString(d.mode)), PrintedBlockSize(d.blockSize))
  {
    hide Basename, StringAt, Fields, Parsed, ParsedBlockSize, InitOperation, ServerOperation, StoragePath, Holds,
      ModeString, PrintedBlockSize;
    NameIsRead(d, b);
    OpcodeIsRead(d, b);
    ModeIsRead(d, b);
    BlockSizeIsRead(d, b);
    ParsedTransfer(b, received, Basename(d.path), ModeString(d.mode), PrintedBlockSize(d.blockSize), Complement(d.id));
  }

  /** The server accepts what the client has accepted. */
  lemma TransferAccepted(id: OperationId, path: cstring, n: BlockSize)
    requires id.Receive? || id.Send?
    ensures InitOperation(id, path, Some(ModeString(Octet)), PrintedBlockSize(n))
         == Some(OperationData(id, path, Octet, n))
  {
    hide PrintedBlockSize, ParseBlockSize, ParseMode;
    OctetIsKnown();
    BlockSizeAgreement(n);
  }

  lemma DeleteAccepted(path: cstring)
    ensures InitOperation(HandleDelete, path, None, None) == Some(OperationData(HandleDelete, path, Octet, 0))
  {
  }

  /** The parser's result, once each field is known. */
  lemma ParsedDelete(b: seq<byte>, received: int, name: cstring)
    requires |b| == BUFFER_SIZE && StringAt(b, 2) == name && |name| <= FILENAME_MAX
    requires ServerOperation(256 * b[0] as int + b[1] as int) == HandleDelete
    ensures Parsed(b, received) == InitOperation(HandleDelete, StoragePath(name), None, None)
  {
    hide StringAt, InitOperation, ServerOperation;
    assert name[..|name|] == name;
  }

  lemma ParsedTransfer(b: seq<byte>, received: int, name: cstring, mode: cstring, printed: Option<cstring>,
                       id: OperationId)
    requires |b| == BUFFER_SIZE && StringAt(b, 2) == name && |name| <= FILENAME_MAX
    requires ServerOperation(256 * b[0] as int + b[1] as int) == id && (id.Receive? || id.Send?)
    requires StringAt(b, 2 + |name| + 1) == mode && ParsedBlockSize(b, received, |name| + 1) == printed
    ensures Parsed(b, received) == InitOperation(id, StoragePath(name), Some(mode), printed)
  {
    hide StringAt, InitOperation, ParsedBlockSize, ServerOperation;
    assert name[..|name|] == name;
  }

  lemma PacketFits(d: OperationData)
    requires |Basename(d.path)| <= FILENAME_MAX
    ensures |RequestPacket(d)| == PacketSize(d) <= BUFFER_SIZE
  {
    hide Basename, FiveDigits, RequestPacket;
  }

  lemma OneByteLeft(d: OperationData)
    requires !IsDelete(d.id)
    ensures |RequestPacket(d)| == |Fields(d)| + 1
  {
    hide FiveDigits, Basename, ModeString;
  }

  lemma OctetIsKnown()
    ensures ParseMode(Some(OCTET)) == Octet
  {
  }

  lemma OpcodeIsRead(d: OperationData, b: seq<byte>)
    requires |b| >= 2 && Holds(b, d) && FromClient(d)
    ensures 256 * b[0] as int + b[1] as int == RequestOpcode(d.id)
    ensures ServerOperation(RequestOpcode(d.id)) == Complement(d.id)
  {
    hide FiveDigits, Basename, ModeString;
  }

  /** `data_packet_max_size` as `tftp_fill_transfer_data` computes it, or its refusal. */
  function FilledPacketSize(blockSize: uint16): Option<uint16> {
    if blockSize == 0 then Some(Wrap(HEADER + BLKSIZE_DEFAULT))
    else if blockSize < BLKSIZE_MIN || blockSize > BLKSIZE_MAX then None
    else Some(Wrap(HEADER + blockSize))
  }

  /** Both ends of a transfer compute the same size of a full packet, without loss, and so agree on
      which packets are final. */
  lemma EndsAgreeOnPacketSize(d: OperationData)
    requires ClientData(d) && !IsDelete(d.id) && |Basename(d.path)| <= FILENAME_MAX
    ensures AtServer(d).Some?
    ensures FilledPacketSize(AtServer(d).value.blockSize) == FilledPacketSize(d.blockSize)
         == Some(HEADER + d.blockSize)
  {
    hide AtServer, Basename, StoragePath, FilledPacketSize;
    RequestRoundTrip(d);
    PacketSizeFits(d.blockSize);
  }

  lemma PacketSizeFits(n: BlockSize)
    ensures FilledPacketSize(n) == Some(HEADER + n)
  {
  }

  /** The last byte of a request packet is zero, so every field is terminated inside it: a string
      that starts inside the packet ends inside it. */
  lemma {:induction false} FieldsEndInside(b: seq<byte>, size: nat, at: nat)
    requires at < size <= |b| && b[size - 1] == 0
    ensures at + |StringAt(b, at)| < size
    decreases size - at
  {
    if b[at] != 0 {
      FieldsEndInside(b, size, at + 1);
    }
  }

  lemma RequestIsTerminated(d: OperationData, at: nat)
    requires at < |RequestPacket(d)|
    ensures at + |StringAt(RequestPacket(d), at)| < |RequestPacket(d)|
    ensures PacketSize(d) <= BUFFER_SIZE ==>
      at + |StringAt(Buffered(RequestPacket(d)), at)| < |RequestPacket(d)|
  {
    hide Buffered, StringAt, Fields;
    LongerFields(d);
    hide PacketSize;
    FieldsEndInside(RequestPacket(d), PacketSize(d), at);
    if PacketSize(d) <= BUFFER_SIZE {
      RequestInBuffer(d);
      FieldsEndInside(Buffered(RequestPacket(d)), PacketSize(d), at);
    }
  }
}
