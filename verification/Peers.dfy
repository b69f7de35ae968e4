/** Requests byte for byte: what the client sends, what the server makes of the datagram of any peer,
    and which operations either end refuses. */
module Peers {
  import opened Common
  import opened Packets
  import opened Requests

  // ---------- Text ----------

  /** The same character, or a letter in both cases. */
  predicate SameLetter(a: byte, b: byte) {
    a == b || (65 <= a <= 90 && b == a + 32) || (65 <= b <= 90 && a == b + 32)
  }

  /** Two strings are the same to `strcasecmp` if and only if they agree up to the case of letters. */
  lemma CaseIgnored(a: seq<byte>, b: seq<byte>)
    ensures SameIgnoringCase(a, b) <==> |a| == |b| && forall i :: 0 <= i < |a| ==> SameLetter(a[i], b[i])
  {
    assert |Lower(a)| == |a| && |Lower(b)| == |b|;
    if SameIgnoringCase(a, b) {
      forall i | 0 <= i < |a| ensures SameLetter(a[i], b[i]) {
        assert Lower(a)[i] == Lower(b)[i];
      }
    }
  }

  predicate AllDigits(s: seq<byte>) {
    forall i :: 0 <= i < |s| ==> 48 <= s[i] <= 57
  }

  /** The number that digits stand for, the last one standing for itself. */
  function Value(digits: seq<byte>): nat
    requires AllDigits(digits)
  {
    if digits == [] then 0 else 10 * Value(digits[..|digits| - 1]) + (digits[|digits| - 1] as int - 48)
  }

  lemma {:induction false} DigitsStep(digits: seq<byte>, rest: seq<byte>, acc: nat)
    requires AllDigits(digits)
    ensures Digits(digits + rest, acc) == Digits(rest, Digits(digits, acc))
    decreases |digits|
  {
    if digits == [] {
      assert digits + rest == rest;
    } else {
      assert (digits + rest)[1..] == digits[1..] + rest;
      DigitsStep(digits[1..], rest, 10 * acc + (digits[0] - ZERO) as int);
    }
  }

  lemma {:induction false} DigitsAreValue(digits: seq<byte>)
    requires AllDigits(digits)
    ensures Digits(digits, 0) == Value(digits)
  {
    if digits != [] {
      var n := |digits| - 1;
      DigitsAreValue(digits[..n]);
      DigitsStep(digits[..n], [digits[n]], 0);
      assert digits[..n] + [digits[n]] == digits;
      assert [digits[n]][1..] == [];
    }
  }

  /** What stands before the digits of a number: a sign or nothing. */
  datatype Sign = Plus | Minus | NoSign

  function SignText(sign: Sign): cstring {
    match sign
    case Plus => [43]
    case Minus => [45]
    case NoSign => []
  }

  /** A number saturated to 64 bits. */
  function Saturated(sign: Sign, n: int): int {
    if sign.Minus? then (if n > 0x8000_0000_0000_0000 then -0x8000_0000_0000_0000 else -n)
    else if n > 0x7fff_ffff_ffff_ffff then 0x7fff_ffff_ffff_ffff else n
  }

  lemma SignedIsRead(sign: Sign, digits: seq<byte>, rest: seq<byte>)
    requires digits != [] && AllDigits(digits)
    requires rest == [] || !(48 <= rest[0] <= 57)
    ensures Strtol(SignText(sign) + (digits + rest)) == Saturated(sign, Value(digits))
  {
    hide Digits, Value;
    DigitsAreValue(digits);
    DigitsStep(digits, rest, 0);
    DigitsEnd(rest, Value(digits));
    var s := SignText(sign) + (digits + rest);
    assert (digits + rest)[0] == digits[0];
    if sign.NoSign? {
      assert s == digits + rest;
    } else {
      assert s[1..] == digits + rest;
    }
  }

  lemma DigitsEnd(rest: seq<byte>, acc: nat)
    requires rest == [] || !(48 <= rest[0] <= 57)
    ensures Digits(rest, acc) == acc
  {
  }

  /** A number is read as C reads it: behind blanks, with its sign, up to the first character that is
      no digit, and saturated to 64 bits. */
  lemma {:induction false} NumberIsRead(blanks: seq<byte>, sign: Sign, digits: seq<byte>, rest: seq<byte>)
    requires forall i :: 0 <= i < |blanks| ==> blanks[i] == 32 || 9 <= blanks[i] <= 13
    requires digits != [] && AllDigits(digits)
    requires rest == [] || !(48 <= rest[0] <= 57)
    ensures Strtol(blanks + (SignText(sign) + (digits + rest))) == Saturated(sign, Value(digits))
    decreases |blanks|
  {
    hide Digits, Value, SignText, Saturated;
    var s := SignText(sign) + (digits + rest);
    if blanks == [] {
      assert blanks + s == s;
      SignedIsRead(sign, digits, rest);
    } else {
      assert (blanks + s)[1..] == blanks[1..] + s;
      NumberIsRead(blanks[1..], sign, digits, rest);
    }
  }

  // ---------- Refusals ----------

  /** An operation is refused if and only if it is undefined, or a transfer with a mode given other
      than "octet" in any case, or with a size given that is, cut to 16 bits, neither 0 nor one of
      8..65464. An accepted one keeps its path and has octet mode; the block size of a transfer is
      the one given, or 512 if none is or it is 0. */
  lemma RefusedIff(id: OperationId, path: cstring, mode: Option<cstring>, blockSize: Option<cstring>)
    ensures var r := InitOperation(id, path, mode, blockSize);
      var size := if blockSize.None? then 0 else Strtol(blockSize.value) % 65536;
      && (r.None? <==>
            || id.Undefined?
            || ((id.Receive? || id.Send?)
                && ((mode.Some? && mode.value != [] && !SameIgnoringCase(mode.value, OCTET))
                    || (size != 0 && !(8 <= size <= 65464)))))
      && (r.Some? ==> r.value == OperationData(id, path, Octet,
            if id.RequestDelete? || id.HandleDelete? then 0 else if size == 0 then 512 else size))
  {
    hide Strtol, Lower;
  }

  /** Once accepted, an operation is not refused again for its block size when its buffers are made. */
  lemma AcceptedIsFilled(id: OperationId, path: cstring, mode: Option<cstring>, blockSize: Option<cstring>)
    ensures var r := InitOperation(id, path, mode, blockSize);
      r.Some? && (id.Receive? || id.Send?) ==>
        FilledPacketSize(r.value.blockSize) == Some(4 + r.value.blockSize)
  {
    hide Strtol, Lower;
    AcceptedBlockSize(id, path, mode, blockSize);
  }

  // ---------- What the client sends ----------

  /** The bytes of a client's request: opcode 1, 2 or 6, the name, and for a transfer the mode and,
      unless it is the default, the block size; one zero more behind a block size, and two more
      where there is none. */
  lemma RequestBytes(d: OperationData)
    requires ClientData(d)
    ensures RequestPacket(d) ==
      [0, if d.id.Receive? then 1 else if d.id.Send? then 2 else 6] + Basename(d.path) + [0] +
      if d.id.RequestDelete? then [0, 0]
      else if d.blockSize == 512 then OCTET + [0, 0]
      else OCTET + [0] + BLKSIZE + [0] + FiveDigits(d.blockSize) + [0, 0]
  {
    hide Basename, FiveDigits, Fields, PacketSize;
    SpareBytes(d);
    FieldsOf(d);
    assert Zeros(1) == [0] && Zeros(2) == [0, 0];
    assert RequestPacket(d) == Fields(d) + if d.id.RequestDelete? then [0, 0] else [0];
  }

  lemma SpareBytes(d: OperationData)
    requires ClientData(d)
    ensures |RequestPacket(d)| == PacketSize(d) == |Fields(d)| + if d.id.RequestDelete? then 2 else 1
  {
    hide Basename, FiveDigits, Named, Moded, Marked, Sized;
    FieldLengths(d);
  }

  lemma FieldsOf(d: OperationData)
    requires ClientData(d)
    ensures Fields(d) ==
      [0, if d.id.Receive? then 1 else if d.id.Send? then 2 else 6] + Basename(d.path) + [0] +
      if d.id.RequestDelete? then []
      else if d.blockSize == 512 then OCTET + [0]
      else OCTET + [0] + BLKSIZE + [0] + FiveDigits(d.blockSize) + [0]
  {
    hide Basename, FiveDigits;
    var name, n := Basename(d.path), FiveDigits(d.blockSize);
    var front := [0, RequestOpcode(d.id) as byte] + name + [0];
    assert front + [] == front;
    assert front + OCTET + [0] == front + (OCTET + [0]);
    assert front + OCTET + [0] + BLKSIZE + [0] + n + [0] == front + (OCTET + [0] + BLKSIZE + [0] + n + [0]);
  }

  // ---------- Any peer ----------

  /** A string ends at the last byte received, if not before. */
  lemma {:induction false} EndsWithDatagram(b: seq<byte>, received: nat, at: nat)
    requires forall i :: received <= i < |b| ==> b[i] == 0
    ensures |StringAt(b, at)| <= if at < received then received - at else 0
    decreases |b| - at
  {
    if at < |b| && b[at] != 0 {
      EndsWithDatagram(b, received, at + 1);
    }
  }

  lemma OptionLength(option: seq<byte>)
    ensures SameIgnoringCase(option, BLKSIZE) ==> |option| == 7
  {
    assert |Lower(option)| == |option| && |Lower(BLKSIZE)| == 7;
  }

  /** The limits the parser puts on the place of the block size field never hide one that is there. */
  lemma LimitsNeverBite(b: seq<byte>, received: nat, mode: nat)
    requires forall i :: received <= i < |b| ==> b[i] == 0
    ensures var option := mode + |StringAt(b, 2 + mode)| + 1;
      ParsedBlockSize(b, received, mode) ==
        if SameIgnoringCase(StringAt(b, 2 + option), BLKSIZE)
        then Some(StringAt(b, 2 + option + |StringAt(b, 2 + option)| + 1))
        else None
  {
    hide StringAt, SameIgnoringCase;
    var option := mode + |StringAt(b, 2 + mode)| + 1;
    OptionLength(StringAt(b, 2 + option));
    EndsWithDatagram(b, received, 2 + option);
  }

  /** Whatever the datagram: the opcode says whether it is read, write or delete request, or none;
      the strings behind it, one after the other, are the name, cut at 255 characters, the mode, the
      option and its value, which is the block size if the option is "blksize" in any case. */
  lemma AnyDatagramIsParsed(datagram: seq<byte>)
    ensures var b := Buffered(datagram);
      var name := StringAt(b, 2);
      var path: cstring := STORAGE + name[..if |name| < 255 then |name| else 255];
      var mode := StringAt(b, 2 + |name| + 1);
      var option := StringAt(b, 2 + |name| + 1 + |mode| + 1);
      var value := StringAt(b, 2 + |name| + 1 + |mode| + 1 + |option| + 1);
      var blockSize := if SameIgnoringCase(option, BLKSIZE) then Some(value) else None;
      ParsedFrom(datagram) ==
        if b[0] != 0 then None
        else if b[1] == 1 then InitOperation(Send, path, Some(mode), blockSize)
        else if b[1] == 2 then InitOperation(Receive, path, Some(mode), blockSize)
        else if b[1] == 6 then InitOperation(HandleDelete, path, None, None)
        else None
  {
    hide StringAt, SameIgnoringCase, InitOperation, ParsedBlockSize;
    var b, received := Buffered(datagram), Min(|datagram|, BUFFER_SIZE);
    assert forall i :: received <= i < |b| ==> b[i] == 0;
    LimitsNeverBite(b, received, |StringAt(b, 2)| + 1);
  }

  /** A transfer request with one option, as any peer can write it. */
  function TransferRequest(opcode: byte, name: cstring, mode: cstring, option: cstring, value: cstring): seq<byte> {
    [0, opcode] + name + [0] + mode + [0] + option + [0] + value + [0]
  }

  lemma TransferRequestIsParsed(opcode: byte, name: cstring, mode: cstring, option: cstring, value: cstring)
    requires opcode == 1 || opcode == 2
    requires |name| <= 255 && |TransferRequest(opcode, name, mode, option, value)| <= BUFFER_SIZE
    ensures ParsedFrom(TransferRequest(opcode, name, mode, option, value)) ==
      InitOperation(if opcode == 1 then Send else Receive, STORAGE + name, Some(mode),
                    if SameIgnoringCase(option, BLKSIZE) then Some(value) else None)
  {
    hide StringAt, SameIgnoringCase, InitOperation, ParsedFrom;
    var request := TransferRequest(opcode, name, mode, option, value);
    var b := Buffered(request);
    AnyDatagramIsParsed(request);
    assert request <= b by {
      assert request[..|request|] == request;
    }
    var front := [0, opcode];
    FieldInRequest(b, request, front, name, mode + [0] + option + [0] + value + [0]);
    front := front + name + [0];
    FieldInRequest(b, request, front, mode, option + [0] + value + [0]);
    front := front + mode + [0];
    FieldInRequest(b, request, front, option, value + [0]);
    front := front + option + [0];
    FieldInRequest(b, request, front, value, []);
    assert name[..|name|] == name;
  }

  lemma FieldInRequest(b: seq<byte>, request: seq<byte>, before: seq<byte>, s: cstring, after: seq<byte>)
    requires request <= b && request == before + s + [0] + after
    ensures StringAt(b, |before|) == s
  {
    hide StringAt;
    assert before + s + [0] <= request;
    PrefixOfPrefix(before + s + [0], request, b);
    FieldIsRead(b, before, s);
  }

  lemma ValueOf1428()
    ensures Value([49, 52, 50, 56]) == 1428
  {
    assert Value([49]) == 1;
    assert [49, 52][..1] == [49] && Value([49, 52]) == 14;
    assert [49, 52, 50][..2] == [49, 52] && Value([49, 52, 50]) == 142;
    assert [49, 52, 50, 56][..3] == [49, 52, 50];
  }

  /** A read request with mode "OCTET" and option "BlkSize" of "1428" is served at 1428 bytes. */
  lemma MixedCaseIsRead(name: cstring)
    requires |name| <= 255
    ensures ParsedFrom(TransferRequest(1, name, [79, 67, 84, 69, 84], [66, 108, 107, 83, 105, 122, 101],
                                       [49, 52, 50, 56]))
      == Some(OperationData(Send, STORAGE + name, Octet, 1428))
  {
    hide ParsedFrom, Strtol, InitOperation, SameIgnoringCase;
    var mode: cstring, option: cstring := [79, 67, 84, 69, 84], [66, 108, 107, 83, 105, 122, 101];
    var size: cstring := [49, 52, 50, 56];
    TransferRequestIsParsed(1, name, mode, option, size);
    CaseIgnored(mode, OCTET);
    CaseIgnored(option, BLKSIZE);
    RefusedIff(Send, STORAGE + name, Some(mode), Some(size));
    NumberIsRead([], NoSign, size, []);
    assert [] + (SignText(NoSign) + (size + [])) == size;
    ValueOf1428();
  }
}
