/** Where the paths of requests lead: to files in the server's storage directory or out of it. */
module Paths {
  import opened Common
  import opened Packets
  import opened Requests

  /** "." and ".." */
  const DOT: cstring := [46]
  const DOT_DOT: cstring := [46, 46]

  /** The parts of a path between its slashes. */
  function Parts(path: cstring): (parts: seq<cstring>)
    ensures parts != []
  {
    if path == [] then [[]]
    else
      var rest := Parts(path[1..]);
      if path[0] == SLASH then [[]] + rest else [[path[0]] + rest[0]] + rest[1..]
  }

  /** A part that leads nowhere: the directory itself. */
  predicate IsIdle(part: cstring) {
    part == [] || part == DOT
  }

  /** Following a path by its parts, from the directory `at` below some root, whose own parts `at`
      holds; nothing if the path leads out of that root, be it to come back later. */
  function Follow(at: seq<cstring>, parts: seq<cstring>): Option<seq<cstring>>
    decreases |parts|
  {
    if parts == [] then Some(at)
    else if IsIdle(parts[0]) then Follow(at, parts[1..])
    else if parts[0] != DOT_DOT then Follow(at + [parts[0]], parts[1..])
    else if at == [] then None
    else Follow(at[..|at| - 1], parts[1..])
  }

  /** The place in the storage directory that a path leads to. */
  function Place(path: cstring): Option<seq<cstring>>
    requires STORAGE <= path
  {
    Follow([], Parts(path[|STORAGE|..]))
  }

  predicate InStorage(path: cstring) {
    STORAGE <= path && Place(path).Some?
  }

  /** How many parts are ".."... */
  function Ups(parts: seq<cstring>): nat {
    if parts == [] then 0 else (if parts[0] == [46, 46] then 1 else 0) + Ups(parts[1..])
  }

  /** ... and how many are neither that nor "." nor empty. */
  function Downs(parts: seq<cstring>): nat {
    if parts == [] then 0 else
      (if parts[0] == [46, 46] || parts[0] == [46] || parts[0] == [] then 0 else 1) + Downs(parts[1..])
  }

  /** Up to no point does the path go up more often than down, from `depth` levels below the root. */
  predicate StaysBelow(depth: nat, parts: seq<cstring>) {
    forall k :: 0 <= k <= |parts| ==> Ups(parts[..k]) <= depth + Downs(parts[..k])
  }

  lemma PrefixCounts(parts: seq<cstring>, k: nat)
    requires 1 <= k <= |parts|
    ensures Ups(parts[..k]) == Ups(parts[1..][..k - 1]) + if parts[0] == DOT_DOT then 1 else 0
    ensures Downs(parts[..k]) == Downs(parts[1..][..k - 1]) + if parts[0] == DOT_DOT || IsIdle(parts[0]) then 0 else 1
  {
    assert parts[..k][0] == parts[0] && parts[..k][1..] == parts[1..][..k - 1];
  }

  /** Staying below from here is staying below after the first part. */
  lemma StaysBelowRest(depth: nat, next: nat, parts: seq<cstring>)
    requires parts != []
    requires next == if IsIdle(parts[0]) then depth else if parts[0] == DOT_DOT then depth - 1 else depth + 1
    ensures StaysBelow(depth, parts) <==> StaysBelow(next, parts[1..])
  {
    var rest := parts[1..];
    if StaysBelow(depth, parts) {
      forall k | 0 <= k <= |rest| ensures Ups(rest[..k]) <= next + Downs(rest[..k]) {
        PrefixCounts(parts, k + 1);
      }
    }
    if StaysBelow(next, rest) {
      forall k | 0 <= k <= |parts| ensures Ups(parts[..k]) <= depth + Downs(parts[..k]) {
        if k > 0 {
          PrefixCounts(parts, k);
        }
      }
    }
  }

  lemma {:induction false} FollowIff(at: seq<cstring>, parts: seq<cstring>)
    ensures Follow(at, parts).Some? <==> StaysBelow(|at|, parts)
    decreases |parts|
  {
    if parts != [] {
      var p := parts[0];
      if p == DOT_DOT && at == [] {
        StraightOut(parts);
      } else {
        var at' := if IsIdle(p) then at else if p == DOT_DOT then at[..|at| - 1] else at + [p];
        FollowIff(at', parts[1..]);
        StaysBelowRest(|at|, |at'|, parts);
      }
    } else {
      assert parts[..0] == [];
    }
  }

  lemma StraightOut(parts: seq<cstring>)
    requires parts != [] && parts[0] == DOT_DOT
    ensures !StaysBelow(0, parts)
  {
    PrefixCounts(parts, 1);
  }

  lemma {:induction false} OnePart(name: cstring)
    requires SLASH !in name
    ensures Parts(name) == [name]
  {
    if name != [] {
      OnePart(name[1..]);
      assert [name[0]] + name[1..] == name;
    }
  }

  lemma {:induction false} BeforeSlash(first: cstring, rest: cstring)
    requires SLASH !in first
    ensures Parts(first + [SLASH] + rest) == [first] + Parts(rest)
  {
    var path := first + [SLASH] + rest;
    if first == [] {
      assert path[1..] == rest;
    } else {
      BeforeSlash(first[1..], rest);
      assert path[1..] == first[1..] + [SLASH] + rest;
      assert [first[0]] + first[1..] == first;
    }
  }

  /** The place of a name in the storage directory. */
  lemma PlaceOfName(name: cstring)
    ensures Place(STORAGE + name) == Follow([], Parts(name))
  {
    assert (STORAGE + name)[|STORAGE|..] == name;
  }

  /** A name without a slash leads to its own entry of the directory, to the directory itself, or,
      exactly if it is "..", out of it. */
  lemma PlaceOfOnePart(name: cstring)
    requires SLASH !in name
    ensures Place(STORAGE + name)
         == if name == DOT_DOT then None else if IsIdle(name) then Some([]) else Some([name])
  {
    PlaceOfName(name);
    OnePart(name);
    assert [name][1..] == [] && [] + [name] == [name];
  }

  // ---------- Any request ----------

  /** Whatever the datagram, the path the parser makes of it has the prefix "storage/"; it stays in
      that directory if and only if the name never goes up more often than it has gone down, which
      for a name without a slash means that it is not "..". */
  lemma ParsedInStorageIff(b: seq<byte>, received: int)
    requires 2 <= |b| && Parsed(b, received).Some?
    ensures var path, name := Parsed(b, received).value.path, NameField(b);
      && STORAGE <= path
      && (InStorage(path) <==> StaysBelow(0, Parts(name)))
      && (SLASH !in name ==> (InStorage(path) <==> name != DOT_DOT))
  {
    hide Parsed, NameField, Follow, StaysBelow, Parts;
    ParsedPath(b, received);
    var name := NameField(b);
    PlaceOfName(name);
    FollowIff([], Parts(name));
    if SLASH !in name {
      PlaceOfOnePart(name);
    }
  }

  /** A request for a transmission at the default block size, as any peer can write it. */
  function ReadRequest(name: cstring): seq<byte> {
    [0, RRQ as byte] + name + [0] + OCTET + [0]
  }

  lemma ReadRequestIsParsed(name: cstring)
    requires |name| <= FILENAME_MAX
    ensures ParsedFrom(ReadRequest(name))
         == Some(OperationData(Send, StoragePath(name), Octet, BLKSIZE_DEFAULT))
  {
    hide Parsed, StringAt, ParsedBlockSize, SameIgnoringCase;
    var request := ReadRequest(name);
    var b, opcode: seq<byte> := Buffered(request), [0, RRQ as byte];
    assert request[..|request|] == request;
    assert opcode + name + [0] <= b;
    FieldIsRead(b, opcode, name);
    assert opcode + name + [0] + OCTET + [0] <= b;
    FieldIsRead(b, opcode + name + [0], OCTET);
    NothingThere(b, |name| + 9);
    NothingIsNotTheOption();
    NoBlockSize(b, |name|);
    ParsedTransfer(b, |request|, name, OCTET, None, Send);
    TransferAccepted(Send, StoragePath(name), BLKSIZE_DEFAULT);
  }

  lemma NoBlockSize(b: seq<byte>, n: nat)
    requires StringAt(b, n + 3) == OCTET && StringAt(b, n + 9) == []
    ensures ParsedBlockSize(b, n + 9, n + 1) == None
  {
    hide StringAt, SameIgnoringCase;
    NothingIsNotTheOption();
  }

  /** The name "../x" leads out of the storage directory. */
  lemma StorageIsLeft()
    ensures var request := ReadRequest(DOT_DOT + [SLASH, 120]);
      && ParsedFrom(request) == Some(OperationData(Send, STORAGE + DOT_DOT + [SLASH, 120], Octet, BLKSIZE_DEFAULT))
      && !InStorage(ParsedFrom(request).value.path)
  {
    hide Parsed, Buffered;
    var name: cstring := DOT_DOT + [SLASH, 120];
    assert STORAGE + name == STORAGE + DOT_DOT + [SLASH, 120];
    ReadRequestIsParsed(name);
    PlaceOfName(name);
    BeforeSlash(DOT_DOT, [120]);
    assert DOT_DOT + [SLASH] + [120] == name;
  }

  // ---------- The program's own client ----------

  lemma {:induction false} StringBeginsWith(b: seq<byte>, at: nat, s: cstring)
    requires at + |s| <= |b| && b[at..at + |s|] == s
    ensures s <= StringAt(b, at)
    decreases |s|
  {
    if s != [] {
      assert b[at] == s[0];
      assert b[at + 1..at + |s|] == s[1..];
      StringBeginsWith(b, at + 1, s[1..]);
    }
  }

  /** A name too long for the server is cut off, wherever its packet ends. */
  lemma LongNameIsCut(packet: seq<byte>, opcode: byte, name: cstring)
    requires [0, opcode] + name <= packet && |name| > FILENAME_MAX
    ensures NameField(Buffered(packet)) == name[..FILENAME_MAX]
  {
    hide StringAt;
    var b, cut: cstring := Buffered(packet), name[..FILENAME_MAX];
    var front := [0, opcode] + name;
    assert b[2..2 + |cut|] == packet[2..2 + |cut|] == front[2..2 + |cut|] == cut;
    StringBeginsWith(b, 2, cut);
  }

  lemma NameIsSent(d: OperationData)
    ensures [0, RequestOpcode(d.id) as byte] + Basename(d.path) <= RequestPacket(d)
  {
    hide Basename, FiveDigits, ModeString, Moded, Marked, Sized, Fields, PacketSize;
    LongerFields(d);
    PrefixOfPrefix(Named(d), Fields(d), RequestPacket(d));
    PrefixOfPrefix([0, RequestOpcode(d.id) as byte] + Basename(d.path), Named(d), RequestPacket(d));
  }

  /** What a client's request names, at the server. */
  function ServedName(d: OperationData): cstring {
    var name := Basename(d.path);
    name[..Min(|name|, FILENAME_MAX)]
  }

  lemma ServedNameIsRead(d: OperationData)
    requires ClientData(d)
    ensures AtServer(d).Some? ==> AtServer(d).value.path == STORAGE + ServedName(d)
  {
    hide Parsed, RequestPacket, Buffered, Basename, NameField;
    var name := Basename(d.path);
    if |name| > FILENAME_MAX {
      NameIsSent(d);
      LongNameIsCut(RequestPacket(d), RequestOpcode(d.id) as byte, name);
      ParsedPath(Buffered(RequestPacket(d)), Min(|RequestPacket(d)|, BUFFER_SIZE));
    } else {
      RequestRoundTrip(d);
      assert name[..|name|] == name;
    }
  }

  /** A request of the program's own client, whatever path its user has given, leads to the entry
      of the storage directory with the name behind the last slash, cut off at 255 characters, unless
      that name is ".."; then, and only then, it leads out of it. For names of 512 characters and more
      the end of the server's buffer is taken for the end of the name. */
  lemma ClientStaysInStorageIff(d: OperationData)
    requires ClientData(d)
    ensures AtServer(d).Some? ==>
      var path, name := AtServer(d).value.path, ServedName(d);
      && path == STORAGE + name
      && (InStorage(path) <==> name != DOT_DOT)
      && (InStorage(path) ==> Place(path) == Some(if IsIdle(name) then [] else [name]))
  {
    hide AtServer, Basename, Place;
    ServedNameIsRead(d);
    PlaceOfOnePart(ServedName(d));
  }

  lemma WholeName(path: cstring)
    requires SLASH !in path
    ensures Basename(path) == path
  {
    hide Basename;
    var name := Basename(path);
    assert path[|path| - |name|..] == name;
  }

  /** A client's read of ".." is parsed to a transmission of "storage/..". */
  lemma ClientLeavesStorage()
    ensures var d := OperationData(Receive, DOT_DOT, Octet, BLKSIZE_DEFAULT);
      && AtServer(d) == Some(OperationData(Send, STORAGE + DOT_DOT, Octet, BLKSIZE_DEFAULT))
      && !InStorage(AtServer(d).value.path)
  {
    hide AtServer, Place, Basename;
    var d := OperationData(Receive, DOT_DOT, Octet, BLKSIZE_DEFAULT);
    WholeName(DOT_DOT);
    RequestRoundTrip(d);
    PlaceOfOnePart(DOT_DOT);
  }
}
