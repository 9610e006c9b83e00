/** S_ROOM_LIST on the wire: the encoder of the room-list handler, SendRaw's framing and size
    guard, and a decoder for the documented format. */
module RoomListWire {
  import opened Bytes
  import opened Collections
  import opened Frames

  const S_ROOM_LIST := 16

  /** One entry of the list. `state` is the code of a RoomState: 0, 1 or 2. */
  type StateCode = x: byte | x < 3

  datatype RoomInfo = RoomInfo(name: seq<byte>, playerCount: int, maxPlayers: int, state: StateCode)

  // ----- encoding -----

  function EncodeRoom(r: RoomInfo): seq<byte> {
    U16Bytes(|r.name|) + r.name + U16Bytes(r.playerCount) + U16Bytes(r.maxPlayers) + [r.state]
  }

  function EncodeRooms(rooms: seq<RoomInfo>): seq<byte> {
    if rooms == [] then [] else EncodeRooms(rooms[..|rooms| - 1]) + EncodeRoom(rooms[|rooms| - 1])
  }

  function Encode(rooms: seq<RoomInfo>): seq<byte> {
    U16Bytes(|rooms|) + EncodeRooms(rooms)
  }

  method WriteU16(data: seq<byte>, v: int) returns (longer: seq<byte>)
    ensures longer == data + U16Bytes(v)
  {
    longer := data + [v % 256];
    longer := longer + [v / 256 % 256];
  }

  method WriteRoom(data: seq<byte>, r: RoomInfo) returns (longer: seq<byte>)
    ensures longer == data + EncodeRoom(r)
  {
    longer := WriteU16(data, |r.name|);
    for j := 0 to |r.name|
      invariant longer == data + U16Bytes(|r.name|) + r.name[..j]
    {
      longer := longer + [r.name[j]];
    }
    longer := WriteU16(longer, r.playerCount);
    longer := WriteU16(longer, r.maxPlayers);
    longer := longer + [r.state];
  }

  method EncodeRoomList(rooms: seq<RoomInfo>) returns (data: seq<byte>)
    ensures data == Encode(rooms)
  {
    data := WriteU16([], |rooms|);
    for i := 0 to |rooms|
      invariant data == U16Bytes(|rooms|) + EncodeRooms(rooms[..i])
    {
      data := WriteRoom(data, rooms[i]);
      assert rooms[..i + 1][..i] == rooms[..i];
    }
    assert rooms[..|rooms|] == rooms;
  }

  /** The frame SendRaw builds, or nothing when it would not fit a send context's buffer. */
  function RawFrame(packetId: int, data: seq<byte>): Option<Frame> {
    if HEADER_SIZE + |data| > MAX_BUF_SIZE then None
    else Some(U16Bytes(|data|) + U16Bytes(packetId) + data)
  }

  // ----- decoding -----

  function DecodeRoom(s: seq<byte>): Option<(RoomInfo, seq<byte>)> {
    if |s| < 2 then None
    else
      var n := U16(s[0], s[1]);
      if |s| < n + 7 || 3 <= s[n + 6] then None
      else Some((RoomInfo(s[2..n + 2], U16(s[n + 2], s[n + 3]), U16(s[n + 4], s[n + 5]), s[n + 6]), s[n + 7..]))
  }

  /** Decodes exactly `count` entries and leaves nothing over. */
  function DecodeRooms(count: nat, s: seq<byte>): Option<seq<RoomInfo>> {
    if count == 0 then (if s == [] then Some([]) else None)
    else
      match DecodeRoom(s)
      case None => None
      case Some((room, rest)) =>
        match DecodeRooms(count - 1, rest)
        case None => None
        case Some(rooms) => Some([room] + rooms)
  }

  function Decode(s: seq<byte>): Option<seq<RoomInfo>> {
    if |s| < 2 then None else DecodeRooms(U16(s[0], s[1]), s[2..])
  }

  // ----- layout -----

  /** Where the i-th entry begins. */
  function Offset(rooms: seq<RoomInfo>, i: nat): nat
    requires i <= |rooms|
  {
    if i == 0 then 2 else Offset(rooms, i - 1) + |rooms[i - 1].name| + 7
  }

  /** The entry of room r lies at o: length of the name, name, players, limit, state. */
  ghost predicate EntryAt(data: seq<byte>, o: nat, r: RoomInfo) {
    var n := |r.name|;
    && o + n + 7 <= |data|
    && LittleEndian(data[o..o + 2]) == n % U16_RANGE && data[o + 2..o + n + 2] == r.name
    && LittleEndian(data[o + n + 2..o + n + 4]) == r.playerCount % U16_RANGE
    && LittleEndian(data[o + n + 4..o + n + 6]) == r.maxPlayers % U16_RANGE && data[o + n + 6] == r.state
  }

  lemma LastEntry(data: seq<byte>, r: RoomInfo)
    ensures EntryAt(data + EncodeRoom(r), |data|, r)
  {
    var n, o, all := |r.name|, |data|, data + EncodeRoom(r);
    U16BytesAreLittleEndian(n);
    U16BytesAreLittleEndian(r.playerCount);
    U16BytesAreLittleEndian(r.maxPlayers);
    assert all[o..o + 2] == U16Bytes(n) && all[o + 2..o + n + 2] == r.name;
    assert all[o + n + 2..o + n + 4] == U16Bytes(r.playerCount) && all[o + n + 4..o + n + 6] == U16Bytes(r.maxPlayers);
  }

  lemma EntryStays(data: seq<byte>, more: seq<byte>, o: nat, r: RoomInfo)
    requires EntryAt(data, o, r)
    ensures EntryAt(data + more, o, r)
  {
    var n, all := |r.name|, data + more;
    assert all[o..o + 2] == data[o..o + 2] && all[o + 2..o + n + 2] == data[o + 2..o + n + 2];
    assert all[o + n + 2..o + n + 4] == data[o + n + 2..o + n + 4] && all[o + n + 4..o + n + 6] == data[o + n + 4..o + n + 6];
  }

  lemma {:induction false} OffsetOfFewer(rooms: seq<RoomInfo>, n: nat, i: nat)
    requires i <= n <= |rooms|
    ensures Offset(rooms[..n], i) == Offset(rooms, i)
  {
    if i > 0 {
      OffsetOfFewer(rooms, n, i - 1);
    }
  }

  lemma {:induction false} SizeLaidOut(rooms: seq<RoomInfo>)
    ensures 2 + |EncodeRooms(rooms)| == Offset(rooms, |rooms|)
  {
    if rooms != [] {
      SizeLaidOut(rooms[..|rooms| - 1]);
      OffsetOfFewer(rooms, |rooms| - 1, |rooms| - 1);
    }
  }

  lemma {:induction false} EntryLaidOut(rooms: seq<RoomInfo>, count: seq<byte>, i: nat)
    requires |count| == 2 && i < |rooms|
    ensures EntryAt(count + EncodeRooms(rooms), Offset(rooms, i), rooms[i])
  {
    var n := |rooms| - 1;
    var before, r := count + EncodeRooms(rooms[..n]), rooms[n];
    assert count + EncodeRooms(rooms) == before + EncodeRoom(r);
    OffsetOfFewer(rooms, n, i);
    if i == n {
      SizeLaidOut(rooms[..n]);
      LastEntry(before, r);
    } else {
      EntryLaidOut(rooms[..n], count, i);
      EntryStays(before, EncodeRoom(r), Offset(rooms, i), rooms[i]);
    }
  }

  /** The documented layout: the number of rooms, then the entries one after the other, all
      numbers little-endian, and nothing else. */
  lemma Layout(rooms: seq<RoomInfo>)
    ensures var data := Encode(rooms);
      && |data| == Offset(rooms, |rooms|) && LittleEndian(data[..2]) == |rooms| % U16_RANGE
      && forall i :: 0 <= i < |rooms| ==> EntryAt(data, Offset(rooms, i), rooms[i])
  {
    var count := U16Bytes(|rooms|);
    U16BytesAreLittleEndian(|rooms|);
    SizeLaidOut(rooms);
    assert Encode(rooms)[..2] == count;
    forall i | 0 <= i < |rooms| ensures EntryAt(count + EncodeRooms(rooms), Offset(rooms, i), rooms[i]) {
      EntryLaidOut(rooms, count, i);
    }
  }

  // ----- round trip -----

  /** What the two count fields of an entry come out as. */
  function Wrap(r: RoomInfo): RoomInfo {
    r.(playerCount := r.playerCount % U16_RANGE, maxPlayers := r.maxPlayers % U16_RANGE)
  }

  function WrapAll(rooms: seq<RoomInfo>): seq<RoomInfo> {
    seq(|rooms|, i requires 0 <= i < |rooms| => Wrap(rooms[i]))
  }

  predicate FitsU16(r: RoomInfo) {
    0 <= r.playerCount < U16_RANGE && 0 <= r.maxPlayers < U16_RANGE
  }

  lemma DecodesParts(size: seq<byte>, name: seq<byte>, players: seq<byte>, max: seq<byte>, state: StateCode, rest: seq<byte>)
    requires |size| == |players| == |max| == 2 && U16(size[0], size[1]) == |name|
    ensures DecodeRoom(size + name + players + max + [state] + rest) ==
      Some((RoomInfo(name, U16(players[0], players[1]), U16(max[0], max[1]), state), rest))
  {
    var n, s := |name|, size + name + players + max + [state] + rest;
    assert s[2..n + 2] == name && s[n + 7..] == rest;
  }

  lemma DecodesRoom(r: RoomInfo, rest: seq<byte>)
    requires |r.name| < U16_RANGE
    ensures DecodeRoom(EncodeRoom(r) + rest) == Some((Wrap(r), rest))
  {
    DecodesParts(U16Bytes(|r.name|), r.name, U16Bytes(r.playerCount), U16Bytes(r.maxPlayers), r.state, rest);
  }

  lemma {:induction false} EncodeRoomsCons(rooms: seq<RoomInfo>)
    requires rooms != []
    ensures EncodeRooms(rooms) == EncodeRoom(rooms[0]) + EncodeRooms(rooms[1..])
  {
    var n := |rooms| - 1;
    if n > 0 {
      EncodeRoomsCons(rooms[..n]);
      assert rooms[..n][1..] == rooms[1..][..n - 1];
    }
  }

  lemma {:induction false} DecodesRooms(rooms: seq<RoomInfo>)
    requires forall r :: r in rooms ==> |r.name| < U16_RANGE
    ensures DecodeRooms(|rooms|, EncodeRooms(rooms)) == Some(WrapAll(rooms))
  {
    if rooms != [] {
      EncodeRoomsCons(rooms);
      DecodesRoom(rooms[0], EncodeRooms(rooms[1..]));
      DecodesRooms(rooms[1..]);
      assert WrapAll(rooms) == [Wrap(rooms[0])] + WrapAll(rooms[1..]);
    }
  }

  /** Each entry takes at least seven bytes, so what fits a packet has small counts. */
  lemma {:induction false} EncodedSizes(rooms: seq<RoomInfo>)
    ensures 7 * |rooms| <= |EncodeRooms(rooms)|
    ensures forall r :: r in rooms ==> |r.name| + 7 <= |EncodeRooms(rooms)|
  {
    if rooms != [] {
      EncodedSizes(rooms[..|rooms| - 1]);
      assert forall r :: r in rooms ==> r in rooms[..|rooms| - 1] || r == rooms[|rooms| - 1];
    }
  }

  /** Whatever SendRaw sends is one whole frame, with the id and the payload it was given. */
  lemma RawFrameIsOneFrame(packetId: int, data: seq<byte>)
    requires RawFrame(packetId, data).Some? && 0 <= packetId < U16_RANGE
    ensures var f := RawFrame(packetId, data).value;
      && IsFrame(f) && Parse(f) == Parsed([f], [])
      && U16(f[2], f[3]) == packetId && f[HEADER_SIZE..] == data
  {
    var f := RawFrame(packetId, data).value;
    var size, id := U16Bytes(|data|), U16Bytes(packetId);
    assert f[0] == size[0] && f[1] == size[1] && f[2] == id[0] && f[3] == id[1];
    assert f[HEADER_SIZE..] == data;
    assert Flatten([f]) + [] == f;
    FramingIsParse([f], []);
  }

  /** The header of a frame: the size of the payload, then the packet id, both little-endian. */
  lemma RawFrameHeader(packetId: int, data: seq<byte>)
    requires RawFrame(packetId, data).Some?
    ensures var f := RawFrame(packetId, data).value;
      |f| == 4 + |data| && LittleEndian(f[..2]) == |data| && LittleEndian(f[2..4]) == packetId % U16_RANGE && f[4..] == data
  {
    var f := RawFrame(packetId, data).value;
    assert f[..2] == U16Bytes(|data|) && f[2..4] == U16Bytes(packetId);
    U16BytesAreLittleEndian(|data|);
    U16BytesAreLittleEndian(packetId);
  }

  lemma WrapAllIdentity(rooms: seq<RoomInfo>)
    ensures WrapAll(rooms) == rooms <==> forall i :: 0 <= i < |rooms| ==> FitsU16(rooms[i])
  {
    forall i | 0 <= i < |rooms| ensures WrapAll(rooms)[i] == rooms[i] <==> FitsU16(rooms[i]) {
      assert Wrap(rooms[i]) == rooms[i] <==> FitsU16(rooms[i]);
    }
  }

  lemma DecodesCounted(count: seq<byte>, body: seq<byte>)
    requires |count| == 2
    ensures Decode(count + body) == DecodeRooms(U16(count[0], count[1]), body)
  {
    assert (count + body)[2..] == body;
  }

  lemma DecodesList(rooms: seq<RoomInfo>, count: seq<byte>)
    requires |count| == 2 && U16(count[0], count[1]) == |rooms| && forall r :: r in rooms ==> |r.name| < U16_RANGE
    ensures Decode(count + EncodeRooms(rooms)) == Some(WrapAll(rooms))
  {
    DecodesCounted(count, EncodeRooms(rooms));
    DecodesRooms(rooms);
  }

  lemma CountFits(n: nat, count: seq<byte>)
    requires n < U16_RANGE && count == U16Bytes(n)
    ensures U16(count[0], count[1]) == n
  {
  }

  lemma EncodedDecodes(rooms: seq<RoomInfo>)
    requires |EncodeRooms(rooms)| < MAX_BUF_SIZE
    ensures Decode(U16Bytes(|rooms|) + EncodeRooms(rooms)) == Some(WrapAll(rooms))
  {
    EncodedSizes(rooms);
    CountFits(|rooms|, U16Bytes(|rooms|));
    DecodesList(rooms, U16Bytes(|rooms|));
  }

  /** A list that is too long for a packet is not sent. Every other list goes out as exactly one
      frame, whose payload decodes to the list with its player counts reduced modulo 65536, and to
      the list itself exactly when those counts fit; no entry count, name length or packet size is
      ever truncated. */
  lemma RoomListRoundTrip(rooms: seq<RoomInfo>)
    ensures match RawFrame(S_ROOM_LIST, Encode(rooms))
      case None => 4 + |Encode(rooms)| > 4096
      case Some(f) =>
        && IsFrame(f) && Parse(f) == Parsed([f], []) && 4 + |Encode(rooms)| == |f| <= 4096 && U16(f[2], f[3]) == 16
        && Decode(f[HEADER_SIZE..]) == Some(WrapAll(rooms))
        && (Decode(f[HEADER_SIZE..]) == Some(rooms) <==> forall i :: 0 <= i < |rooms| ==> FitsU16(rooms[i]))
  {
    var data := Encode(rooms);
    if RawFrame(S_ROOM_LIST, data).Some? {
      RawFrameIsOneFrame(S_ROOM_LIST, data);
      assert |data| == 2 + |EncodeRooms(rooms)|;
      EncodedDecodes(rooms);
      WrapAllIdentity(rooms);
    }
  }

  /** The format is canonical: a payload that decodes at all is the encoding of what it decodes
      to. With RoomListRoundTrip, encoder and decoder are inverse to each other. */
  lemma {:induction false} DecodedRoomsEncode(count: nat, s: seq<byte>)
    requires DecodeRooms(count, s).Some?
    ensures |DecodeRooms(count, s).value| == count && EncodeRooms(DecodeRooms(count, s).value) == s
    decreases count
  {
    if count > 0 {
      var (room, rest) := DecodeRoom(s).value;
      var rooms := DecodeRooms(count - 1, rest).value;
      DecodedRoomsEncode(count - 1, rest);
      DecodedRoomEncodes(s);
      EncodeRoomsCons([room] + rooms);
      assert ([room] + rooms)[1..] == rooms;
    }
  }

  lemma U16BytesOf(lo: byte, hi: byte)
    ensures U16Bytes(U16(lo, hi)) == [lo, hi]
  {
  }

  lemma DecodedRoomEncodes(s: seq<byte>)
    requires DecodeRoom(s).Some?
    ensures s == EncodeRoom(DecodeRoom(s).value.0) + DecodeRoom(s).value.1
  {
    var n := U16(s[0], s[1]);
    U16BytesOf(s[0], s[1]);
    U16BytesOf(s[n + 2], s[n + 3]);
    U16BytesOf(s[n + 4], s[n + 5]);
    var r := DecodeRoom(s).value.0;
    assert U16Bytes(|r.name|) == s[..2];
    assert U16Bytes(r.playerCount) == s[n + 2..n + 4];
    assert U16Bytes(r.maxPlayers) == s[n + 4..n + 6];
    assert s == s[..2] + s[2..n + 2] + s[n + 2..n + 4] + s[n + 4..n + 6] + [s[n + 6]] + s[n + 7..];
  }

  lemma DecodedEncodes(s: seq<byte>)
    requires Decode(s).Some?
    ensures Encode(Decode(s).value) == s
  {
    DecodedRoomsEncode(U16(s[0], s[1]), s[2..]);
    U16BytesOf(s[0], s[1]);
    assert s == s[..2] + s[2..];
  }
}
