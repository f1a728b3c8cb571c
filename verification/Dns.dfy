/** Encoding of mDNS packets: each `Append` and `Build` method writes into a growing byte vector and
    is tied to a function giving the bytes written. */
module Dns {
  import opened Bytes
  import opened Time
  import opened Names
  import opened Multiaddrs

  const MAX_TXT_VALUE_LENGTH := 255
  const MAX_TXT_RECORD_SIZE := MAX_TXT_VALUE_LENGTH + 45
  const MAX_PACKET_SIZE := 9000 - 68
  const MAX_RECORDS_PER_PACKET := (MAX_PACKET_SIZE - 100) / MAX_TXT_RECORD_SIZE
  const MAX_ADDRESSES := 65535

  const TYPE_PTR: u16 := 12
  const TYPE_TXT: u16 := 16

  const SPACE: byte := 32
  const QUOTE: byte := 34
  const BACKSLASH: byte := 92

  datatype Result<+T, +E> = Ok(value: T) | Err(error: E)

  datatype MdnsResponseError = TxtRecordTooLong | NonAsciiMultiaddr

  class ByteVec {
    var data: Bytes

    constructor ()
      ensures data == []
    {
      data := [];
    }

    method Push(b: byte)
      modifies this
      ensures data == old(data) + [b]
    {
      data := data + [b];
    }

    method ExtendFromSlice(bytes: Bytes)
      modifies this
      ensures data == old(data) + bytes
    {
      data := data + bytes;
    }
  }

  // ---------------------------------------------------------------- what is written

  /** Whole seconds, rounded up and capped at the largest u32. */
  function DurationToSecs(d: Duration): (secs: u32)
    ensures secs == 0xFFFF_FFFF || d <= secs * NANOS_PER_SEC < d + NANOS_PER_SEC
    ensures secs == 0xFFFF_FFFF ==> (secs - 1) * NANOS_PER_SEC < d
  {
    Min(Min(d / NANOS_PER_SEC + (if d % NANOS_PER_SEC > 0 then 1 else 0), 0xFFFF_FFFF_FFFF_FFFF), 0xFFFF_FFFF)
  }

  function EscapedByte(b: byte): Bytes {
    if b == BACKSLASH || b == QUOTE then [BACKSLASH, b] else [b]
  }

  function Escape(text: Bytes): Bytes {
    if text == [] then [] else EscapedByte(text[0]) + Escape(text[1..])
  }

  function CharacterString(text: Bytes): Bytes {
    if SPACE !in text then text else [QUOTE] + Escape(text) + [QUOTE]
  }

  /** The values `append_txt_record` does not refuse. */
  predicate Accepts(value: Bytes) {
    |value| <= MAX_TXT_VALUE_LENGTH && IsAscii(value)
  }

  /** A 16-bit length, cut as the program's casts cut it, and the bytes. */
  function LengthPrefixed(bytes: Bytes): Bytes {
    U16(CastU16(|bytes|)) + bytes
  }

  /** A resource record up to its data: the encoded name, type, class and time to live. */
  function RecordPrefix(name: Bytes, rtype: u16, rclass: u16, ttl: u32): Bytes {
    name + U16(rtype) + U16(rclass) + U32(ttl)
  }

  function RecordBytes(name: Bytes, rtype: u16, rclass: u16, ttl: u32, data: Bytes): Bytes {
    RecordPrefix(name, rtype, rclass, ttl) + LengthPrefixed(data)
  }

  /** The length octet counts the unquoted value, while the record's data length counts all of this. */
  function TxtData(value: Bytes): Bytes {
    [CastU8(|value|)] + CharacterString(value)
  }

  function TxtRecord(name: Bytes, ttl: u32, value: Bytes): Bytes {
    RecordBytes(name, TYPE_TXT, 0x8001, ttl, TxtData(value))
  }

  function TxtValue(addr: Multiaddr, peer: PeerId): Bytes {
    Ascii("dnsaddr=") + Print(addr) + Ascii("/p2p/") + peer
  }

  /** Alphanumeric, 32 to 63 characters: what `random_string` may return for a peer name. */
  predicate IsPeerName(name: Bytes) {
    32 <= |name| < 64
    && forall i :: 0 <= i < |name| ==> 48 <= name[i] <= 57 || 65 <= name[i] <= 90 || 97 <= name[i] <= 122
  }

  lemma PeerNameIsOneLabel(name: Bytes)
    requires IsPeerName(name)
    ensures ValidName(name) && LabelsOf(name) == [name]
    ensures EncodeName(name) == [|name| as byte] + name + [0]
  {
    SplitOfPiece(name, DOT);
    assert [name][1..] == [];
    assert EncodeLabels([name]) == [|name| as byte] + name + EncodeLabels([]);
  }

  /** What one response carries besides its records. */
  datatype Sender = Sender(id: u16, peer: PeerId, ttl: u32, serviceName: Bytes, peerName: Bytes) {
    predicate Valid() {
      ValidName(serviceName) && ValidName(peerName) && IsPeerName(peerName)
    }

    function Record(addr: Multiaddr): Bytes
      requires Valid()
    {
      TxtRecord(EncodeName(peerName), ttl, TxtValue(addr, peer))
    }

    function Records(addrs: seq<Multiaddr>): seq<Bytes>
      requires Valid()
    {
      seq(|addrs|, i requires 0 <= i < |addrs| => Record(addrs[i]))
    }

    /** The addresses that make it into records, in order. */
    function Accepted(addrs: seq<Multiaddr>): seq<Multiaddr> {
      if addrs == [] then []
      else
        var last := addrs[|addrs| - 1];
        Accepted(addrs[..|addrs| - 1]) + (if Accepts(TxtValue(last, peer)) then [last] else [])
    }

    function Packet(addrs: seq<Multiaddr>): Bytes
      requires Valid()
    {
      ResponsePacket(id, EncodeName(peerName), Records(addrs), ttl, serviceName)
    }

    /** The addresses a response sends: the accepted ones among the first 65535. */
    function Sendable(addrs: seq<Multiaddr>): seq<Multiaddr> {
      Accepted(addrs[..Min(|addrs|, MAX_ADDRESSES)])
    }

    /** One packet for every 29 addresses. */
    function PacketsOf(sendable: seq<Multiaddr>): (packets: seq<Bytes>)
      requires Valid()
    {
      seq(|Chunks(sendable)|, i requires 0 <= i < |Chunks(sendable)| => Packet(Chunks(sendable)[i]))
    }

    function Packets(addrs: seq<Multiaddr>): seq<Bytes>
      requires Valid()
    {
      PacketsOf(Sendable(addrs))
    }
  }

  function HeaderBytes(id: u16, flags: u16, qd: u16, an: u16, ns: u16, ar: u16): Bytes {
    U16(id) + U16(flags) + U16(qd) + U16(an) + U16(ns) + U16(ar)
  }

  function ResponsePacket(id: u16, peerName: Bytes, records: seq<Bytes>, ttl: u32, serviceName: Bytes): Bytes
    requires ValidName(serviceName)
  {
    HeaderBytes(id, 0x8400, 0, 1, 0, CastU16(|records|))
    + (RecordBytes(EncodeName(serviceName), TYPE_PTR, 0x0001, ttl, peerName) + Flatten(records))
  }

  function QueryPacket(id: u16, serviceName: Bytes): Bytes
    requires ValidName(serviceName)
  {
    HeaderBytes(id, 0, 1, 0, 0, 0) + EncodeName(serviceName) + U16(0x0c) + U16(0x01)
  }

  function ServiceDiscoveryPacket(id: u16, ttl: u32, serviceName: Bytes, metaQueryService: Bytes): Bytes
    requires ValidName(serviceName) && ValidName(metaQueryService)
  {
    HeaderBytes(id, 0x8400, 0, 1, 0, 0)
    + RecordBytes(EncodeName(metaQueryService), TYPE_PTR, 0x8001, ttl, EncodeName(serviceName))
  }

  // ---------------------------------------------------------------- quoting

  /** Reads a quoted string from behind its first quote to the quote that closes it, as section 5.1 of RFC 1035
      has it: what follows a backslash stands for itself. */
  function ReadQuoted(b: Bytes): Parsed<Bytes> {
    if b == [] then Malformed
    else if b[0] == QUOTE then Parsed([], b[1..])
    else if b[0] == BACKSLASH then
      if |b| == 1 then Malformed
      else
        var (text, rest) :- ReadQuoted(b[2..]);
        Parsed([b[1]] + text, rest)
    else
      var (text, rest) :- ReadQuoted(b[1..]);
      Parsed([b[0]] + text, rest)
  }

  /** Escaping keeps a quoted string readable: whoever undoes it has the text back, and knows where it ends. */
  lemma {:induction false} QuotedReadsBack(text: Bytes, tail: Bytes)
    ensures ReadQuoted(Escape(text) + ([QUOTE] + tail)) == Parsed(text, tail)
  {
    if text == [] {
      assert Escape(text) + ([QUOTE] + tail) == [QUOTE] + tail && ([QUOTE] + tail)[1..] == tail;
    } else {
      var rest := Escape(text[1..]) + ([QUOTE] + tail);
      QuotedReadsBack(text[1..], tail);
      Assoc(EscapedByte(text[0]), Escape(text[1..]), [QUOTE] + tail);
      var b := EscapedByte(text[0]) + rest;
      assert b[|EscapedByte(text[0])|..] == rest;
      assert text == [text[0]] + text[1..];
    }
  }

  // ---------------------------------------------------------------- chunking

  /** Pieces of 29 while more than 29 are left, then the rest as one last piece. */
  function Chunks(addrs: seq<Multiaddr>): seq<seq<Multiaddr>> {
    if |addrs| <= MAX_RECORDS_PER_PACKET then [addrs]
    else [addrs[..MAX_RECORDS_PER_PACKET]] + Chunks(addrs[MAX_RECORDS_PER_PACKET..])
  }

  ghost predicate AllFull(pieces: seq<seq<Multiaddr>>) {
    forall k :: 0 <= k < |pieces| ==> |pieces[k]| == MAX_RECORDS_PER_PACKET
  }

  /** Packets needed for `n` records: ceil(n / 29), but one packet even for none. */
  function PacketCount(n: nat): nat {
    Max(1, (n + 28) / 29)
  }

  lemma {:induction false} ChunksCount(addrs: seq<Multiaddr>)
    ensures |Chunks(addrs)| == PacketCount(|addrs|)
  {
    if |addrs| > MAX_RECORDS_PER_PACKET {
      ChunksCount(addrs[MAX_RECORDS_PER_PACKET..]);
    }
  }

  /** All pieces but the last are full; the last is empty only when everything is. */
  lemma {:induction false} ChunksSizes(addrs: seq<Multiaddr>, i: nat)
    requires i < |Chunks(addrs)|
    ensures i < |Chunks(addrs)| - 1 ==> |Chunks(addrs)[i]| == MAX_RECORDS_PER_PACKET
    ensures |Chunks(addrs)[i]| <= MAX_RECORDS_PER_PACKET
    ensures Chunks(addrs)[i] == [] ==> addrs == []
  {
    if |addrs| > MAX_RECORDS_PER_PACKET && i > 0 {
      ChunksSizes(addrs[MAX_RECORDS_PER_PACKET..], i - 1);
    }
  }

  /** Chunking drops nothing, repeats nothing and keeps the order. */
  lemma {:induction false} FlattenOfChunks(addrs: seq<Multiaddr>)
    ensures Flatten(Chunks(addrs)) == addrs
  {
    if |addrs| <= MAX_RECORDS_PER_PACKET {
      assert Chunks(addrs)[1..] == [];
    } else {
      var head, rest := addrs[..MAX_RECORDS_PER_PACKET], addrs[MAX_RECORDS_PER_PACKET..];
      FlattenOfChunks(rest);
      assert Chunks(addrs) == [head] + Chunks(rest);
      assert Flatten([head] + Chunks(rest)) == head + Flatten(Chunks(rest));
      assert head + rest == addrs;
    }
  }

  lemma {:induction false} ChunksCons(head: seq<Multiaddr>, rest: seq<Multiaddr>)
    requires |head| == MAX_RECORDS_PER_PACKET
    ensures Chunks(head + rest) == if rest == [] then [head] else [head] + Chunks(rest)
  {
    assert (head + rest)[..MAX_RECORDS_PER_PACKET] == head;
    assert (head + rest)[MAX_RECORDS_PER_PACKET..] == rest;
    if rest == [] {
      assert head + rest == head;
    }
  }

  /** Full pieces followed by a shorter rest are the pieces of their concatenation. */
  lemma {:induction false} ChunksOfFullPieces(full: seq<seq<Multiaddr>>, tail: seq<Multiaddr>)
    requires AllFull(full) && |tail| < MAX_RECORDS_PER_PACKET
    ensures Chunks(Flatten(full) + tail) == if tail == [] && full != [] then full else full + [tail]
  {
    if full == [] {
      assert Flatten(full) + tail == tail;
    } else {
      var more := full[1..];
      var rest := Flatten(more) + tail;
      ChunksOfFullPieces(more, tail);
      Assoc(full[0], Flatten(more), tail);
      ChunksCons(full[0], rest);
      if more != [] {
        assert |more[0]| == MAX_RECORDS_PER_PACKET;
      }
      assert rest == [] <==> more == [] && tail == [];
      Assoc([full[0]], more, [tail]);
      assert [full[0]] + more == full;
    }
  }

  // ---------------------------------------------------------------- appending

  method AppendU16(out: ByteVec, value: u16)
    modifies out
    ensures out.data == old(out.data) + U16(value)
  {
    out.Push(value / 0x100 % 0x100);
    out.Push(value % 0x100);
  }

  method AppendU32(out: ByteVec, value: u32)
    modifies out
    ensures out.data == old(out.data) + U32(value)
  {
    out.Push(value / 0x100_0000 % 0x100);
    out.Push(value / 0x1_0000 % 0x100);
    out.Push(value / 0x100 % 0x100);
    out.Push(value % 0x100);
  }

  method AppendLengthPrefixed(out: ByteVec, bytes: Bytes)
    modifies out
    ensures out.data == old(out.data) + LengthPrefixed(bytes)
  {
    AppendU16(out, CastU16(|bytes|));
    out.ExtendFromSlice(bytes);
  }

  /** The identifier, the flags and the four counts. */
  method AppendHeader(out: ByteVec, id: u16, flags: u16, qd: u16, an: u16, ns: u16, ar: u16)
    requires out.data == []
    modifies out
    ensures out.data == HeaderBytes(id, flags, qd, an, ns, ar)
  {
    AppendU16(out, id);
    AppendU16(out, flags);
    AppendU16(out, qd);
    AppendU16(out, an);
    AppendU16(out, ns);
    AppendU16(out, ar);
  }

  method AppendQname(out: ByteVec, name: Bytes)
    requires ValidName(name)
    modifies out
    ensures out.data == old(out.data) + EncodeName(name)
  {
    var labels := LabelsOf(name);
    var i := 0;
    while i < |labels|
      invariant 0 <= i <= |labels|
      invariant out.data + EncodeLabels(labels[i..]) == old(out.data) + EncodeName(name)
    {
      var element := labels[i];
      ghost var before := out.data;
      out.Push(|element|);
      var j := 0;
      while j < |element|
        invariant 0 <= j <= |element|
        invariant out.data == before + [|element| as byte] + element[..j]
      {
        out.Push(element[j]);
        j := j + 1;
      }
      assert labels[i..][1..] == labels[i + 1..];
      assert out.data + EncodeLabels(labels[i + 1..]) == before + EncodeLabels(labels[i..]);
      i := i + 1;
    }
    out.Push(0);
  }

  method AppendEscaped(out: ByteVec, text: Bytes)
    modifies out
    ensures out.data == old(out.data) + Escape(text)
  {
    var i := 0;
    while i < |text|
      invariant 0 <= i <= |text|
      invariant out.data + Escape(text[i..]) == old(out.data) + Escape(text)
    {
      ghost var here := out.data;
      if text[i] == BACKSLASH {
        out.Push(BACKSLASH);
        out.Push(BACKSLASH);
      } else if text[i] == QUOTE {
        out.Push(BACKSLASH);
        out.Push(QUOTE);
      } else {
        out.Push(text[i]);
      }
      assert text[i..][1..] == text[i + 1..];
      assert out.data + Escape(text[i + 1..]) == here + Escape(text[i..]);
      i := i + 1;
    }
  }

  method AppendCharacterString(out: ByteVec, text: Bytes) returns (r: Result<(), MdnsResponseError>)
    modifies out
    ensures r == if IsAscii(text) then Ok(()) else Err(NonAsciiMultiaddr)
    ensures out.data == if r.Ok? then old(out.data) + CharacterString(text) else old(out.data)
  {
    if !IsAscii(text) {
      return Err(NonAsciiMultiaddr);
    }
    if SPACE !in text {
      out.ExtendFromSlice(text);
      return Ok(());
    }
    ghost var before := out.data;
    out.Push(QUOTE);
    AppendEscaped(out, text);
    out.Push(QUOTE);
    Assoc(before, [QUOTE], Escape(text));
    Assoc(before, [QUOTE] + Escape(text), [QUOTE]);
    return Ok(());
  }

  /** A pointer record: the dotted name, the two flag words, the time to live and the target. */
  method AppendPtrRecord(out: ByteVec, name: Bytes, rclass: u16, ttl: u32, target: Bytes)
    requires ValidName(name)
    modifies out
    ensures out.data == old(out.data) + RecordBytes(EncodeName(name), TYPE_PTR, rclass, ttl, target)
  {
    AppendQname(out, name);
    AppendU16(out, 0x000c);
    AppendU16(out, rclass);
    AppendU32(out, ttl);
    AppendLengthPrefixed(out, target);
    FiveParts(old(out.data), EncodeName(name), U16(TYPE_PTR), U16(rclass), U32(ttl), LengthPrefixed(target));
    FiveParts([], EncodeName(name), U16(TYPE_PTR), U16(rclass), U32(ttl), LengthPrefixed(target));
    assert [] + EncodeName(name) == EncodeName(name);
  }

  method AppendTxtPrefix(out: ByteVec, name: Bytes, ttl: u32)
    modifies out
    ensures out.data == old(out.data) + RecordPrefix(name, TYPE_TXT, 0x8001, ttl)
  {
    out.ExtendFromSlice(name);
    out.Push(0x00);
    out.Push(0x10);
    out.Push(0x80);
    out.Push(0x01);
    AppendU32(out, ttl);
    assert out.data == old(out.data) + RecordPrefix(name, TYPE_TXT, 0x8001, ttl);
  }

  method AppendTxtData(out: ByteVec, value: Bytes) returns (r: Result<(), MdnsResponseError>)
    requires |value| <= MAX_TXT_VALUE_LENGTH
    modifies out
    ensures r == if IsAscii(value) then Ok(()) else Err(NonAsciiMultiaddr)
    ensures out.data == if r.Ok? then old(out.data) + LengthPrefixed(TxtData(value)) else old(out.data)
  {
    var buffer := new ByteVec();
    buffer.Push(CastU8(|value|));
    r := AppendCharacterString(buffer, value);
    if r.Ok? {
      AppendLengthPrefixed(out, buffer.data);
    }
  }

  /** A refused value leaves the record's first part behind in `out`; callers drop it. */
  method AppendTxtRecord(out: ByteVec, name: Bytes, ttl: u32, value: Bytes) returns (r: Result<(), MdnsResponseError>)
    modifies out
    ensures r == if |value| > MAX_TXT_VALUE_LENGTH then Err(TxtRecordTooLong)
                 else if !IsAscii(value) then Err(NonAsciiMultiaddr)
                 else Ok(())
    ensures out.data == old(out.data)
                        + if r.Ok? then TxtRecord(name, ttl, value) else RecordPrefix(name, TYPE_TXT, 0x8001, ttl)
  {
    AppendTxtPrefix(out, name, ttl);
    if |value| > MAX_TXT_VALUE_LENGTH {
      return Err(TxtRecordTooLong);
    }
    r := AppendTxtData(out, value);
    Assoc(old(out.data), RecordPrefix(name, TYPE_TXT, 0x8001, ttl), LengthPrefixed(TxtData(value)));
  }

  // ---------------------------------------------------------------- building

  /** The length clause is the program's own capacity assertion. */
  method BuildQuery(id: u16, serviceName: Bytes) returns (packet: Bytes)
    requires ValidName(serviceName)
    ensures packet == QueryPacket(id, serviceName)
    ensures |packet| == 18 + |serviceName|
  {
    var out := new ByteVec();
    AppendHeader(out, id, 0x0, 0x1, 0x0, 0x0, 0x0);
    AppendQname(out, serviceName);
    AppendU16(out, 0x0c);
    AppendU16(out, 0x01);
    EncodedNameLength(serviceName);
    packet := out.data;
  }

  method BuildServiceDiscoveryResponse(id: u16, ttl: Duration, serviceName: Bytes, metaQueryService: Bytes)
    returns (packet: Bytes)
    requires ValidName(serviceName) && ValidName(metaQueryService)
    ensures packet == ServiceDiscoveryPacket(id, DurationToSecs(ttl), serviceName, metaQueryService)
    ensures |packet| == 26 + |serviceName| + |metaQueryService|
  {
    var ttlSecs := DurationToSecs(ttl);
    var out := new ByteVec();
    AppendHeader(out, id, 0x8400, 0x0, 0x1, 0x0, 0x0);
    var name := new ByteVec();
    AppendQname(name, serviceName);
    assert name.data == EncodeName(serviceName);
    AppendPtrRecord(out, metaQueryService, 0x8001, ttlSecs, name.data);
    EncodedNameLength(serviceName);
    EncodedNameLength(metaQueryService);
    packet := out.data;
  }

  method AppendRecords(out: ByteVec, records: seq<Bytes>)
    modifies out
    ensures out.data == old(out.data) + Flatten(records)
  {
    var i := 0;
    while i < |records|
      invariant 0 <= i <= |records|
      invariant out.data + Flatten(records[i..]) == old(out.data) + Flatten(records)
    {
      ghost var here := out.data;
      out.ExtendFromSlice(records[i]);
      assert records[i..][1..] == records[i + 1..];
      assert out.data + Flatten(records[i + 1..]) == here + Flatten(records[i..]);
      i := i + 1;
    }
    assert records[i..] == [];
  }

  method QueryResponsePacket(id: u16, peerName: Bytes, records: seq<Bytes>, ttl: u32, serviceName: Bytes)
    returns (packet: Bytes)
    requires ValidName(serviceName)
    ensures packet == ResponsePacket(id, peerName, records, ttl, serviceName)
  {
    var out := new ByteVec();
    AppendHeader(out, id, 0x8400, 0x0, 0x1, 0x0, CastU16(|records|));
    ghost var header := out.data;
    AppendPtrRecord(out, serviceName, 0x0001, ttl, peerName);
    ghost var answer := RecordBytes(EncodeName(serviceName), TYPE_PTR, 0x0001, ttl, peerName);
    AppendRecords(out, records);
    Assoc(header, answer, Flatten(records));
    packet := out.data;
  }

  /** One encoded packet for every piece. */
  ghost predicate Packed(sender: Sender, packets: seq<Bytes>, pieces: seq<seq<Multiaddr>>)
    requires sender.Valid()
  {
    |packets| == |pieces| && forall k :: 0 <= k < |pieces| ==> packets[k] == sender.Packet(pieces[k])
  }

  /** The state of the packing loop after the addresses `taken`: `full` pieces are in `packets`, the
      rest of what was accepted is `open` and encoded in `records`. */
  ghost predicate Packing(sender: Sender, packets: seq<Bytes>, records: seq<Bytes>, full: seq<seq<Multiaddr>>,
                          open: seq<Multiaddr>, taken: seq<Multiaddr>)
    requires sender.Valid()
  {
    && Flatten(full) + open == sender.Accepted(taken)
    && records == sender.Records(open)
    && AllFull(full) && Packed(sender, packets, full)
  }

  lemma PackingAccept(sender: Sender, packets: seq<Bytes>, records: seq<Bytes>, full: seq<seq<Multiaddr>>,
                      open: seq<Multiaddr>, taken: seq<Multiaddr>, addr: Multiaddr)
    requires sender.Valid() && Packing(sender, packets, records, full, open, taken)
    ensures if Accepts(TxtValue(addr, sender.peer))
            then Packing(sender, packets, records + [sender.Record(addr)], full, open + [addr], taken + [addr])
            else Packing(sender, packets, records, full, open, taken + [addr])
  {
    assert (taken + [addr])[..|taken|] == taken;
    Assoc(Flatten(full), open, [addr]);
  }

  lemma PackedSnoc(sender: Sender, packets: seq<Bytes>, pieces: seq<seq<Multiaddr>>, piece: seq<Multiaddr>)
    requires sender.Valid() && Packed(sender, packets, pieces)
    ensures Packed(sender, packets + [sender.Packet(piece)], pieces + [piece])
  {
  }

  lemma PackingFlush(sender: Sender, packets: seq<Bytes>, records: seq<Bytes>, full: seq<seq<Multiaddr>>,
                     open: seq<Multiaddr>, taken: seq<Multiaddr>)
    requires sender.Valid() && Packing(sender, packets, records, full, open, taken)
    requires |records| == MAX_RECORDS_PER_PACKET
    ensures Packing(sender, packets + [sender.Packet(open)], [], full + [open], [], taken)
  {
    PackedSnoc(sender, packets, full, open);
    FlattenSnoc(full, open);
    Assoc(Flatten(full), open, []);
    assert open + [] == open;
  }

  lemma PackingDone(sender: Sender, packets: seq<Bytes>, records: seq<Bytes>, full: seq<seq<Multiaddr>>,
                    open: seq<Multiaddr>, addrs: seq<Multiaddr>)
    requires sender.Valid()
    requires Packing(sender, packets, records, full, open, addrs[..Min(|addrs|, MAX_ADDRESSES)])
    requires |records| < MAX_RECORDS_PER_PACKET
    ensures sender.Packets(addrs) == if open == [] && full != [] then packets else packets + [sender.Packet(open)]
  {
    ChunksOfFullPieces(full, open);
  }

  method EncodeAddress(ghost sender: Sender, addr: Multiaddr, peer: PeerId, peerName: Bytes, ttl: u32)
    returns (r: Option<Bytes>)
    requires sender.Valid() && sender.peer == peer && sender.ttl == ttl && EncodeName(sender.peerName) == peerName
    ensures r == if Accepts(TxtValue(addr, peer)) then Some(sender.Record(addr)) else None
  {
    var record := new ByteVec();
    var appended := AppendTxtRecord(record, peerName, ttl, TxtValue(addr, peer));
    assert appended.Ok? ==> record.data == sender.Record(addr);
    r := if appended.Ok? then Some(record.data) else None;
  }

  method PackRecords(ghost sender: Sender, ghost addrs: seq<Multiaddr>, id: u16, peerName: Bytes, records: seq<Bytes>,
                     ttl: u32, serviceName: Bytes)
    returns (packet: Bytes)
    requires sender.Valid() && sender.id == id && sender.ttl == ttl && sender.serviceName == serviceName
    requires EncodeName(sender.peerName) == peerName && records == sender.Records(addrs)
    ensures packet == sender.Packet(addrs)
  {
    packet := QueryResponsePacket(id, peerName, records, ttl, serviceName);
  }

  /** Encodes the accepted addresses, moving every full set of records into a packet. */
  method PackAddresses(ghost sender: Sender, id: u16, peer: PeerId, addresses: seq<Multiaddr>, ttl: u32,
                       serviceName: Bytes, peerName: Bytes)
    returns (packets: seq<Bytes>, records: seq<Bytes>, ghost full: seq<seq<Multiaddr>>, ghost open: seq<Multiaddr>)
    requires sender.Valid() && EncodeName(sender.peerName) == peerName
    requires sender.id == id && sender.peer == peer && sender.ttl == ttl && sender.serviceName == serviceName
    ensures Packing(sender, packets, records, full, open, addresses)
    ensures |records| < MAX_RECORDS_PER_PACKET
  {
    packets, records, full, open := [], [], [], [];
    for i := 0 to |addresses|
      invariant Packing(sender, packets, records, full, open, addresses[..i])
      invariant |records| < MAX_RECORDS_PER_PACKET
    {
      var record := EncodeAddress(sender, addresses[i], peer, peerName, ttl);
      PackingAccept(sender, packets, records, full, open, addresses[..i], addresses[i]);
      ghost var taken := addresses[..i + 1];
      assert taken == addresses[..i] + [addresses[i]];
      if record.Some? {
        records := records + [record.value];
        open := open + [addresses[i]];
      }
      if |records| == MAX_RECORDS_PER_PACKET {
        PackingFlush(sender, packets, records, full, open, taken);
        var packet := PackRecords(sender, open, id, peerName, records, ttl, serviceName);
        packets, records := packets + [packet], [];
        full, open := full + [open], [];
      }
    }
    assert addresses[..|addresses|] == addresses;
  }

  method BuildQueryResponse(id: u16, peer: PeerId, addresses: seq<Multiaddr>, ttl: Duration, serviceName: Bytes,
                            peerName: Bytes)
    returns (packets: seq<Bytes>)
    requires ValidName(serviceName) && ValidName(peerName) && IsPeerName(peerName)
    ensures packets == Sender(id, peer, DurationToSecs(ttl), serviceName, peerName).Packets(addresses)
  {
    var ttlSecs := DurationToSecs(ttl);
    ghost var sender := Sender(id, peer, ttlSecs, serviceName, peerName);
    var limited := addresses[..Min(|addresses|, MAX_ADDRESSES)];
    var name := new ByteVec();
    AppendQname(name, peerName);
    var peerNameBytes := name.data;
    assert peerNameBytes == EncodeName(peerName);
    var records;
    ghost var full, open;
    packets, records, full, open := PackAddresses(sender, id, peer, limited, ttlSecs, serviceName, peerNameBytes);
    PackingDone(sender, packets, records, full, open, addresses);
    if records != [] {
      var packet := PackRecords(sender, open, id, peerNameBytes, records, ttlSecs, serviceName);
      packets := packets + [packet];
    }
    if packets == [] {
      var packet := PackRecords(sender, [], id, peerNameBytes, [], ttlSecs, serviceName);
      packets := packets + [packet];
    }
  }
}
