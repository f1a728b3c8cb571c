/** Responses end to end: what a receiver makes of the packets a sender built. */
module RoundTrip {
  import opened Bytes
  import opened Names
  import opened Messages
  import opened Multiaddrs
  import opened Config
  import opened Dns
  import opened Query
  import opened Codec

  // ---------------------------------------------------------------- one record

  /** Whether a receiver can read the record of a value at all. */
  predicate Readable(value: Bytes) {
    DecodeStrings(TxtData(value)).Some?
  }

  function RecordRead(sender: Sender, addr: Multiaddr): Record
    requires ValidName(sender.peerName)
    requires Readable(TxtValue(addr, sender.peer))
  {
    Record(LabelsOf(sender.peerName), TYPE_TXT, 0x8001, sender.ttl,
           Txt(DecodeStrings(TxtData(TxtValue(addr, sender.peer))).value))
  }

  lemma DecodeOfSentRecord(sender: Sender, addr: Multiaddr, tail: Bytes)
    requires sender.Valid() && Accepts(TxtValue(addr, sender.peer))
    ensures DecodeRecord(sender.Record(addr) + tail)
         == if Readable(TxtValue(addr, sender.peer)) then Parsed(RecordRead(sender, addr), tail) else Malformed
  {
    var value := TxtValue(addr, sender.peer);
    EscapeLength(value);
    DecodeOfRecord(sender.peerName, TYPE_TXT, 0x8001, sender.ttl, TxtData(value), tail);
  }

  function RecordOutcome(sender: Sender, addr: Multiaddr): Option<Record>
    requires ValidName(sender.peerName)
  {
    if Readable(TxtValue(addr, sender.peer)) then Some(RecordRead(sender, addr)) else None
  }

  // ---------------------------------------------------------------- one packet

  ghost predicate AllAccepted(sender: Sender, addrs: seq<Multiaddr>) {
    forall addr :: addr in addrs ==> Accepts(TxtValue(addr, sender.peer))
  }

  ghost predicate AllReadable(sender: Sender, addrs: seq<Multiaddr>) {
    forall addr :: addr in addrs ==> Readable(TxtValue(addr, sender.peer))
  }

  ghost function RecordsRead(sender: Sender, addrs: seq<Multiaddr>): seq<Record>
    requires ValidName(sender.peerName) && AllReadable(sender, addrs)
  {
    seq(|addrs|, i requires 0 <= i < |addrs| => RecordRead(sender, addrs[i]))
  }

  ghost function Outcomes(sender: Sender, addrs: seq<Multiaddr>): (outcomes: seq<Option<Record>>)
    requires ValidName(sender.peerName)
    ensures |outcomes| == |addrs|
  {
    seq(|addrs|, i requires 0 <= i < |addrs| => RecordOutcome(sender, addrs[i]))
  }

  lemma OutcomesReadable(sender: Sender, addrs: seq<Multiaddr>)
    requires ValidName(sender.peerName)
    ensures var outcomes := Outcomes(sender, addrs);
            if AllSome(outcomes) then AllReadable(sender, addrs) && Values(outcomes) == RecordsRead(sender, addrs)
            else !AllReadable(sender, addrs)
  {
    var outcomes := Outcomes(sender, addrs);
    if AllSome(outcomes) {
      forall addr | addr in addrs ensures Readable(TxtValue(addr, sender.peer)) {
        var i :| 0 <= i < |addrs| && addrs[i] == addr;
        assert outcomes[i].Some?;
      }
    }
  }

  lemma {:induction false} DecodeOfSentRecords(sender: Sender, addrs: seq<Multiaddr>)
    requires sender.Valid() && AllAccepted(sender, addrs)
    ensures DecodeMany(DecodeRecord, Flatten(sender.Records(addrs)), |addrs|)
         == if AllReadable(sender, addrs) then Parsed(RecordsRead(sender, addrs), []) else Malformed
  {
    var parts, outcomes := sender.Records(addrs), Outcomes(sender, addrs);
    forall i | 0 <= i < |addrs| ensures ReadsAs(DecodeRecord, parts[i], outcomes[i]) {
      forall tail ensures DecodeRecord(parts[i] + tail)
                       == if outcomes[i].Some? then Parsed(outcomes[i].value, tail) else Malformed {
        DecodeOfSentRecord(sender, addrs[i], tail);
      }
    }
    DecodeManyOf(DecodeRecord, parts, outcomes);
    OutcomesReadable(sender, addrs);
  }

  /** The answer of a response: the service name points to the peer name. */
  function AnswerRead(sender: Sender): Record
    requires sender.Valid()
  {
    Record(LabelsOf(sender.serviceName), TYPE_PTR, 0x0001, sender.ttl, Ptr(LabelsOf(sender.peerName)))
  }

  function AnswerBytes(sender: Sender): Bytes
    requires sender.Valid()
  {
    RecordBytes(EncodeName(sender.serviceName), TYPE_PTR, 0x0001, sender.ttl, EncodeName(sender.peerName))
  }

  lemma DecodeOfAnswer(sender: Sender, tail: Bytes)
    requires sender.Valid()
    ensures DecodeRecord(AnswerBytes(sender) + tail)
         == if |sender.serviceName| <= 253 then Parsed(AnswerRead(sender), tail) else Malformed
  {
    EncodedNameLength(sender.peerName);
    DecodeOfPtrData(sender.peerName);
    DecodeOfRecord(sender.serviceName, TYPE_PTR, 0x0001, sender.ttl, EncodeName(sender.peerName), tail);
  }

  lemma DecodeOfPacketBody(sender: Sender, addrs: seq<Multiaddr>)
    requires sender.Valid() && AllAccepted(sender, addrs) && |addrs| <= MAX_RECORDS_PER_PACKET
    ensures DecodeBody(sender.id, |addrs|, AnswerBytes(sender) + Flatten(sender.Records(addrs)))
         == if |sender.serviceName| <= 253 && AllReadable(sender, addrs)
            then Parsed(Message(sender.id, 0x8400, [], [AnswerRead(sender)], [], RecordsRead(sender, addrs)), [])
            else Malformed
  {
    DecodeOfAnswer(sender, Flatten(sender.Records(addrs)));
    DecodeOfSentRecords(sender, addrs);
  }

  /** A packet decodes, with nothing left over, exactly when the service name fits the length limit of
      names and every value in it is readable; one unreadable value costs all 29 addresses. */
  lemma DecodeOfPacket(sender: Sender, addrs: seq<Multiaddr>)
    requires sender.Valid() && AllAccepted(sender, addrs) && |addrs| <= MAX_RECORDS_PER_PACKET
    ensures DecodeMessage(sender.Packet(addrs))
         == if |sender.serviceName| <= 253 && AllReadable(sender, addrs)
            then Parsed(Message(sender.id, 0x8400, [], [AnswerRead(sender)], [], RecordsRead(sender, addrs)), [])
            else Malformed
  {
    assert CastU16(|sender.Records(addrs)|) == |addrs|;
    DecodeOfResponse(sender.id, |addrs|, AnswerBytes(sender) + Flatten(sender.Records(addrs)));
    DecodeOfPacketBody(sender, addrs);
  }

  // ---------------------------------------------------------------- the peer a packet announces

  ghost predicate SpaceFree(sender: Sender, addrs: seq<Multiaddr>) {
    forall addr :: addr in addrs ==> Unspaced(TxtValue(addr, sender.peer))
  }

  predicate Unspaced(value: Bytes) {
    SPACE !in value
  }

  lemma SpaceFreeIsReadable(sender: Sender, addrs: seq<Multiaddr>)
    requires AllAccepted(sender, addrs) && SpaceFree(sender, addrs)
    ensures AllReadable(sender, addrs)
  {
    forall addr | addr in addrs ensures Readable(TxtValue(addr, sender.peer)) {
      PlainStringReadsBack(TxtValue(addr, sender.peer));
    }
  }

  lemma ValueIsPrinted(addr: Multiaddr, peer: PeerId)
    ensures TxtValue(addr, peer) == Ascii("dnsaddr=") + Print(addr + [P2p(peer)])
  {
    PrintWithPeer(addr, peer);
    FourParts([], Ascii("dnsaddr="), Print(addr), Ascii("/p2p/"), peer);
    FourParts([], [], Print(addr), Ascii("/p2p/"), peer);
  }

  /** An ASCII value parses back to the address and the peer it was made of. */
  lemma CandidateOfValue(addr: Multiaddr, peer: PeerId)
    requires IsAscii(TxtValue(addr, peer))
    ensures ParseCandidate(TxtValue(addr, peer)) == Some(Candidate(addr, peer))
  {
    var value, printed := TxtValue(addr, peer), Print(addr + [P2p(peer)]);
    ValueIsPrinted(addr, peer);
    assert value[8..] == printed && value[..8] == Ascii("dnsaddr=");
    assert value[0] == 100;
    AsciiIsUtf8(printed);
    ParseOfPrint(addr + [P2p(peer)]);
    assert (addr + [P2p(peer)])[..|addr|] == addr;
  }

  /** Of all strings, just the value a sender writes for an address, bare or between quotes, is taken for that
      address of that peer. */
  lemma CandidateExactly(txt: Bytes, c: Candidate)
    ensures var value := TxtValue(c.addr, c.peer);
            ParseCandidate(txt) == Some(c)
            <==> IsUtf8(Print(c.addr + [P2p(c.peer)])) && (txt == value || txt == [QUOTE] + value + [QUOTE])
  {
    hide IsUtf8, Parse, Print, DecodeCharacterString;
    var value, printed := TxtValue(c.addr, c.peer), Print(c.addr + [P2p(c.peer)]);
    ValueIsPrinted(c.addr, c.peer);
    assert value[8..] == printed && value[..8] == Ascii("dnsaddr=") && value[0] == 100;
    UnquotedExactly(txt, value);
    ParseOfPrint(c.addr + [P2p(c.peer)]);
    assert (c.addr + [P2p(c.peer)])[..|c.addr|] == c.addr;
    if ParseCandidate(txt) == Some(c) {
      var text := DecodeCharacterString(txt).value;
      var addr := Parse(text[8..]).value;
      PrintOfParse(text[8..]);
      assert addr == c.addr + [P2p(c.peer)];
      assert text == text[..8] + text[8..];
    }
  }

  ghost function CandidatesOf(addrs: seq<Multiaddr>, peer: PeerId): seq<Candidate> {
    seq(|addrs|, i requires 0 <= i < |addrs| => Candidate(addrs[i], peer))
  }

  lemma CandidatesCons(value: Bytes, more: seq<Bytes>, c: Candidate)
    requires ParseCandidate(value) == Some(c)
    ensures Candidates([value] + more) == [c] + Candidates(more)
  {
    FilterMapCat(ParseCandidate, [value], more);
    FilterMapOne(ParseCandidate, value);
  }

  lemma RecordReadPlain(sender: Sender, addr: Multiaddr)
    requires sender.Valid() && Accepts(TxtValue(addr, sender.peer)) && Unspaced(TxtValue(addr, sender.peer))
    ensures Readable(TxtValue(addr, sender.peer))
    ensures RecordRead(sender, addr).data == Txt([TxtValue(addr, sender.peer)])
  {
    PlainStringReadsBack(TxtValue(addr, sender.peer));
  }

  ghost function ValuesOf(addrs: seq<Multiaddr>, peer: PeerId): seq<Bytes> {
    seq(|addrs|, i requires 0 <= i < |addrs| => TxtValue(addrs[i], peer))
  }

  lemma {:induction false} StringsUnderAll(records: seq<Record>, values: seq<Bytes>, name: Labels)
    requires |records| == |values|
    requires forall i :: 0 <= i < |records| ==> records[i].name == name && records[i].data == Txt([values[i]])
    ensures StringsUnder(records, name) == values
    decreases |records|
  {
    if records != [] {
      StringsUnderAll(records[1..], values[1..], name);
      assert values == [values[0]] + values[1..];
    }
  }

  lemma StringsOfRecords(sender: Sender, addrs: seq<Multiaddr>)
    requires sender.Valid() && AllAccepted(sender, addrs) && SpaceFree(sender, addrs) && AllReadable(sender, addrs)
    ensures StringsUnder(RecordsRead(sender, addrs), LabelsOf(sender.peerName)) == ValuesOf(addrs, sender.peer)
  {
    var records, values := RecordsRead(sender, addrs), ValuesOf(addrs, sender.peer);
    forall i | 0 <= i < |addrs| ensures records[i].data == Txt([values[i]]) {
      RecordReadPlain(sender, addrs[i]);
    }
    StringsUnderAll(records, values, LabelsOf(sender.peerName));
  }

  lemma NoCandidates(addrs: seq<Multiaddr>, peer: PeerId)
    requires addrs == []
    ensures Candidates(ValuesOf(addrs, peer)) == CandidatesOf(addrs, peer)
  {
  }

  lemma {:induction false} CandidatesOfValues(addrs: seq<Multiaddr>, peer: PeerId)
    requires forall addr :: addr in addrs ==> IsAscii(TxtValue(addr, peer))
    ensures Candidates(ValuesOf(addrs, peer)) == CandidatesOf(addrs, peer)
    decreases |addrs|
  {
    hide ParseCandidate, TxtValue, Candidates;
    if addrs == [] {
      NoCandidates(addrs, peer);
    } else {
      var first, more := addrs[0], addrs[1..];
      CandidatesOfValues(more, peer);
      CandidateOfValue(first, peer);
      CandidatesCons(TxtValue(first, peer), ValuesOf(more, peer), Candidate(first, peer));
      assert ValuesOf(addrs, peer) == [TxtValue(first, peer)] + ValuesOf(more, peer);
    }
  }

  lemma {:induction false} AddressesForOwn(addrs: seq<Multiaddr>, peer: PeerId)
    ensures AddressesFor(CandidatesOf(addrs, peer), peer) == addrs
  {
    if addrs != [] {
      AddressesForOwn(addrs[1..], peer);
      assert CandidatesOf(addrs, peer)[1..] == CandidatesOf(addrs[1..], peer);
    }
  }

  /** What a packet of `addrs` announces; a packet without records announces no one. */
  function Announced(sender: Sender, addrs: seq<Multiaddr>): seq<MdnsPeer> {
    if addrs == [] then [] else [MdnsPeer(addrs, sender.peer, sender.ttl)]
  }

  lemma PeerOfPacket(sender: Sender, addrs: seq<Multiaddr>)
    requires sender.Valid() && AllAccepted(sender, addrs) && SpaceFree(sender, addrs) && AllReadable(sender, addrs)
    ensures PeerUnder(RecordsRead(sender, addrs), LabelsOf(sender.peerName), sender.ttl)
         == if addrs == [] then None else Some(MdnsPeer(addrs, sender.peer, sender.ttl))
  {
    StringsOfRecords(sender, addrs);
    CandidatesOfValues(addrs, sender.peer);
    AddressesForOwn(addrs, sender.peer);
  }

  /** The packet is read as a response from `from`, announcing the sender with just these addresses. */
  predicate Understood(packet: Bytes, sender: Sender, addrs: seq<Multiaddr>, from: SocketAddr, config: Config) {
    NewFromBytes(packet, from, config.serviceNameFqdn, config.metaQueryServiceFqdn)
    == Result.Ok(Some(Response(MdnsResponse(Announced(sender, addrs), from))))
  }

  /** One packet, read by a receiver of the same service. */
  lemma ReadPacket(sender: Sender, addrs: seq<Multiaddr>, from: SocketAddr, config: Config)
    requires sender.Valid() && config.Spellable() && sender.serviceName == config.serviceName
    requires AllAccepted(sender, addrs) && SpaceFree(sender, addrs) && |addrs| <= MAX_RECORDS_PER_PACKET
    requires ComesBack(sender.serviceName)
    ensures Understood(sender.Packet(addrs), sender, addrs, from, config)
  {
    SpaceFreeIsReadable(sender, addrs);
    DecodeOfPacket(sender, addrs);
    RenderOwn(sender.serviceName);
    PeerOfPacket(sender, addrs);
    PeersOfOneAnswer(DecodeMessage(sender.Packet(addrs)).value, AnswerRead(sender), config.serviceNameFqdn);
  }

  // ---------------------------------------------------------------- all packets of a response

  function AddressesOf(peers: seq<MdnsPeer>): seq<Multiaddr> {
    if peers == [] then [] else peers[0].addrs + AddressesOf(peers[1..])
  }

  /** The addresses a receiver learns from one datagram; none when it cannot read it. */
  function Learned(packet: Bytes, from: SocketAddr, config: Config): seq<Multiaddr> {
    match NewFromBytes(packet, from, config.serviceNameFqdn, config.metaQueryServiceFqdn)
    case Ok(Some(Response(r))) => AddressesOf(r.peers)
    case _ => []
  }

  function LearnedEach(packets: seq<Bytes>, from: SocketAddr, config: Config): seq<seq<Multiaddr>> {
    seq(|packets|, i requires 0 <= i < |packets| => Learned(packets[i], from, config))
  }

  lemma {:induction false} AcceptedIsAccepted(sender: Sender, addrs: seq<Multiaddr>)
    ensures AllAccepted(sender, sender.Accepted(addrs))
  {
    if addrs != [] {
      AcceptedIsAccepted(sender, addrs[..|addrs| - 1]);
    }
  }

  lemma {:induction false} AcceptedAre(sender: Sender, addrs: seq<Multiaddr>, kept: Multiaddr -> Option<Multiaddr>)
    requires forall addr :: var value := TxtValue(addr, sender.peer);
                            kept(addr) == if |value| <= 255 && IsAscii(value) then Some(addr) else None
    ensures sender.Accepted(addrs) == FilterMap(kept, addrs)
  {
    hide TxtValue, IsAscii;
    if addrs != [] {
      var init, last := addrs[..|addrs| - 1], addrs[|addrs| - 1];
      AcceptedAre(sender, init, kept);
      FilterMapCat(kept, init, [last]);
      FilterMapOne(kept, last);
      assert addrs == init + [last];
    }
  }

  /** A response sends just the addresses among the first 65535 whose value is ASCII and has at most 255 bytes, in
      order. */
  lemma {:induction false} SendableExactly(sender: Sender, addrs: seq<Multiaddr>, kept: Multiaddr -> Option<Multiaddr>)
    requires forall addr :: var value := TxtValue(addr, sender.peer);
                            kept(addr) == if |value| <= 255 && IsAscii(value) then Some(addr) else None
    ensures sender.Sendable(addrs) == FilterMap(kept, if |addrs| <= 65535 then addrs else addrs[..65535])
  {
    hide TxtValue, IsAscii;
    AcceptedAre(sender, addrs[..Min(|addrs|, 65535)], kept);
    assert |addrs| <= 65535 ==> addrs[..|addrs|] == addrs;
  }

  lemma {:induction false} AllAcceptedAreSent(sender: Sender, addrs: seq<Multiaddr>)
    requires AllAccepted(sender, addrs)
    ensures sender.Accepted(addrs) == addrs
  {
    if addrs != [] {
      AllAcceptedAreSent(sender, addrs[..|addrs| - 1]);
    }
  }

  /** Up to 29 accepted addresses are sent in one packet. */
  lemma SentInOnePacket(sender: Sender, addrs: seq<Multiaddr>)
    requires sender.Valid() && AllAccepted(sender, addrs) && |addrs| <= MAX_RECORDS_PER_PACKET
    ensures sender.Sendable(addrs) == addrs && sender.Packets(addrs) == [sender.Packet(addrs)]
  {
    hide Sender.Packet, Sender.Accepted, Chunks, AllAccepted;
    AllAcceptedAreSent(sender, addrs);
    OneChunk(addrs);
    assert addrs[..Min(|addrs|, MAX_ADDRESSES)] == addrs;
  }

  lemma {:induction false} OneChunk(addrs: seq<Multiaddr>)
    requires |addrs| <= MAX_RECORDS_PER_PACKET
    ensures Chunks(addrs) == [addrs]
  {
  }

  lemma {:induction false} ChunkMembers(addrs: seq<Multiaddr>, i: nat)
    requires i < |Chunks(addrs)|
    ensures forall addr :: addr in Chunks(addrs)[i] ==> addr in addrs
  {
    if |addrs| > MAX_RECORDS_PER_PACKET && i > 0 {
      ChunkMembers(addrs[MAX_RECORDS_PER_PACKET..], i - 1);
    }
  }

  lemma LearnedFromUnderstood(packet: Bytes, sender: Sender, addrs: seq<Multiaddr>, from: SocketAddr, config: Config)
    requires Understood(packet, sender, addrs, from, config)
    ensures Learned(packet, from, config) == addrs
  {
    if addrs != [] {
      assert Announced(sender, addrs)[1..] == [];
      assert AddressesOf(Announced(sender, addrs)) == addrs + [];
    }
  }

  lemma {:induction false} ReadChunk(sender: Sender, addrs: seq<Multiaddr>, i: nat, from: SocketAddr, config: Config)
    requires sender.Valid() && config.Spellable() && sender.serviceName == config.serviceName
    requires AllAccepted(sender, addrs) && SpaceFree(sender, addrs) && i < |Chunks(addrs)|
    requires ComesBack(sender.serviceName)
    ensures Understood(sender.Packet(Chunks(addrs)[i]), sender, Chunks(addrs)[i], from, config)
    ensures Learned(sender.Packet(Chunks(addrs)[i]), from, config) == Chunks(addrs)[i]
  {
    var chunk := Chunks(addrs)[i];
    ChunkMembers(addrs, i);
    ChunksSizes(addrs, i);
    ReadPacket(sender, chunk, from, config);
    LearnedFromUnderstood(sender.Packet(chunk), sender, chunk, from, config);
  }

  lemma {:induction false} ReadChunks(sender: Sender, sendable: seq<Multiaddr>, from: SocketAddr, config: Config)
    requires sender.Valid() && config.Spellable() && sender.serviceName == config.serviceName
    requires ComesBack(sender.serviceName) && AllAccepted(sender, sendable) && SpaceFree(sender, sendable)
    ensures forall i :: 0 <= i < |Chunks(sendable)| ==>
              Understood(sender.PacketsOf(sendable)[i], sender, Chunks(sendable)[i], from, config)
    ensures LearnedEach(sender.PacketsOf(sendable), from, config) == Chunks(sendable)
  {
    var packets, chunks := sender.PacketsOf(sendable), Chunks(sendable);
    forall i | 0 <= i < |chunks|
      ensures Understood(packets[i], sender, chunks[i], from, config) && Learned(packets[i], from, config) == chunks[i]
    {
      ReadChunk(sender, sendable, i, from, config);
    }
  }

  /** End to end: when the service name comes back and no value sent has a space, the packets
      are max(1, ceil(n / 29)), each is read as a response announcing the sender alone with the
      sender's time to live, and the addresses learned, packet after packet, are those sent, in order. */
  lemma ResponseRoundTrip(sender: Sender, addrs: seq<Multiaddr>, from: SocketAddr, config: Config)
    requires sender.Valid() && config.Spellable() && sender.serviceName == config.serviceName
    requires ComesBack(sender.serviceName) && SpaceFree(sender, sender.Sendable(addrs))
    ensures var packets, sendable := sender.Packets(addrs), sender.Sendable(addrs);
            && |packets| == |Chunks(sendable)| == PacketCount(|sendable|)
            && Flatten(LearnedEach(packets, from, config)) == sendable
            && forall i :: 0 <= i < |packets| ==> Understood(packets[i], sender, Chunks(sendable)[i], from, config)
  {
    var sendable := sender.Sendable(addrs);
    AcceptedIsAccepted(sender, addrs[..Min(|addrs|, MAX_ADDRESSES)]);
    ReadChunks(sender, sendable, from, config);
    FlattenOfChunks(sendable);
    ChunksCount(sendable);
  }

  // ---------------------------------------------------------------- queries and service discovery

  lemma DecodeOfQuery(id: u16, name: Bytes)
    requires ValidName(name)
    ensures DecodeMessage(QueryPacket(id, name))
         == if |name| <= 253 then Parsed(Message(id, 0, [Question(LabelsOf(name), 12, 1)], [], [], []), [])
            else Malformed
  {
    var b := U16(0x0c) + (U16(0x01) + []);
    FourParts(HeaderBytes(id, 0, 1, 0, 0, 0), EncodeName(name), U16(0x0c), U16(0x01), []);
    assert QueryPacket(id, name) + [] == QueryPacket(id, name);
    DecodeOfHeader(id, 0, 1, 0, 0, 0, EncodeName(name) + b);
    DecodeOfEncodeName(name, b);
    TakeU16OfU16(0x0c, U16(0x01) + []);
    TakeU16OfU16(0x01, []);
    DecodeManyOne(DecodeQuestion, EncodeName(name) + b);
    DecodeManyOne(DecodeRecord, []);
  }

  /** Some question asks for a text exactly when some question has the labels of which it is the text. */
  lemma AsksExactly(packet: Message, labels: Labels)
    requires labels != [] && labels[0] != []
    ensures Asks(packet, Render(labels)) <==> exists i :: 0 <= i < |packet.queries| && packet.queries[i].name == labels
  {
    hide Render;
    forall i | 0 <= i < |packet.queries|
      ensures Render(packet.queries[i].name) == Render(labels) <==> packet.queries[i].name == labels
    {
      RenderExactly(packet.queries[i].name, labels);
    }
  }

  /** A question is classified by its text form: the service's is a query, the meta name's asks for service
      discovery, any other is not for us. */
  lemma QuestionsAreClassified(id: u16, name: Bytes, from: SocketAddr, config: Config)
    requires ValidName(name)
    ensures NewFromBytes(QueryPacket(id, name), from, config.serviceNameFqdn, config.metaQueryServiceFqdn)
         == if |name| > 253 then Err(())
            else if Render(LabelsOf(name)) == config.serviceNameFqdn then Result.Ok(Some(Query(from, id)))
            else if Render(LabelsOf(name)) == config.metaQueryServiceFqdn then
              Result.Ok(Some(ServiceDiscovery(from, id)))
            else Result.Ok(None)
  {
    hide Render;
    DecodeOfQuery(id, name);
    if |name| <= 253 {
      var packet := DecodeMessage(QueryPacket(id, name)).value;
      assert packet.queries == [Question(LabelsOf(name), 12, 1)];
      AsksOne(packet, config.serviceNameFqdn);
      AsksOne(packet, config.metaQueryServiceFqdn);
    }
  }

  lemma AsksOne(packet: Message, fqdn: Bytes)
    requires |packet.queries| == 1
    ensures Asks(packet, fqdn) <==> Render(packet.queries[0].name) == fqdn
  {
    hide Render;
  }

  /** Some question asks for the name. */
  predicate AsksFor(packet: Message, name: Bytes)
    requires ValidName(name)
  {
    exists i :: 0 <= i < |packet.queries| && packet.queries[i].name == LabelsOf(name)
  }

  lemma AsksForPlain(packet: Message, name: Bytes)
    requires ValidName(name) && OrdinaryName(name) && PlainName(name)
    ensures Asks(packet, name + [DOT]) <==> AsksFor(packet, name)
  {
    hide Render, LabelsOf, PlainName;
    RenderOwn(name);
    LabelsNotEmpty(name);
    AsksExactly(packet, LabelsOf(name));
  }

  lemma LabelsNotEmpty(name: Bytes)
    requires ValidName(name)
    ensures LabelsOf(name) != [] && LabelsOf(name)[0] != []
  {
    assert LabelsOf(name)[0] in Split(name, DOT);
  }

  /** Every message, however many questions and answers it has, with names that have nothing to escape: one
      without questions is a response, of the peers its answers announce; one that asks for the service is a
      query, whatever else it asks for; one that asks for the meta name a request for service discovery; any
      other is not for us. Its id is kept. */
  lemma {:induction false} MessagesAreClassified(packet: Message, from: SocketAddr, config: Config)
    requires config.Spellable() && PlainName(config.serviceName) && PlainName(config.metaQueryService)
    ensures Classify(packet, from, config.serviceNameFqdn, config.metaQueryServiceFqdn)
         == if packet.queries == [] then
              Some(Response(MdnsResponse(PeersOf(packet, packet.answers, config.serviceNameFqdn), from)))
            else if AsksFor(packet, config.serviceName) then Some(Query(from, packet.id))
            else if AsksFor(packet, config.metaQueryService) then Some(ServiceDiscovery(from, packet.id))
            else None
  {
    hide Asks, AsksFor, PlainName, PeersOf;
    AsksForPlain(packet, config.serviceName);
    AsksForPlain(packet, config.metaQueryService);
  }

  /** For names with nothing to escape that is by name: a question for the service is a query, one for the
      meta name asks for service discovery, and one for any other name is not for us. */
  lemma PlainQuestionsAreClassified(id: u16, name: Bytes, from: SocketAddr, config: Config)
    requires ValidName(name) && config.Spellable()
    requires PlainName(config.serviceName) && PlainName(config.metaQueryService)
    ensures NewFromBytes(QueryPacket(id, name), from, config.serviceNameFqdn, config.metaQueryServiceFqdn)
         == if |name| > 253 then Err(())
            else if name == config.serviceName then Result.Ok(Some(Query(from, id)))
            else if name == config.metaQueryService then Result.Ok(Some(ServiceDiscovery(from, id)))
            else Result.Ok(None)
  {
    hide Render, QueryPacket, NewFromBytes;
    QuestionsAreClassified(id, name, from, config);
    PlainHasNoEscape(config.serviceName);
    PlainHasNoEscape(config.metaQueryService);
    RenderOther(name, config.serviceName);
    RenderOther(name, config.metaQueryService);
  }

  /** The packet is read as a query for the service. */
  predicate ReadAsQuery(packet: Bytes, id: u16, from: SocketAddr, config: Config) {
    NewFromBytes(packet, from, config.serviceNameFqdn, config.metaQueryServiceFqdn) == Result.Ok(Some(Query(from, id)))
  }

  predicate ReadAsServiceDiscovery(packet: Bytes, id: u16, from: SocketAddr, config: Config) {
    NewFromBytes(packet, from, config.serviceNameFqdn, config.metaQueryServiceFqdn)
    == Result.Ok(Some(ServiceDiscovery(from, id)))
  }

  /** A node recognizes a query for its own service, and a question for its own meta name, if and only if the
      name fits the limit of names and has nothing to escape. */
  lemma OwnQuestionsAreRecognized(id: u16, from: SocketAddr, config: Config)
    requires config.Spellable()
    ensures ReadAsQuery(QueryPacket(id, config.serviceName), id, from, config) <==> ComesBack(config.serviceName)
    ensures ReadAsServiceDiscovery(QueryPacket(id, config.metaQueryService), id, from, config)
            <==> ComesBack(config.metaQueryService)
  {
    hide Render, QueryPacket, NewFromBytes, PlainName;
    QuestionsAreClassified(id, config.serviceName, from, config);
    QuestionsAreClassified(id, config.metaQueryService, from, config);
    RenderOwn(config.serviceName);
    RenderOwn(config.metaQueryService);
  }

  /** Of the configured names the encoder accepts, just those with nothing to escape give a service that
      recognizes itself, as long as both derived names fit the limit of names. */
  lemma ConfiguredNamesRecognized(id: u16, from: SocketAddr, config: Config, name: Bytes)
    requires name == [] || (ValidName(Ascii("_") + name) && OrdinaryName(Ascii("_") + name))
    requires |name| <= 223
    ensures var c, plain := config.ServiceName(name), name == [] || PlainName(Ascii("_") + name);
            && c.Spellable()
            && (ReadAsQuery(QueryPacket(id, c.serviceName), id, from, c) <==> plain)
            && (ReadAsServiceDiscovery(QueryPacket(id, c.metaQueryService), id, from, c) <==> plain)
  {
    hide QueryPacket, ReadAsQuery, ReadAsServiceDiscovery;
    hide Config.Spellable, Config.ServiceName, PlainName, ValidName, OrdinaryName;
    ConfiguredNames(config, name);
    OwnQuestionsAreRecognized(id, from, config.ServiceName(name));
  }

  /** With the configured name `a b` the encoder does not panic, and yet a node recognizes none of its own
      queries. */
  lemma SpacedNameIsNotRecognized(id: u16, from: SocketAddr, config: Config)
    ensures var c := config.ServiceName(Ascii("a b"));
            && c.Spellable() && |c.serviceName| <= 253 && |c.metaQueryService| <= 253
            && !ReadAsQuery(QueryPacket(id, c.serviceName), id, from, c)
  {
    hide QueryPacket, ReadAsQuery, ReadAsServiceDiscovery;
    hide Config.ServiceName, PlainName, ValidName, OrdinaryName;
    SpacedName(config);
    OwnQuestionsAreRecognized(id, from, config.ServiceName(Ascii("a b")));
  }

  /** Nothing is learned from a response whose service name does not come back. */
  lemma UnrecognizedIsIgnored(sender: Sender, addrs: seq<Multiaddr>, from: SocketAddr, config: Config)
    requires sender.Valid() && config.Spellable() && sender.serviceName == config.serviceName
    requires AllAccepted(sender, addrs) && |addrs| <= MAX_RECORDS_PER_PACKET
    requires !ComesBack(sender.serviceName)
    ensures Learned(sender.Packet(addrs), from, config) == []
  {
    hide Render;
    DecodeOfPacket(sender, addrs);
    RenderOwn(sender.serviceName);
    if DecodeMessage(sender.Packet(addrs)).Parsed? {
      PeersOfOneAnswer(DecodeMessage(sender.Packet(addrs)).value, AnswerRead(sender), config.serviceNameFqdn);
    }
  }

  /** The answer to service discovery decodes, if and only if both names fit, to the one record that points from
      the meta name to the service, under the question's id and with the configured time to live. */
  lemma DecodeOfServiceDiscovery(id: u16, ttl: u32, service: Bytes, meta: Bytes)
    requires ValidName(service) && ValidName(meta) && |service| < 0xFFF0
    ensures DecodeMessage(ServiceDiscoveryPacket(id, ttl, service, meta))
         == if |service| <= 253 && |meta| <= 253
            then Parsed(Message(id, 0x8400, [], [Record(LabelsOf(meta), 12, 0x8001, ttl, Ptr(LabelsOf(service)))],
                                [], []), [])
            else Malformed
  {
    var body := RecordBytes(EncodeName(meta), TYPE_PTR, 0x8001, ttl, EncodeName(service));
    EncodedNameLength(service);
    DecodeOfPtrData(service);
    DecodeOfRecord(meta, TYPE_PTR, 0x8001, ttl, EncodeName(service), []);
    assert body + [] == body;
    DecodeOfResponse(id, 0, body);
    DecodeManyOne(DecodeRecord, []);
  }

  /** It is read as a response that announces no peer. */
  lemma ServiceDiscoveryAnnouncesNoOne(id: u16, ttl: u32, from: SocketAddr, config: Config)
    requires config.Spellable()
    requires |config.serviceName| <= 253 && |config.metaQueryService| <= 253
    ensures NewFromBytes(ServiceDiscoveryPacket(id, ttl, config.serviceName, config.metaQueryService), from,
                         config.serviceNameFqdn, config.metaQueryServiceFqdn)
         == Result.Ok(Some(Response(MdnsResponse([], from))))
  {
    var service, meta := config.serviceName, config.metaQueryService;
    var answer := Record(LabelsOf(meta), TYPE_PTR, 0x8001, ttl, Ptr(LabelsOf(service)));
    hide ServiceDiscoveryPacket, DecodeMessage;
    DecodeOfServiceDiscovery(id, ttl, service, meta);
    PeersOfOneAnswer(Message(id, 0x8400, [], [answer], [], []), answer, config.serviceNameFqdn);
  }
}
