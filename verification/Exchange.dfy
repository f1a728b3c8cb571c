/** One node asks and another answers: from the query on the wire to the addresses the asker offers for
    dialing. */
module Exchange {
  import opened Bytes
  import opened Time
  import opened Names
  import opened Messages
  import opened Multiaddrs
  import opened Config
  import opened Dns
  import opened Query
  import opened RoundTrip
  import opened Spaces
  import opened Limits
  import opened Iface
  import D = Discovery
  import T = Table

  /** Two nodes of one service. */
  predicate SameService(a: Local, b: Local) {
    && a.Valid() && a.config.Spellable()
    && b.Valid() && b.config.Spellable()
    && a.config.serviceName == b.config.serviceName
  }

  /** What `a` answers with, under the peer name it drew for this query. */
  function Answerer(a: Local, id: u16, peerName: Bytes): Sender {
    Sender(id, a.localPeer, DurationToSecs(a.config.ttl), a.config.serviceName, peerName)
  }

  lemma LongQueryIsMalformed(id: u16, name: Bytes)
    requires ValidName(name) && |name| > 253
    ensures DecodeMessage(Received(QueryPacket(id, name))).Malformed?
  {
    DecodeOfQuery(id, name);
    hide DecodeMessage, QueryPacket;
    var packet := QueryPacket(id, name);
    var tail := packet[|Received(packet)|..];
    assert packet == Received(packet) + tail;
    if DecodeMessage(Received(packet)).Parsed? {
      DecodeMessageBefore(Received(packet), tail);
    }
  }

  /** A query for the service is heard as one if and only if the service's name comes back. */
  lemma QueryIsHeardExactly(a: Local, id: u16, query: ReadOutcome)
    requires a.config.Spellable()
    requires query.Datagram? && query.bytes == QueryPacket(id, a.config.serviceName)
    ensures Heard(a, query) == Result.Ok(Some(Query(query.from, id))) <==> ComesBack(a.config.serviceName)
  {
    hide DecodeMessage, PlainName, QueryPacket;
    if |a.config.serviceName| > 253 {
      LongQueryIsMalformed(id, a.config.serviceName);
    } else {
      QueryLength(id, a.config.serviceName);
      assert Received(query.bytes) == query.bytes;
      OwnQuestionsAreRecognized(id, query.from, a.config);
    }
  }

  lemma QueryLength(id: u16, name: Bytes)
    requires ValidName(name)
    ensures |QueryPacket(id, name)| == |name| + 18
  {
    EncodedNameLength(name);
  }

  /** `turn` gets as far as reading a query for the service of `b`. */
  predicate ReadsQuery(b: Local, s: IfaceState, turn: Turn, id: u16)
    requires ValidName(b.config.serviceName)
  {
    turn.Valid() && Reads(s, turn) && turn.read.Datagram? && turn.read.bytes == QueryPacket(id, b.config.serviceName)
  }

  /** A pass that reads a query for the node's service leaves the whole answer behind what waited: all packets
      of the listen addresses. It learns nothing from it. */
  lemma QueryIsAnswered(a: Local, s: IfaceState, turn: Turn, id: u16)
    requires a.Valid() && a.config.Spellable() && ComesBack(a.config.serviceName)
    requires ReadsQuery(a, s, turn, id)
    ensures var p := LoopPass(a, s, turn);
            && p.control == Again && p.found == [] && p.state.discovered == s.discovered
            && p.state.sendBuffer
               == s.sendBuffer + (if turn.tick then [QueryPacket(turn.queryId, a.config.serviceName)] else [])
                  + Answerer(a, id, turn.read.peerName).Packets(turn.read.listen)
  {
    hide Heard, QueryPacket, Sender.Packets, LoopPass;
    QueryIsHeardExactly(a, id, turn.read);
    HeardQueryIsAnswered(a, s, turn, turn.read.from, id);
    PassQueues(a, s, turn);
  }

  /** What a pass adds to the packets that wait to be sent, besides the query of a tick. */
  function AnswerOf(a: Local, s: IfaceState, turn: Turn): seq<Bytes>
    requires a.Valid() && turn.Valid()
  {
    var waiting := if turn.tick then |s.sendBuffer| + 1 else |s.sendBuffer|;
    var queued := LoopPass(a, s, turn).state.sendBuffer;
    if waiting <= |queued| then queued[waiting..] else []
  }

  lemma AnswerIsPackets(a: Local, s: IfaceState, turn: Turn, id: u16)
    requires a.Valid() && a.config.Spellable() && ComesBack(a.config.serviceName)
    requires ReadsQuery(a, s, turn, id)
    ensures AnswerOf(a, s, turn) == Answerer(a, id, turn.read.peerName).Packets(turn.read.listen)
  {
    hide QueryPacket, Sender.Packets, LoopPass;
    QueryIsAnswered(a, s, turn, id);
  }

  /** And the packets of the answer leave: with a socket that takes packets and no further work, what the task
      sends is what waited, then the whole answer. */
  lemma {:induction false} AnswerIsSent(a: Local, s: IfaceState, turn: Turn, id: u16, env: nat -> Turn)
    requires a.Valid() && a.config.Spellable() && ComesBack(a.config.serviceName)
    requires ReadsQuery(a, s, turn, id) && forall k: nat :: env(k).Valid()
    requires var t := LoopPass(a, s, turn).state;
             forall k: nat :: k < |t.sendBuffer| + |t.discovered| ==> Obliging(env(k))
    ensures var t := LoopPass(a, s, turn).state;
            Passes(a, t, env, |t.sendBuffer| + |t.discovered|).handed
            == s.sendBuffer + (if turn.tick then [QueryPacket(turn.queryId, a.config.serviceName)] else [])
               + Answerer(a, id, turn.read.peerName).Packets(turn.read.listen)
  {
    hide QueryPacket, Sender.Packets, LoopPass, Passes;
    QueryIsAnswered(a, s, turn, id);
    BuffersEmpty(a, LoopPass(a, s, turn).state, env);
  }

  /** What `b` takes from a packet of `addrs`: what it can translate to the address and UDP port the packet comes
      from, valid for the sender's time to live; nothing when it sent the packet itself. */
  function Taken(b: Local, sender: Sender, addrs: seq<Multiaddr>, from: SocketAddr, now: Instant): seq<Discovery> {
    if sender.peer == b.localPeer then []
    else
      var observed := [Valued(if from.ipv6 then Ip6 else Ip4, from.ip), Valued(Udp, from.port)];
      Translated(addrs, sender.peer, observed, now + sender.ttl * NANOS_PER_SEC, b.translate)
  }

  /** Datagrams with these packets in them, in order; each read in its own pass, at its own time. */
  ghost predicate Carry(heard: seq<ReadOutcome>, packets: seq<Bytes>) {
    |heard| == |packets| && forall i :: 0 <= i < |heard| ==> heard[i].Datagram? && heard[i].bytes == packets[i]
  }

  /** What `b` takes from each datagram. */
  function FoundEach(b: Local, heard: seq<ReadOutcome>): seq<seq<Discovery>> {
    seq(|heard|, i requires 0 <= i < |heard| => Findings(b, heard[i]))
  }

  /** What it takes from them when each announces `sender` with its piece of the addresses. */
  ghost function TakenEach(b: Local, sender: Sender, chunks: seq<seq<Multiaddr>>,
                           heard: seq<ReadOutcome>): seq<seq<Discovery>>
    requires |heard| == |chunks| && forall i :: 0 <= i < |heard| ==> heard[i].Datagram?
  {
    seq(|chunks|, i requires 0 <= i < |chunks| => Taken(b, sender, chunks[i], heard[i].from, heard[i].now))
  }

  lemma UnderstoodIsTaken(b: Local, sender: Sender, addrs: seq<Multiaddr>, read: ReadOutcome)
    requires read.Datagram? && |read.bytes| <= RECEIVE_BUFFER
    requires Understood(read.bytes, sender, addrs, read.from, b.config)
    ensures Findings(b, read) == Taken(b, sender, addrs, read.from, read.now)
  {
    hide NewFromBytes;
    assert Received(read.bytes) == read.bytes;
    var peers := Announced(sender, addrs);
    if addrs != [] {
      assert peers[1..] == [];
      assert ExtractFrom(peers[1..], read.from, read.now, b.localPeer, b.translate) == [];
      var taken := Taken(b, sender, addrs, read.from, read.now);
      assert taken + [] == taken;
    }
  }

  /** One datagram of an answer, whenever and from wherever it comes. */
  lemma PieceIsTaken(b: Local, sender: Sender, piece: seq<Multiaddr>, read: ReadOutcome)
    requires sender.Valid() && b.config.Spellable() && sender.serviceName == b.config.serviceName
    requires ComesBack(sender.serviceName) && AllAccepted(sender, piece) && SpaceFree(sender, piece)
    requires |piece| <= MAX_RECORDS_PER_PACKET && read.Datagram? && read.bytes == sender.Packet(piece)
    requires |read.bytes| <= RECEIVE_BUFFER
    ensures Findings(b, read) == Taken(b, sender, piece, read.from, read.now)
  {
    hide NewFromBytes, Findings, Sender.Packet;
    ReadPacket(sender, piece, read.from, b.config);
    UnderstoodIsTaken(b, sender, piece, read);
  }

  /** A query of `b`, the answer that a pass of `a` leaves to be sent, and what `b` takes from it: from each
      datagram its piece of the addresses `a` sends, translated to where the datagram comes from, in order, and
      valid for `a`'s time to live from when it is read; or nothing, when the two are the same peer. */
  lemma AnswerReachesAsker(a: Local, b: Local, s: IfaceState, turn: Turn, id: u16, heard: seq<ReadOutcome>)
    requires SameService(a, b) && ComesBack(a.config.serviceName)
    requires ReadsQuery(b, s, turn, id) && Carry(heard, AnswerOf(a, s, turn)) && AllFit(AnswerOf(a, s, turn))
    requires var sender := Answerer(a, id, turn.read.peerName); SpaceFree(sender, sender.Sendable(turn.read.listen))
    ensures var sender := Answerer(a, id, turn.read.peerName);
            var chunks := Chunks(sender.Sendable(turn.read.listen));
            && |heard| == |chunks| && Flatten(chunks) == sender.Sendable(turn.read.listen)
            && FoundEach(b, heard) == TakenEach(b, sender, chunks, heard)
  {
    hide QueryPacket, NewFromBytes, Findings, AnswerOf, Sender.Packet;
    var sender := Answerer(a, id, turn.read.peerName);
    var sendable := sender.Sendable(turn.read.listen);
    AnswerIsPackets(a, s, turn, id);
    AcceptedIsAccepted(sender, turn.read.listen[..Min(|turn.read.listen|, MAX_ADDRESSES)]);
    FlattenOfChunks(sendable);
    forall i | 0 <= i < |heard|
      ensures Findings(b, heard[i]) == Taken(b, sender, Chunks(sendable)[i], heard[i].from, heard[i].now)
    {
      assert |AnswerOf(a, s, turn)[i]| <= RECEIVE_BUFFER;
      ChunkMembers(sendable, i);
      ChunksSizes(sendable, i);
      PieceIsTaken(b, sender, Chunks(sendable)[i], heard[i]);
    }
  }

  // ---------------------------------------------------------------- exactly when the answer gets through

  function AddrsOf(found: seq<Discovery>): seq<Multiaddr> {
    seq(|found|, i requires 0 <= i < |found| => found[i].addr)
  }

  function AddrsOfEach(lists: seq<seq<Discovery>>): seq<seq<Multiaddr>> {
    seq(|lists|, i requires 0 <= i < |lists| => AddrsOf(lists[i]))
  }

  lemma {:induction false} AddrsOfFlatten(lists: seq<seq<Discovery>>)
    ensures AddrsOf(Flatten(lists)) == Flatten(AddrsOfEach(lists))
  {
    if lists != [] {
      AddrsOfFlatten(lists[1..]);
      assert AddrsOfEach(lists)[1..] == AddrsOfEach(lists[1..]);
      assert AddrsOf(Flatten(lists)) == AddrsOf(lists[0]) + AddrsOf(Flatten(lists[1..]));
    }
  }

  /** The translation that keeps every address as it is. */
  function Keep(addr: Multiaddr, observed: Multiaddr): Option<Multiaddr> {
    Some(addr)
  }

  lemma {:induction false} KeptAddrs(addrs: seq<Multiaddr>, peer: PeerId, observed: Multiaddr, expiration: Instant)
    ensures AddrsOf(Translated(addrs, peer, observed, expiration, Keep)) == addrs
  {
    if addrs != [] {
      KeptAddrs(addrs[1..], peer, observed, expiration);
      assert AddrsOf(Translated(addrs, peer, observed, expiration, Keep))
          == [addrs[0]] + AddrsOf(Translated(addrs[1..], peer, observed, expiration, Keep));
    }
  }

  lemma {:induction false} ExtractOne(peer: MdnsPeer, from: SocketAddr, now: Instant, localPeer: PeerId)
    ensures var addrs := AddrsOf(ExtractFrom([peer], from, now, localPeer, Keep));
            addrs == [] || addrs == AddressesOf([peer])
  {
    var taken := Translated(peer.addrs, peer.peerId, ObservedAddress(from), now + peer.ttl * NANOS_PER_SEC, Keep);
    KeptAddrs(peer.addrs, peer.peerId, ObservedAddress(from), now + peer.ttl * NANOS_PER_SEC);
    assert [peer][1..] == [];
    assert ExtractFrom([peer][1..], from, now, localPeer, Keep) == [] && AddressesOf([peer][1..]) == [];
    assert taken + [] == taken && peer.addrs + [] == peer.addrs;
  }

  lemma {:induction false} FindingsOf(b: Local, read: ReadOutcome, peers: seq<MdnsPeer>)
    requires read.Datagram? && |read.bytes| <= RECEIVE_BUFFER
    requires NewFromBytes(read.bytes, read.from, b.config.serviceNameFqdn, b.config.metaQueryServiceFqdn)
          == Result.Ok(Some(Response(MdnsResponse(peers, read.from))))
    ensures Findings(b, read) == ExtractFrom(peers, read.from, read.now, b.localPeer, b.translate)
    ensures Learned(read.bytes, read.from, b.config) == AddressesOf(peers)
  {
    hide NewFromBytes;
    assert Received(read.bytes) == read.bytes;
  }

  lemma NothingFromMalformed(b: Local, read: ReadOutcome)
    requires read.Datagram? && DecodeMessage(Received(read.bytes)).Malformed?
    ensures Findings(b, read) == []
  {
    hide DecodeMessage;
  }

  /** What a decoded packet is classified as: a response with one answer, of one peer or none. */
  lemma PacketIsResponse(sender: Sender, addrs: seq<Multiaddr>, from: SocketAddr,
                         config: Config) returns (peer: Option<MdnsPeer>)
    requires sender.Valid() && AllAccepted(sender, addrs) && |addrs| <= MAX_RECORDS_PER_PACKET
    requires DecodeMessage(sender.Packet(addrs)).Parsed?
    ensures NewFromBytes(sender.Packet(addrs), from, config.serviceNameFqdn, config.metaQueryServiceFqdn)
         == Result.Ok(Some(Response(MdnsResponse(if peer.Some? then [peer.value] else [], from))))
  {
    DecodeOfPacket(sender, addrs);
    hide DecodeMessage, Sender.Packet;
    var packet := DecodeMessage(sender.Packet(addrs)).value;
    peer := PeerOfAnswer(packet, AnswerRead(sender), config.serviceNameFqdn);
    PeersOfOneAnswer(packet, AnswerRead(sender), config.serviceNameFqdn);
  }

  /** Without translation, the addresses taken from a packet are those learned from it, or none. */
  lemma FoundIsLearned(b: Local, sender: Sender, addrs: seq<Multiaddr>, read: ReadOutcome)
    requires sender.Valid() && AllAccepted(sender, addrs) && |addrs| <= MAX_RECORDS_PER_PACKET
    requires b.translate == Keep && read.Datagram? && read.bytes == sender.Packet(addrs)
    ensures var found := AddrsOf(Findings(b, read));
            found == [] || (|read.bytes| <= RECEIVE_BUFFER && found == Learned(read.bytes, read.from, b.config))
  {
    hide DecodeMessage, NewFromBytes, Findings, Learned, Sender.Packet;
    if |read.bytes| > RECEIVE_BUFFER {
      TooLongIsMalformed(sender, addrs);
      NothingFromMalformed(b, read);
    } else if DecodeMessage(read.bytes).Malformed? {
      assert Received(read.bytes) == read.bytes;
      NothingFromMalformed(b, read);
    } else {
      var peer := PacketIsResponse(sender, addrs, read.from, b.config);
      FindingsOf(b, read, if peer.Some? then [peer.value] else []);
      if peer.Some? {
        ExtractOne(peer.value, read.from, read.now, b.localPeer);
      }
    }
  }

  lemma LearnedFromAnywhere(packet: Bytes, from: SocketAddr, other: SocketAddr, config: Config)
    ensures Learned(packet, from, config) == Learned(packet, other, config)
  {
    hide DecodeMessage;
  }

  lemma PartlyFound(b: Local, sender: Sender, sendable: seq<Multiaddr>, heard: seq<ReadOutcome>, from: SocketAddr)
    requires sender.Valid() && AllAccepted(sender, sendable)
    requires b.translate == Keep && Carry(heard, sender.PacketsOf(sendable))
    ensures var lists := AddrsOfEach(FoundEach(b, heard));
            && Partly(lists, sender, sendable, from, b.config)
            && forall i :: 0 <= i < |lists| ==> lists[i] == [] || |sender.PacketsOf(sendable)[i]| <= RECEIVE_BUFFER
  {
    hide Findings, Learned, Sender.Packet;
    forall i | 0 <= i < |heard|
      ensures var list := AddrsOf(Findings(b, heard[i]));
              list == [] || (|heard[i].bytes| <= RECEIVE_BUFFER && list == Learned(heard[i].bytes, from, b.config))
    {
      ChunkMembers(sendable, i);
      ChunksSizes(sendable, i);
      FoundIsLearned(b, sender, Chunks(sendable)[i], heard[i]);
      LearnedFromAnywhere(heard[i].bytes, heard[i].from, from, b.config);
    }
  }

  /** Everything is taken that `sender` sent. */
  ghost predicate TakesAll(b: Local, sender: Sender, sendable: seq<Multiaddr>, heard: seq<ReadOutcome>) {
    && |heard| == |Chunks(sendable)| && (forall i :: 0 <= i < |heard| ==> heard[i].Datagram?)
    && Flatten(FoundEach(b, heard)) == Flatten(TakenEach(b, sender, Chunks(sendable), heard))
  }

  lemma {:induction false} KeptIsSent(b: Local, sender: Sender, sendable: seq<Multiaddr>, heard: seq<ReadOutcome>)
    requires b.translate == Keep && b.localPeer != sender.peer
    requires TakesAll(b, sender, sendable, heard)
    ensures Flatten(AddrsOfEach(FoundEach(b, heard))) == sendable
  {
    hide Findings;
    var taken := TakenEach(b, sender, Chunks(sendable), heard);
    AddrsOfFlatten(FoundEach(b, heard));
    AddrsOfFlatten(taken);
    forall i | 0 <= i < |heard| ensures AddrsOf(taken[i]) == Chunks(sendable)[i] {
      KeptAddrs(Chunks(sendable)[i], sender.peer, ObservedAddress(heard[i].from),
                heard[i].now + sender.ttl * NANOS_PER_SEC);
    }
    assert AddrsOfEach(taken) == Chunks(sendable);
    FlattenOfChunks(sendable);
  }

  lemma TakenOnlyIf(b: Local, sender: Sender, sendable: seq<Multiaddr>, heard: seq<ReadOutcome>)
    requires sender.Valid() && b.config.Spellable() && sender.serviceName == b.config.serviceName
    requires AllAccepted(sender, sendable) && ComesBack(sender.serviceName)
    requires b.translate == Keep && b.localPeer != sender.peer && Carry(heard, sender.PacketsOf(sendable))
    requires TakesAll(b, sender, sendable, heard)
    ensures SpaceFree(sender, sendable) && AllFit(sender.PacketsOf(sendable))
  {
    hide Findings, Learned, Sender.Packet, Partly, TakesAll;
    if sendable == [] {
      EmptyPacketFits(sender);
    } else {
      var lists, from := AddrsOfEach(FoundEach(b, heard)), heard[0].from;
      PartlyFound(b, sender, sendable, heard, from);
      KeptIsSent(b, sender, sendable, heard);
      LearnedOnlyIf(sender, sendable, lists, from, b.config);
      NonEmptyChunks(sendable);
      forall i | 0 <= i < |heard| ensures |sender.PacketsOf(sendable)[i]| <= RECEIVE_BUFFER {
        assert lists[i] != [];
      }
    }
  }

  /** Two different peers: the query is heard and, whatever the asker's translation is, all that was sent is
      taken from what the answerer's pass leaves to be sent, if and only if the service name comes back, no value
      sent has a space, and every packet of the answer fits the receive buffer. */
  lemma AnswerTakenExactly(a: Local, b: Local, s: IfaceState, turn: Turn, id: u16, heard: seq<ReadOutcome>)
    requires SameService(a, b) && a.localPeer != b.localPeer
    requires ReadsQuery(b, s, turn, id) && Carry(heard, AnswerOf(a, s, turn))
    ensures var sender := Answerer(a, id, turn.read.peerName);
            var sendable := sender.Sendable(turn.read.listen);
            && Heard(a, turn.read) == Result.Ok(Some(Query(turn.read.from, id)))
            && (forall translate: Translation :: TakesAll(b.(translate := translate), sender, sendable, heard))
            <==> && ComesBack(a.config.serviceName) && SpaceFree(sender, sendable)
                 && AllFit(sender.Packets(turn.read.listen))
  {
    hide QueryPacket, Findings, AnswerOf, Heard, Sender.Packet, TakesAll;
    var sender := Answerer(a, id, turn.read.peerName);
    var sendable := sender.Sendable(turn.read.listen);
    QueryIsHeardExactly(a, id, turn.read);
    if ComesBack(a.config.serviceName) {
      AnswerIsPackets(a, s, turn, id);
      AcceptedIsAccepted(sender, turn.read.listen[..Min(|turn.read.listen|, MAX_ADDRESSES)]);
      if SpaceFree(sender, sendable) && AllFit(AnswerOf(a, s, turn)) {
        forall translate: Translation ensures TakesAll(b.(translate := translate), sender, sendable, heard) {
          TakesAllOf(a, b.(translate := translate), s, turn, id, heard);
        }
      } else if TakesAll(b.(translate := Keep), sender, sendable, heard) {
        TakenOnlyIf(b.(translate := Keep), sender, sendable, heard);
      }
    }
  }

  lemma TakesAllOf(a: Local, b: Local, s: IfaceState, turn: Turn, id: u16, heard: seq<ReadOutcome>)
    requires SameService(a, b) && ComesBack(a.config.serviceName)
    requires ReadsQuery(b, s, turn, id) && Carry(heard, AnswerOf(a, s, turn)) && AllFit(AnswerOf(a, s, turn))
    requires var sender := Answerer(a, id, turn.read.peerName); SpaceFree(sender, sender.Sendable(turn.read.listen))
    ensures var sender := Answerer(a, id, turn.read.peerName);
            TakesAll(b, sender, sender.Sendable(turn.read.listen), heard)
  {
    hide QueryPacket, Findings, AnswerOf, Sender.Sendable;
    AnswerReachesAsker(a, b, s, turn, id, heard);
  }

  // ---------------------------------------------------------------- what the asker offers for dialing

  lemma {:induction false} TranslatedMember(addrs: seq<Multiaddr>, addr: Multiaddr, peer: PeerId, observed: Multiaddr,
                                            expiration: Instant, translate: Translation)
    requires addr in addrs && translate(addr, observed).Some?
    ensures Discovery(peer, translate(addr, observed).value, expiration)
            in Translated(addrs, peer, observed, expiration, translate)
  {
    if addrs[0] != addr {
      assert addrs == [addrs[0]] + addrs[1..];
      TranslatedMember(addrs[1..], addr, peer, observed, expiration, translate);
    }
  }

  /** A packet of an answer gets through: no value in this packet has a space, and it fits the buffer. */
  ghost predicate PieceArrives(b: Local, sender: Sender, piece: seq<Multiaddr>, read: ReadOutcome) {
    && sender.Valid() && b.Valid() && b.config.Spellable() && sender.serviceName == b.config.serviceName
    && ComesBack(sender.serviceName) && AllAccepted(sender, piece) && SpaceFree(sender, piece)
    && |piece| <= MAX_RECORDS_PER_PACKET && read.Datagram? && read.bytes == sender.Packet(piece)
    && |read.bytes| <= RECEIVE_BUFFER && sender.peer != b.localPeer
  }

  /** A datagram with a packet of the answer of `a`, when it fits and no value of its piece has a space. */
  lemma AnswerPieceArrives(a: Local, b: Local, s: IfaceState, turn: Turn, id: u16, i: nat, read: ReadOutcome)
    requires SameService(a, b) && a.localPeer != b.localPeer && ComesBack(a.config.serviceName)
    requires ReadsQuery(b, s, turn, id) && i < |AnswerOf(a, s, turn)|
    requires read.Datagram? && read.bytes == AnswerOf(a, s, turn)[i] && |read.bytes| <= RECEIVE_BUFFER
    ensures var sender := Answerer(a, id, turn.read.peerName);
            var chunks := Chunks(sender.Sendable(turn.read.listen));
            && i < |chunks| && (SpaceFree(sender, chunks[i]) ==> PieceArrives(b, sender, chunks[i], read))
  {
    hide QueryPacket, AnswerOf, Sender.Packet;
    var sender := Answerer(a, id, turn.read.peerName);
    var sendable := sender.Sendable(turn.read.listen);
    AnswerIsPackets(a, s, turn, id);
    AcceptedIsAccepted(sender, turn.read.listen[..Min(|turn.read.listen|, MAX_ADDRESSES)]);
    ChunkMembers(sendable, i);
    ChunksSizes(sendable, i);
  }

  /** An address that `b` hears of in a datagram, translated to where the datagram comes from. */
  function Reach(b: Local, addr: Multiaddr, from: SocketAddr): Option<Multiaddr> {
    b.translate(addr, [Valued(if from.ipv6 then Ip6 else Ip4, from.ip), Valued(Udp, from.port)])
  }

  /** An address of that piece, as the receiver keeps it. */
  function Kept(b: Local, sender: Sender, addr: Multiaddr, read: ReadOutcome): Discovery
    requires read.Datagram? && Reach(b, addr, read.from).Some?
  {
    Discovery(sender.peer, Reach(b, addr, read.from).value, read.now + sender.ttl * NANOS_PER_SEC)
  }

  lemma {:induction false} PieceIsFound(b: Local, sender: Sender, piece: seq<Multiaddr>, read: ReadOutcome,
                                        addr: Multiaddr)
    requires PieceArrives(b, sender, piece, read)
    requires addr in piece && Reach(b, addr, read.from).Some?
    ensures Kept(b, sender, addr, read) in Findings(b, read)
  {
    hide Findings, Sender.Packet;
    PieceIsTaken(b, sender, piece, read);
    TranslatedMember(piece, addr, sender.peer, ObservedAddress(read.from),
                     read.now + sender.ttl * NANOS_PER_SEC, b.translate);
  }

  /** Once its behaviour has polled, and through every later poll before the time to live runs out, the asker
      offers every address of the answer that it can translate, whatever it knew before. */
  lemma {:induction false} AskerCanDial(b: Local, sender: Sender, piece: seq<Multiaddr>, read: ReadOutcome,
                                        addr: Multiaddr,
                     earlier: seq<T.Input>, input: T.Input, later: seq<T.Input>)
    requires PieceArrives(b, sender, piece, read)
    requires addr in piece && Reach(b, addr, read.from).Some?
    requires forall d :: d in Findings(b, read) ==> d in input.received
    requires input.now < Kept(b, sender, addr, read).expiration
    requires forall k :: 0 <= k < |later| ==> later[k].now < Kept(b, sender, addr, read).expiration
    ensures Kept(b, sender, addr, read).addr
            in T.AddressesOfPeer(T.RunPolls(earlier + [input] + later).state.nodes, sender.peer)
  {
    hide Findings, T.RunPolls, Sender.Packet;
    PieceIsFound(b, sender, piece, read, addr);
    T.ReceivedStaysOffered(earlier, input, later, Kept(b, sender, addr, read));
  }

  /** The same in a run of the whole protocol: a task of the asker reads a datagram of the answer; once all
      that the task had extracted by then has come through its queue and the channel and been absorbed, and
      through every poll before the time to live runs out, the address is offered, whatever else happens. */
  lemma {:induction false} AnswerIsOfferedInRun(node: D.Node, before: seq<D.Happening>, t: nat, turn: Turn,
                                                more: seq<D.Happening>,
                             sender: Sender, piece: seq<Multiaddr>, addr: Multiaddr)
    requires node.Valid() && forall k :: 0 <= k < |before + [D.Turned(t, turn)] + more| ==>
               D.Admissible((before + [D.Turned(t, turn)] + more)[k])
    requires forall k :: 0 <= k < |before| ==> D.Admissible(before[k])
    requires turn.Valid() && t < |D.After(node, before).tasks| && D.After(node, before).tasks[t].alive
    requires var task := D.After(node, before).tasks[t];
             && Reads(task.state, turn) && PieceArrives(task.local, sender, piece, turn.read)
             && addr in piece && Reach(task.local, addr, turn.read.from).Some?
    requires var d := Kept(D.After(node, before).tasks[t].local, sender, addr, turn.read);
             forall k :: 0 <= k < |more| && more[k].Polled? ==> more[k].now < d.expiration
    requires |D.From(D.After(node, before + [D.Turned(t, turn)] + more).absorbed, t)|
          >= |D.After(node, before).tasks[t].extracted| + |Findings(D.After(node, before).tasks[t].local, turn.read)|
    ensures Kept(D.After(node, before).tasks[t].local, sender, addr, turn.read).addr
            in T.AddressesOfPeer(D.After(node, before + [D.Turned(t, turn)] + more).table.nodes, sender.peer)
  {
    hide Findings, LoopPass, D.After, D.From, Sender.Packet;
    var task := D.After(node, before).tasks[t];
    PassQueues(task.local, task.state, turn);
    PieceIsFound(task.local, sender, piece, turn.read, addr);
    D.FoundIsOffered(node, before, t, turn, more, Kept(task.local, sender, addr, turn.read));
  }
}
