/** Received packets: classification, the peers a response announces, and the addresses taken from it. */
module Query {
  import opened Bytes
  import opened Time
  import opened Names
  import opened Messages
  import opened Multiaddrs
  import opened Dns

  /** Source of a datagram, with the texts its components print as. */
  datatype SocketAddr = SocketAddr(ipv6: bool, ip: Segment, port: Segment)

  datatype MdnsPeer = MdnsPeer(addrs: seq<Multiaddr>, peerId: PeerId, ttl: u32)

  datatype MdnsResponse = MdnsResponse(peers: seq<MdnsPeer>, from: SocketAddr)

  datatype MdnsPacket =
    | Query(from: SocketAddr, queryId: u16)
    | Response(response: MdnsResponse)
    | ServiceDiscovery(from: SocketAddr, queryId: u16)

  /** An address found for a peer, and when it stops being valid. */
  datatype Discovery = Discovery(peer: PeerId, addr: Multiaddr, expiration: Instant)

  // ---------------------------------------------------------------- one TXT string

  datatype Candidate = Candidate(addr: Multiaddr, peer: PeerId)

  /** Strips the surrounding quotes of a quoted string; escapes stay as they are. */
  function DecodeCharacterString(from: Bytes): Result<Bytes, ()> {
    if from == [] then Ok([])
    else if from[0] == QUOTE then
      if |from| == 1 || from[|from| - 1] != QUOTE then Err(()) else Ok(from[1..|from| - 1])
    else Ok(from)
  }

  /** The address and peer id of one TXT string, if it is a well-formed `dnsaddr` ending in `/p2p/<peer>`. */
  function ParseCandidate(txt: Bytes): Option<Candidate> {
    match DecodeCharacterString(txt)
    case Err(_) => None
    case Ok(text) =>
      if |text| < 8 || text[..8] != Ascii("dnsaddr=") || !IsUtf8(text[8..]) then None
      else
        var addr :- Parse(text[8..]);
        if addr != [] && addr[|addr| - 1].P2p? then
          Some(Candidate(addr[..|addr| - 1], addr[|addr| - 1].peer))
        else None
  }

  // ---------------------------------------------------------------- the peer of one answer

  /** The TXT strings under a name, record by record. */
  function StringsUnder(records: seq<Record>, name: Labels): seq<Bytes> {
    if records == [] then []
    else
      (if SameName(records[0].name, name) && records[0].data.Txt? then records[0].data.strings else [])
      + StringsUnder(records[1..], name)
  }

  function Candidates(strings: seq<Bytes>): seq<Candidate> {
    FilterMap(ParseCandidate, strings)
  }

  /** The addresses announced for `peer`, in order. */
  function AddressesFor(candidates: seq<Candidate>, peer: PeerId): seq<Multiaddr> {
    if candidates == [] then []
    else (if candidates[0].peer == peer then [candidates[0].addr] else []) + AddressesFor(candidates[1..], peer)
  }

  /** The first valid candidate names the peer; only candidates naming that peer count. */
  function PeerFrom(candidates: seq<Candidate>, ttl: u32): Option<MdnsPeer> {
    if candidates == [] then None
    else Some(MdnsPeer(AddressesFor(candidates, candidates[0].peer), candidates[0].peer, ttl))
  }

  function PeerUnder(additionals: seq<Record>, name: Labels, ttl: u32): Option<MdnsPeer> {
    PeerFrom(Candidates(StringsUnder(additionals, name)), ttl)
  }

  /** A string is unquoted to `text` just when it is the text, and does not begin with a quote, or the text
      between two quotes. */
  lemma UnquotedExactly(from: Bytes, text: Bytes)
    ensures DecodeCharacterString(from) == Result.Ok(text)
            <==> (from == text && (text == [] || text[0] != QUOTE)) || from == [QUOTE] + text + [QUOTE]
  {
    if DecodeCharacterString(from) == Result.Ok(text) && from != text {
      assert from == [QUOTE] + from[1..|from| - 1] + [QUOTE];
    }
  }

  lemma {:induction false} StringsUnderAreTexts(records: seq<Record>, name: Labels,
                                                textsOf: Record -> Option<seq<Bytes>>)
    requires forall r :: textsOf(r) == if SameName(r.name, name) && r.data.Txt? then Some(r.data.strings) else None
    ensures StringsUnder(records, name) == Flatten(FilterMap(textsOf, records))
  {
    if records != [] {
      StringsUnderAreTexts(records[1..], name, textsOf);
      FlattenHead(textsOf, records);
    }
  }

  lemma {:induction false} FlattenHead<A, B>(f: A -> Option<seq<B>>, xs: seq<A>)
    requires xs != []
    ensures Flatten(FilterMap(f, xs))
         == (if f(xs[0]).Some? then f(xs[0]).value else []) + Flatten(FilterMap(f, xs[1..]))
  {
    if f(xs[0]).Some? {
      assert FilterMap(f, xs)[1..] == FilterMap(f, xs[1..]);
    } else {
      assert FilterMap(f, xs) == FilterMap(f, xs[1..]);
    }
  }

  lemma {:induction false} AddressesForAreNamed(candidates: seq<Candidate>, peer: PeerId,
                                                addrOf: Candidate -> Option<Multiaddr>)
    requires forall c :: addrOf(c) == if c.peer == peer then Some(c.addr) else None
    ensures AddressesFor(candidates, peer) == FilterMap(addrOf, candidates)
  {
    if candidates != [] {
      AddressesForAreNamed(candidates[1..], peer, addrOf);
    }
  }

  /** The peer under a name, whatever records come with it: of all strings of TXT records under the name, in
      order, the first valid one says who it is, and every valid one that says the same adds its address. */
  lemma {:induction false} PeerUnderExactly(additionals: seq<Record>, name: Labels, ttl: u32,
                                            textsOf: Record -> Option<seq<Bytes>>,
                                            addrOf: PeerId -> Candidate -> Option<Multiaddr>)
    requires forall r :: textsOf(r) == if SameName(r.name, name) && r.data.Txt? then Some(r.data.strings) else None
    requires forall p, c :: addrOf(p)(c) == if c.peer == p then Some(c.addr) else None
    ensures var valid := FilterMap(ParseCandidate, Flatten(FilterMap(textsOf, additionals)));
            PeerUnder(additionals, name, ttl)
            == if valid == [] then None
               else Some(MdnsPeer(FilterMap(addrOf(valid[0].peer), valid), valid[0].peer, ttl))
  {
    hide ParseCandidate, SameName;
    StringsUnderAreTexts(additionals, name, textsOf);
    var valid := Candidates(StringsUnder(additionals, name));
    if valid != [] {
      AddressesForAreNamed(valid, valid[0].peer, addrOf(valid[0].peer));
    }
  }

  lemma {:induction false} StringsUnderSnoc(records: seq<Record>, r: Record, name: Labels)
    ensures StringsUnder(records + [r], name)
         == StringsUnder(records, name) + if SameName(r.name, name) && r.data.Txt? then r.data.strings else []
  {
    if records == [] {
      assert (records + [r])[1..] == [];
    } else {
      StringsUnderSnoc(records[1..], r, name);
      assert (records + [r])[1..] == records[1..] + [r];
    }
  }

  lemma {:induction false} AddressesForSnoc(candidates: seq<Candidate>, c: Candidate, peer: PeerId)
    ensures AddressesFor(candidates + [c], peer)
         == AddressesFor(candidates, peer) + if c.peer == peer then [c.addr] else []
  {
    if candidates == [] {
      assert (candidates + [c])[1..] == [];
    } else {
      AddressesForSnoc(candidates[1..], c, peer);
      assert (candidates + [c])[1..] == candidates[1..] + [c];
    }
  }

  /** The state the filtering closure carries: the peer id seen first and the addresses kept. */
  ghost predicate Folded(candidates: seq<Candidate>, myPeerId: Option<PeerId>, addrs: seq<Multiaddr>) {
    if candidates == [] then myPeerId == None && addrs == []
    else myPeerId == Some(candidates[0].peer) && addrs == AddressesFor(candidates, candidates[0].peer)
  }

  /** One call of the closure. */
  method FoldString(txt: Bytes, myPeerId: Option<PeerId>, addrs: seq<Multiaddr>, ghost seen: seq<Candidate>)
    returns (myPeerId': Option<PeerId>, addrs': seq<Multiaddr>)
    requires Folded(seen, myPeerId, addrs)
    ensures Folded(seen + Candidates([txt]), myPeerId', addrs')
  {
    myPeerId', addrs' := myPeerId, addrs;
    ghost var c := ParseCandidate(txt);
    FilterMapOne(ParseCandidate, txt);
    assert Candidates([txt]) == if c.Some? then [c.value] else [];
    assert c.None? ==> seen + Candidates([txt]) == seen;
    var decoded := DecodeCharacterString(txt);
    if decoded.Err? {
      return;
    }
    var text := decoded.value;
    if |text| < 8 || text[..8] != Ascii("dnsaddr=") {
      return;
    }
    if !IsUtf8(text[8..]) {
      return;
    }
    var parsed := Parse(text[8..]);
    if parsed.None? {
      return;
    }
    var addr := parsed.value;
    if addr == [] || !addr[|addr| - 1].P2p? {
      return;
    }
    var peerId := addr[|addr| - 1].peer;
    addr := addr[..|addr| - 1];
    AddressesForSnoc(seen, c.value, if seen == [] then peerId else seen[0].peer);
    if myPeerId.Some? {
      if peerId != myPeerId.value {
        return;
      }
    } else {
      myPeerId' := Some(peerId);
    }
    addrs' := addrs + [addr];
  }

  method FoldStrings(txts: seq<Bytes>, myPeerId: Option<PeerId>, addrs: seq<Multiaddr>, ghost strings: seq<Bytes>)
    returns (myPeerId': Option<PeerId>, addrs': seq<Multiaddr>)
    requires Folded(Candidates(strings), myPeerId, addrs)
    ensures Folded(Candidates(strings + txts), myPeerId', addrs')
  {
    myPeerId', addrs' := myPeerId, addrs;
    assert strings + txts[..0] == strings;
    for j := 0 to |txts|
      invariant Folded(Candidates(strings + txts[..j]), myPeerId', addrs')
    {
      FilterMapCat(ParseCandidate, strings + txts[..j], [txts[j]]);
      assert strings + txts[..j] + [txts[j]] == strings + txts[..j + 1];
      myPeerId', addrs' := FoldString(txts[j], myPeerId', addrs', Candidates(strings + txts[..j]));
    }
    assert txts[..|txts|] == txts;
  }

  /** Traverses the additional records, setting `myPeerId` at the first valid string. */
  method NewPeer(packet: Message, recordValue: Labels, ttl: u32) returns (peer: Option<MdnsPeer>)
    ensures peer == PeerUnder(packet.additionals, recordValue, ttl)
  {
    var myPeerId: Option<PeerId> := None;
    var addrs: seq<Multiaddr> := [];
    var i := 0;
    ghost var strings: seq<Bytes> := [];
    while i < |packet.additionals|
      invariant 0 <= i <= |packet.additionals|
      invariant strings == StringsUnder(packet.additionals[..i], recordValue)
      invariant Folded(Candidates(strings), myPeerId, addrs)
    {
      var record := packet.additionals[i];
      StringsUnderSnoc(packet.additionals[..i], record, recordValue);
      assert packet.additionals[..i + 1] == packet.additionals[..i] + [record];
      if SameName(record.name, recordValue) && record.data.Txt? {
        myPeerId, addrs := FoldStrings(record.data.strings, myPeerId, addrs, strings);
        strings := strings + record.data.strings;
      }
      i := i + 1;
    }
    assert packet.additionals[..|packet.additionals|] == packet.additionals;
    peer := if myPeerId.Some? then Some(MdnsPeer(addrs, myPeerId.value, ttl)) else None;
  }

  // ---------------------------------------------------------------- responses

  /** The peer announced by one answer: a pointer from the service name. */
  function PeerOfAnswer(packet: Message, answer: Record, serviceNameFqdn: Bytes): Option<MdnsPeer> {
    if Render(answer.name) != serviceNameFqdn || !answer.data.Ptr? then None
    else PeerUnder(packet.additionals, answer.data.target, answer.ttl)
  }

  function PeersOf(packet: Message, answers: seq<Record>, serviceNameFqdn: Bytes): seq<MdnsPeer> {
    if answers == [] then []
    else
      var peer := PeerOfAnswer(packet, answers[0], serviceNameFqdn);
      (if peer.Some? then [peer.value] else []) + PeersOf(packet, answers[1..], serviceNameFqdn)
  }

  lemma {:induction false} PeersOfOneAnswer(packet: Message, answer: Record, serviceNameFqdn: Bytes)
    ensures var peer := PeerOfAnswer(packet, answer, serviceNameFqdn);
            PeersOf(packet, [answer], serviceNameFqdn) == if peer.Some? then [peer.value] else []
  {
    assert PeersOf(packet, [answer][1..], serviceNameFqdn) == [];
  }

  /** The peers of a response, whatever answers it has: one for each pointer from the service name under whose
      target there is one, in order, with that answer's time to live. */
  lemma {:induction false} PeersExactly(packet: Message, answers: seq<Record>, serviceNameFqdn: Bytes,
                                        peerOf: Record -> Option<MdnsPeer>)
    requires forall r :: peerOf(r) == if Render(r.name) == serviceNameFqdn && r.data.Ptr?
                                      then PeerUnder(packet.additionals, r.data.target, r.ttl) else None
    ensures PeersOf(packet, answers, serviceNameFqdn) == FilterMap(peerOf, answers)
  {
    hide PeerUnder, Render;
    if answers != [] {
      PeersExactly(packet, answers[1..], serviceNameFqdn, peerOf);
    }
  }

  function NewResponse(packet: Message, from: SocketAddr, serviceNameFqdn: Bytes): MdnsResponse {
    MdnsResponse(PeersOf(packet, packet.answers, serviceNameFqdn), from)
  }

  /** Whether some question asks for `fqdn`. */
  predicate Asks(packet: Message, fqdn: Bytes) {
    exists i :: 0 <= i < |packet.queries| && Render(packet.queries[i].name) == fqdn
  }

  function Classify(packet: Message, from: SocketAddr, serviceNameFqdn: Bytes,
                    metaQueryServiceFqdn: Bytes): Option<MdnsPacket> {
    if packet.queries == [] then Some(Response(NewResponse(packet, from, serviceNameFqdn)))
    else if Asks(packet, serviceNameFqdn) then Some(Query(from, packet.id))
    else if Asks(packet, metaQueryServiceFqdn) then Some(ServiceDiscovery(from, packet.id))
    else None
  }

  /** `Err` stands for a packet that does not parse, `Ok(None)` for one that is not ours. */
  function NewFromBytes(buf: Bytes, from: SocketAddr, serviceNameFqdn: Bytes, metaQueryServiceFqdn: Bytes)
    : Result<Option<MdnsPacket>, ()>
  {
    match DecodeMessage(buf)
    case Malformed => Err(())
    case Parsed(packet, _) => Ok(Classify(packet, from, serviceNameFqdn, metaQueryServiceFqdn))
  }

  // ---------------------------------------------------------------- extraction

  /** Replaces the address part of a listen address by the one a peer was observed at, where it can. */
  type Translation = (Multiaddr, Multiaddr) -> Option<Multiaddr>

  function ObservedAddress(from: SocketAddr): Multiaddr {
    [Valued(if from.ipv6 then Ip6 else Ip4, from.ip), Valued(Udp, from.port)]
  }

  /** The observed address reads `/ip4/<ip>/udp/<port>`, or `/ip6/<ip>/udp/<port>`. */
  lemma ObservedText(from: SocketAddr)
    ensures Print(ObservedAddress(from))
         == Ascii(if from.ipv6 then "/ip6/" else "/ip4/") + from.ip + Ascii("/udp/") + from.port
  {
    var kind := if from.ipv6 then Ip6 else Ip4;
    var addr := ObservedAddress(from);
    var start: seq<Bytes> := [[]];
    SegmentsCons(addr[0], [addr[1]]);
    SegmentsCons(addr[1], []);
    assert [addr[0]] + [addr[1]] == addr && [addr[1]] + [] == [addr[1]];
    assert start + Segments(addr) == start + [kind.Name(), from.ip] + [Udp.Name(), from.port];
    JoinTwoMore(start, kind.Name(), from.ip, SLASH);
    JoinTwoMore(start + [kind.Name(), from.ip], Udp.Name(), from.port, SLASH);
    assert [] + ([SLASH] + kind.Name() + [SLASH]) == Ascii(if from.ipv6 then "/ip6/" else "/ip4/");
    assert [SLASH] + Udp.Name() + [SLASH] == Ascii("/udp/");
  }

  function Translated(addrs: seq<Multiaddr>, peer: PeerId, observed: Multiaddr, expiration: Instant,
                      translate: Translation)
    : seq<Discovery>
  {
    if addrs == [] then []
    else
      var addr := translate(addrs[0], observed);
      (if addr.Some? then [Discovery(peer, addr.value, expiration)] else [])
      + Translated(addrs[1..], peer, observed, expiration, translate)
  }

  function ExtractFrom(peers: seq<MdnsPeer>, from: SocketAddr, now: Instant, localPeer: PeerId, translate: Translation)
    : seq<Discovery>
  {
    if peers == [] then []
    else
      var p := peers[0];
      (if p.peerId == localPeer then []
       else Translated(p.addrs, p.peerId, ObservedAddress(from), now + p.ttl * NANOS_PER_SEC, translate))
      + ExtractFrom(peers[1..], from, now, localPeer, translate)
  }

  function ExtractDiscovered(response: MdnsResponse, now: Instant, localPeer: PeerId, translate: Translation)
    : seq<Discovery>
  {
    ExtractFrom(response.peers, response.from, now, localPeer, translate)
  }

  lemma {:induction false} TranslatedAre(addrs: seq<Multiaddr>, peer: PeerId, observed: Multiaddr, expiration: Instant,
                                         translate: Translation, taken: Multiaddr -> Option<Discovery>)
    requires forall addr :: var to := translate(addr, observed);
                            taken(addr) == if to.Some? then Some(Discovery(peer, to.value, expiration)) else None
    ensures Translated(addrs, peer, observed, expiration, translate) == FilterMap(taken, addrs)
  {
    if addrs != [] {
      TranslatedAre(addrs[1..], peer, observed, expiration, translate, taken);
    }
  }

  /** What is taken from a response, whatever peers it announces: for each peer but the local one, in order, its
      addresses as far as they can be translated to where the response comes from, valid for that peer's time to
      live. */
  lemma {:induction false} ExtractedExactly(peers: seq<MdnsPeer>, from: SocketAddr, now: Instant, localPeer: PeerId,
                                            translate: Translation, taken: MdnsPeer -> Multiaddr -> Option<Discovery>,
                                            takenOf: MdnsPeer -> Option<seq<Discovery>>)
    requires forall p, addr ::
               var to := translate(addr, [Valued(if from.ipv6 then Ip6 else Ip4, from.ip), Valued(Udp, from.port)]);
               taken(p)(addr) == if to.Some? then Some(Discovery(p.peerId, to.value, now + p.ttl * NANOS_PER_SEC))
                                 else None
    requires forall p :: takenOf(p) == if p.peerId == localPeer then None else Some(FilterMap(taken(p), p.addrs))
    ensures ExtractFrom(peers, from, now, localPeer, translate) == Flatten(FilterMap(takenOf, peers))
  {
    if peers != [] {
      var p := peers[0];
      ExtractedExactly(peers[1..], from, now, localPeer, translate, taken, takenOf);
      FlattenHead(takenOf, peers);
      TranslatedAre(p.addrs, p.peerId, ObservedAddress(from), now + p.ttl * NANOS_PER_SEC, translate, taken(p));
    }
  }

  ghost predicate NoneFrom(found: seq<Discovery>, peer: PeerId) {
    forall i :: 0 <= i < |found| ==> found[i].peer != peer
  }

  lemma {:induction false} TranslatedPeer(addrs: seq<Multiaddr>, peer: PeerId, observed: Multiaddr, expiration: Instant,
                                          translate: Translation, other: PeerId)
    requires peer != other
    ensures NoneFrom(Translated(addrs, peer, observed, expiration, translate), other)
  {
    if addrs != [] {
      TranslatedPeer(addrs[1..], peer, observed, expiration, translate, other);
    }
  }

  /** Whatever a response holds, nothing taken from it concerns the local peer. */
  lemma {:induction false} NeverExtractsSelf(peers: seq<MdnsPeer>, from: SocketAddr, now: Instant, localPeer: PeerId,
                                             translate: Translation)
    ensures NoneFrom(ExtractFrom(peers, from, now, localPeer, translate), localPeer)
  {
    if peers != [] {
      NeverExtractsSelf(peers[1..], from, now, localPeer, translate);
      var p := peers[0];
      if p.peerId != localPeer {
        TranslatedPeer(p.addrs, p.peerId, ObservedAddress(from), now + p.ttl * NANOS_PER_SEC, translate, localPeer);
      }
    }
  }
}
