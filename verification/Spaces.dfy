/** What a space in an address does to the packets it is sent in. */
module Spaces {
  import opened Bytes
  import opened Names
  import opened Messages
  import opened Multiaddrs
  import opened Config
  import opened Dns
  import opened Query
  import opened Codec
  import opened RoundTrip

  // ---------------------------------------------------------------- one packet

  /** No quotes or backslashes, so that quoting a value adds the two quotes and nothing else. */
  predicate PlainValue(value: Bytes) {
    QUOTE !in value && BACKSLASH !in value
  }

  /** Some value has a space and nothing to escape. */
  ghost predicate Poisoned(sender: Sender, addrs: seq<Multiaddr>) {
    exists addr :: addr in addrs && !Unspaced(TxtValue(addr, sender.peer)) && PlainValue(TxtValue(addr, sender.peer))
  }

  lemma SpacedAddressIsUnreadable(addr: Multiaddr, peer: PeerId)
    requires Accepts(TxtValue(addr, peer)) && PlainValue(TxtValue(addr, peer)) && !Unspaced(TxtValue(addr, peer))
    ensures !Readable(TxtValue(addr, peer))
  {
    var value := TxtValue(addr, peer);
    assert value[|value| - 1] == peer[|peer| - 1];
    assert IsBase58(peer[|peer| - 1]);
    SpacedValueIsUnreadable(value);
  }

  /** A receiver learns all addresses of a packet when none has a space, and none of them when one has
      a space and nothing to escape. */
  lemma AllOrNothing(sender: Sender, addrs: seq<Multiaddr>, from: SocketAddr, config: Config)
    requires sender.Valid() && config.Spellable() && sender.serviceName == config.serviceName
    requires AllAccepted(sender, addrs) && |addrs| <= MAX_RECORDS_PER_PACKET
    ensures ComesBack(sender.serviceName) && SpaceFree(sender, addrs) ==>
              Learned(sender.Packet(addrs), from, config) == addrs
    ensures !ComesBack(sender.serviceName) || Poisoned(sender, addrs) ==>
              Learned(sender.Packet(addrs), from, config) == []
  {
    if !ComesBack(sender.serviceName) {
      UnrecognizedIsIgnored(sender, addrs, from, config);
    } else if SpaceFree(sender, addrs) {
      ReadPacket(sender, addrs, from, config);
      LearnedFromUnderstood(sender.Packet(addrs), sender, addrs, from, config);
    }
    if Poisoned(sender, addrs) {
      PoisonedIsMalformed(sender, addrs);
    }
  }

  lemma PoisonedIsMalformed(sender: Sender, addrs: seq<Multiaddr>)
    requires sender.Valid() && AllAccepted(sender, addrs) && |addrs| <= MAX_RECORDS_PER_PACKET
    requires Poisoned(sender, addrs)
    ensures DecodeMessage(sender.Packet(addrs)).Malformed?
  {
    var addr :| addr in addrs && !Unspaced(TxtValue(addr, sender.peer)) && PlainValue(TxtValue(addr, sender.peer));
    assert Accepts(TxtValue(addr, sender.peer));
    SpacedAddressIsUnreadable(addr, sender.peer);
    DecodeOfPacket(sender, addrs);
  }

  /** And such addresses exist: a DNS name may have a space. */
  lemma SpacedAddress(sender: Sender, from: SocketAddr, config: Config) returns (addr: Multiaddr)
    requires sender.Valid() && config.Spellable() && sender.serviceName == config.serviceName
    requires |sender.peer| <= 200
    ensures sender.Sendable([addr]) == [addr] && Poisoned(sender, [addr])
    ensures Flatten(LearnedEach(sender.Packets([addr]), from, config)) == []
  {
    hide Learned, Sender.Packet, Print;
    addr := [Valued(Dns4, Ascii("a b"))];
    SpacedValue(addr, sender.peer);
    SentInOnePacket(sender, [addr]);
    AllOrNothing(sender, [addr], from, config);
    var lists := LearnedEach(sender.Packets([addr]), from, config);
    assert lists == [[]] && Flatten(lists[1..]) == [];
  }

  lemma SpacedValue(addr: Multiaddr, peer: PeerId)
    requires addr == [Valued(Dns4, Ascii("a b"))] && |peer| <= 200
    ensures var value := TxtValue(addr, peer); Accepts(value) && !Unspaced(value) && PlainValue(value)
  {
    hide Print, PlainValue, IsAscii;
    PrintedSpace();
    SpacedParts();
    PeerIsPlain(peer);
    ValueOfParts(Ascii("dnsaddr="), Ascii("/dns4/a b"), Ascii("/p2p/"), peer);
  }

  lemma PrintedSpace()
    ensures Print([Valued(Dns4, Ascii("a b"))]) == Ascii("/dns4/a b")
  {
    PrintOne(Ascii("a b"));
    hide Print;
  }

  lemma SpacedParts()
    ensures IsAscii(Ascii("dnsaddr=")) && IsAscii(Ascii("/dns4/a b")) && IsAscii(Ascii("/p2p/"))
    ensures PlainValue(Ascii("dnsaddr=")) && PlainValue(Ascii("/dns4/a b")) && PlainValue(Ascii("/p2p/"))
    ensures SPACE in Ascii("/dns4/a b")
  {
    assert Ascii("/dns4/a b")[7] == SPACE;
  }

  lemma PeerIsPlain(peer: PeerId)
    ensures IsAscii(peer) && PlainValue(peer)
  {
    assert forall i :: 0 <= i < |peer| ==> IsBase58(peer[i]);
  }

  lemma ValueOfParts(a: Bytes, b: Bytes, c: Bytes, d: Bytes)
    requires IsAscii(a) && IsAscii(b) && IsAscii(c) && IsAscii(d)
    requires PlainValue(a) && PlainValue(b) && PlainValue(c) && PlainValue(d) && SPACE in b
    ensures var value := a + b + c + d; IsAscii(value) && PlainValue(value) && SPACE in value
  {
  }

  // ---------------------------------------------------------------- where a learned address comes from

  lemma {:induction false} MemberOfFlatten<T>(lists: seq<seq<T>>, x: T) returns (i: nat)
    requires x in Flatten(lists)
    ensures i < |lists| && x in lists[i]
  {
    if x in lists[0] {
      i := 0;
    } else {
      var j := MemberOfFlatten(lists[1..], x);
      i := j + 1;
    }
  }

  lemma {:induction false} MemberOfAddressesFor(candidates: seq<Candidate>, peer: PeerId,
                                                addr: Multiaddr) returns (c: Candidate)
    requires addr in AddressesFor(candidates, peer)
    ensures c in candidates && c.addr == addr
  {
    if candidates[0].peer == peer && candidates[0].addr == addr {
      c := candidates[0];
    } else {
      c := MemberOfAddressesFor(candidates[1..], peer, addr);
    }
  }

  lemma {:induction false} MemberOfCandidates(strings: seq<Bytes>, c: Candidate) returns (txt: Bytes)
    requires c in Candidates(strings)
    ensures txt in strings && ParseCandidate(txt) == Some(c)
  {
    if ParseCandidate(strings[0]) == Some(c) {
      txt := strings[0];
    } else {
      txt := MemberOfCandidates(strings[1..], c);
    }
  }

  lemma {:induction false} MemberOfStringsUnder(records: seq<Record>, name: Labels, txt: Bytes) returns (i: nat)
    requires txt in StringsUnder(records, name)
    ensures i < |records| && records[i].data.Txt? && txt in records[i].data.strings
  {
    if SameName(records[0].name, name) && records[0].data.Txt? && txt in records[0].data.strings {
      i := 0;
    } else {
      var j := MemberOfStringsUnder(records[1..], name, txt);
      i := j + 1;
    }
  }

  /** The strings a receiver cuts the record of an address into, when it can. */
  function StringsRead(addr: Multiaddr, peer: PeerId): seq<Bytes> {
    match DecodeStrings(TxtData(TxtValue(addr, peer)))
    case None => []
    case Some(strings) => strings
  }

  /** An address learned from a packet was parsed from a string of one of the packet's records. */
  lemma LearnedComesFromRecord(sender: Sender, addrs: seq<Multiaddr>, from: SocketAddr, config: Config, addr: Multiaddr)
    returns (source: Multiaddr, txt: Bytes, c: Candidate)
    requires sender.Valid() && config.Spellable() && sender.serviceName == config.serviceName
    requires AllAccepted(sender, addrs) && |addrs| <= MAX_RECORDS_PER_PACKET
    requires addr in Learned(sender.Packet(addrs), from, config)
    ensures ComesBack(sender.serviceName)
    ensures source in addrs && txt in StringsRead(source, sender.peer)
    ensures ParseCandidate(txt) == Some(c) && c.addr == addr
  {
    hide ParseCandidate, Render, PlainName;
    if !ComesBack(sender.serviceName) {
      UnrecognizedIsIgnored(sender, addrs, from, config);
    }
    RenderOwn(sender.serviceName);
    DecodeOfPacket(sender, addrs);
    var packet := DecodeMessage(sender.Packet(addrs)).value;
    PeersOfOneAnswer(packet, AnswerRead(sender), config.serviceNameFqdn);
    var records, name := RecordsRead(sender, addrs), LabelsOf(sender.peerName);
    var peer := PeerUnder(records, name, sender.ttl);
    OnlyPeer(peer);
    var candidates := Candidates(StringsUnder(records, name));
    c := MemberOfAddressesFor(candidates, candidates[0].peer, addr);
    txt := MemberOfCandidates(StringsUnder(records, name), c);
    var i := MemberOfStringsUnder(records, name, txt);
    source := addrs[i];
  }

  lemma OnlyPeer(peer: Option<MdnsPeer>)
    ensures AddressesOf(if peer.Some? then [peer.value] else []) == if peer.Some? then peer.value.addrs else []
  {
    if peer.Some? {
      assert [peer.value][1..] == [];
      assert peer.value.addrs + [] == peer.value.addrs;
    }
  }

  // ---------------------------------------------------------------- what a string can hold

  /** A string that parses is, unquoted, the value of what it parses to. */
  lemma CandidateText(txt: Bytes)
    requires ParseCandidate(txt).Some?
    ensures var c := ParseCandidate(txt).value; DecodeCharacterString(txt) == Result.Ok(TxtValue(c.addr, c.peer))
  {
    var text, c := DecodeCharacterString(txt).value, ParseCandidate(txt).value;
    PrintOfParse(text[8..]);
    var addr := Parse(text[8..]).value;
    assert addr == c.addr + [P2p(c.peer)];
    ValueIsPrinted(c.addr, c.peer);
    assert text == text[..8] + text[8..];
  }

  lemma {:induction false} StringFits(data: Bytes, txt: Bytes)
    requires DecodeStrings(data).Some? && txt in DecodeStrings(data).value
    ensures |txt| < |data|
  {
    var rest := data[1 + data[0] as int..];
    if txt != data[1..1 + data[0] as int] {
      StringFits(rest, txt);
    }
  }

  lemma {:induction false} EscapeCat(a: Bytes, b: Bytes)
    ensures Escape(a + b) == Escape(a) + Escape(b)
  {
    if a == [] {
      assert a + b == b;
    } else {
      hide EscapedByte;
      EscapeCat(a[1..], b);
      assert (a + b)[1..] == a[1..] + b;
      Assoc(EscapedByte(a[0]), Escape(a[1..]), Escape(b));
    }
  }

  lemma {:induction false} PeerNeedsNoEscape(peer: PeerId)
    ensures |Escape(Ascii("/p2p/") + peer)| == 5 + |peer|
  {
    var end := Ascii("/p2p/") + peer;
    assert forall i :: 0 <= i < |peer| ==> IsBase58(peer[i]);
    EscapeLength(end);
  }

  /** Only the printed address has anything to escape. */
  lemma EscapedValueLength(addr: Multiaddr, peer: PeerId)
    ensures |Escape(TxtValue(addr, peer))| <= |TxtValue(addr, peer)| + |Print(addr)|
  {
    hide Escape, Print;
    var head, end := Ascii("dnsaddr="), Ascii("/p2p/") + peer;
    FourParts([], head, Print(addr), Ascii("/p2p/"), peer);
    assert TxtValue(addr, peer) == head + (Print(addr) + end);
    EscapeCat(head, Print(addr) + end);
    EscapeCat(Print(addr), end);
    EscapeLength(head);
    EscapeLength(Print(addr));
    PeerNeedsNoEscape(peer);
  }

  /** A quote in an escaped text follows a backslash. */
  lemma {:induction false} QuoteFollowsBackslash(text: Bytes, i: nat)
    requires i < |Escape(text)| && Escape(text)[i] == QUOTE
    ensures i > 0 && Escape(text)[i - 1] == BACKSLASH
  {
    var first := EscapedByte(text[0]);
    if i >= |first| {
      QuoteFollowsBackslash(text[1..], i - |first|);
    }
  }

  lemma QuotedPrefix(escaped: Bytes, n: nat)
    requires 3 <= n <= |escaped|
    ensures var first := ([QUOTE] + escaped + [QUOTE])[..n];
            |first| == n && first[0] == QUOTE && first[n - 1] == escaped[n - 2] && first[n - 2] == escaped[n - 3]
  {
  }

  /** No peer id ends in a backslash, so a string that closes with an escaped quote never parses. */
  lemma EscapedQuoteIsNoCandidate(txt: Bytes)
    requires |txt| >= 3 && txt[0] == QUOTE
    requires txt[|txt| - 1] == QUOTE ==> txt[|txt| - 2] == BACKSLASH
    ensures ParseCandidate(txt) == None
  {
    hide ParseCandidate, TxtValue;
    if ParseCandidate(txt).Some? {
      var c := ParseCandidate(txt).value;
      CandidateText(txt);
      LastOfValue(c.addr, c.peer);
    }
  }

  /** The first string of a quoted value never parses: its closing quote, if it has one, is an escaped one. */
  lemma {:induction false} FirstStringIsNoCandidate(value: Bytes)
    requires SPACE in value && |value| >= 3
    ensures |CharacterString(value)| == |Escape(value)| + 2 > |value|
    ensures ParseCandidate(CharacterString(value)[..|value|]) == None
  {
    hide Escape, ParseCandidate;
    var n := |value|;
    EscapeLength(value);
    QuotedPrefix(Escape(value), n);
    var first := CharacterString(value)[..n];
    if first[n - 1] == QUOTE {
      QuoteFollowsBackslash(value, n - 2);
    }
    EscapedQuoteIsNoCandidate(first);
  }

  lemma LastOfValue(addr: Multiaddr, peer: PeerId)
    ensures var value := TxtValue(addr, peer);
            |value| == 13 + |Print(addr)| + |peer| && value[|value| - 1] != BACKSLASH
  {
    var value := TxtValue(addr, peer);
    assert value[|value| - 1] == peer[|peer| - 1];
    assert IsBase58(peer[|peer| - 1]);
  }

  lemma ExactAddress(source: Multiaddr, peer: PeerId, txt: Bytes, c: Candidate)
    requires Accepts(TxtValue(source, peer)) && Unspaced(TxtValue(source, peer))
    requires txt in StringsRead(source, peer) && ParseCandidate(txt) == Some(c)
    ensures c.addr == source
  {
    hide ParseCandidate;
    PlainStringReadsBack(TxtValue(source, peer));
    CandidateOfValue(source, peer);
  }

  lemma {:induction false} LeftOverString(value: Bytes, txt: Bytes)
    requires SPACE in value && 3 <= |value| <= MAX_TXT_VALUE_LENGTH
    requires DecodeStrings(TxtData(value)).Some? && txt in DecodeStrings(TxtData(value)).value
    requires ParseCandidate(txt).Some?
    ensures |txt| < |Escape(value)| + 2 - |value|
  {
    hide ParseCandidate, Escape, DecodeStrings, CharacterString;
    var text, n := CharacterString(value), |value|;
    FirstStringIsNoCandidate(value);
    CutString(n, text);
    assert TxtData(value) == [n] + text;
    assert txt != text[..n];
    StringFits(text[n..], txt);
  }

  /** From the record of an address with a space, only shorter addresses can be learned. */
  lemma ShorterAddress(source: Multiaddr, peer: PeerId, txt: Bytes, c: Candidate)
    requires Accepts(TxtValue(source, peer)) && !Unspaced(TxtValue(source, peer))
    requires txt in StringsRead(source, peer) && ParseCandidate(txt) == Some(c)
    ensures |Print(c.addr)| < |Print(source)|
  {
    hide ParseCandidate, Escape, DecodeStrings, TxtData, TxtValue, Print;
    LastOfValue(source, peer);
    LeftOverString(TxtValue(source, peer), txt);
    EscapedValueLength(source, peer);
    CandidateText(txt);
    LastOfValue(c.addr, c.peer);
    assert |TxtValue(c.addr, c.peer)| <= |txt|;
  }

  // ---------------------------------------------------------------- whole responses

  lemma {:induction false} LongestSpaced(addrs: seq<Multiaddr>, peer: PeerId) returns (m: Multiaddr)
    requires exists addr :: addr in addrs && !Unspaced(TxtValue(addr, peer))
    ensures m in addrs && !Unspaced(TxtValue(m, peer))
    ensures forall addr :: addr in addrs && !Unspaced(TxtValue(addr, peer)) ==> |Print(addr)| <= |Print(m)|
  {
    var rest := addrs[1..];
    assert addrs == [addrs[0]] + rest;
    if exists addr :: addr in rest && !Unspaced(TxtValue(addr, peer)) {
      m := LongestSpaced(rest, peer);
      if !Unspaced(TxtValue(addrs[0], peer)) && |Print(addrs[0])| > |Print(m)| {
        m := addrs[0];
      }
    } else {
      m := addrs[0];
    }
  }

  /** Of each packet, all that is learned from it or nothing: packets may be lost. */
  ghost predicate Partly(lists: seq<seq<Multiaddr>>, sender: Sender, sendable: seq<Multiaddr>, from: SocketAddr,
                         config: Config)
    requires sender.Valid()
  {
    && |lists| == |Chunks(sendable)|
    && forall i :: 0 <= i < |lists| ==>
         lists[i] == [] || lists[i] == Learned(sender.Packet(Chunks(sendable)[i]), from, config)
  }

  lemma PartlyAll(sender: Sender, sendable: seq<Multiaddr>, from: SocketAddr, config: Config)
    requires sender.Valid()
    ensures Partly(LearnedEach(sender.PacketsOf(sendable), from, config), sender, sendable, from, config)
  {
    hide Learned, Sender.Packet;
  }

  lemma SourceOf(sender: Sender, sendable: seq<Multiaddr>, lists: seq<seq<Multiaddr>>, from: SocketAddr,
                 config: Config, addr: Multiaddr)
    returns (source: Multiaddr, txt: Bytes, c: Candidate)
    requires sender.Valid() && config.Spellable() && sender.serviceName == config.serviceName
    requires AllAccepted(sender, sendable) && Partly(lists, sender, sendable, from, config)
    requires addr in Flatten(lists)
    ensures ComesBack(sender.serviceName)
    ensures source in sendable && txt in StringsRead(source, sender.peer)
    ensures ParseCandidate(txt) == Some(c) && c.addr == addr
  {
    hide Learned, StringsRead, ParseCandidate, Sender.Packet;
    var i := MemberOfFlatten(lists, addr);
    ChunkMembers(sendable, i);
    ChunksSizes(sendable, i);
    source, txt, c := LearnedComesFromRecord(sender, Chunks(sendable)[i], from, config, addr);
  }

  /** The longest address with a space is learned from no packet. */
  lemma {:induction false} LongestIsLost(sender: Sender, sendable: seq<Multiaddr>, lists: seq<seq<Multiaddr>>,
                                         from: SocketAddr, config: Config, m: Multiaddr)
    requires sender.Valid() && config.Spellable() && sender.serviceName == config.serviceName
    requires AllAccepted(sender, sendable) && Partly(lists, sender, sendable, from, config)
    requires m in sendable && !Unspaced(TxtValue(m, sender.peer))
    requires forall addr :: addr in sendable && !Unspaced(TxtValue(addr, sender.peer)) ==> |Print(addr)| <= |Print(m)|
    ensures m !in Flatten(lists)
  {
    hide Learned, StringsRead, ParseCandidate, Sender.Packet, Partly;
    if m in Flatten(lists) {
      var source, txt, c := SourceOf(sender, sendable, lists, from, config, m);
      assert source in sendable && Accepts(TxtValue(source, sender.peer));
      if Unspaced(TxtValue(source, sender.peer)) {
        ExactAddress(source, sender.peer, txt, c);
      } else {
        ShorterAddress(source, sender.peer, txt, c);
      }
    }
  }

  lemma {:induction false} AllOrNothingSum(lists: seq<seq<Multiaddr>>, chunks: seq<seq<Multiaddr>>)
    requires |lists| == |chunks|
    requires forall i :: 0 <= i < |lists| ==> lists[i] == chunks[i] || lists[i] == []
    ensures |Flatten(lists)| <= |Flatten(chunks)|
    ensures |Flatten(lists)| == |Flatten(chunks)| ==> lists == chunks
  {
    if lists != [] {
      AllOrNothingSum(lists[1..], chunks[1..]);
      assert lists == [lists[0]] + lists[1..] && chunks == [chunks[0]] + chunks[1..];
    }
  }

  /** Whichever packets are lost: who still learns exactly what was sent has lost none with an address in
      it, the service name fits, and no value has a space. */
  lemma {:induction false} LearnedOnlyIf(sender: Sender, sendable: seq<Multiaddr>, lists: seq<seq<Multiaddr>>,
                                         from: SocketAddr, config: Config)
    requires sender.Valid() && config.Spellable() && sender.serviceName == config.serviceName
    requires AllAccepted(sender, sendable) && Partly(lists, sender, sendable, from, config)
    requires sendable != [] && Flatten(lists) == sendable
    ensures ComesBack(sender.serviceName) && SpaceFree(sender, sendable) && lists == Chunks(sendable)
  {
    hide Learned, StringsRead, ParseCandidate, Sender.Packet;
    var _, _, _ := SourceOf(sender, sendable, lists, from, config, sendable[0]);
    if !SpaceFree(sender, sendable) {
      var m := LongestSpaced(sendable, sender.peer);
      LongestIsLost(sender, sendable, lists, from, config, m);
    }
    forall i | 0 <= i < |lists| ensures lists[i] == Chunks(sendable)[i] || lists[i] == [] {
      ReadChunk(sender, sendable, i, from, config);
    }
    FlattenOfChunks(sendable);
    AllOrNothingSum(lists, Chunks(sendable));
  }

  lemma {:induction false} NothingLearned(sender: Sender, lists: seq<seq<Multiaddr>>, from: SocketAddr, config: Config)
    requires sender.Valid() && config.Spellable() && sender.serviceName == config.serviceName
    requires Partly(lists, sender, [], from, config)
    ensures Flatten(lists) == []
  {
    hide Partly, Learned;
    if Flatten(lists) != [] {
      var _, _, _ := SourceOf(sender, [], lists, from, config, Flatten(lists)[0]);
    }
  }

  /** What parsing whole packets yields is exactly the addresses sent, in order, if and only if there are
      none, or the service name fits the limit of names and no value sent has a space. */
  lemma ResponseRoundTripExactly(sender: Sender, addrs: seq<Multiaddr>, from: SocketAddr, config: Config)
    requires sender.Valid() && config.Spellable() && sender.serviceName == config.serviceName
    ensures Flatten(LearnedEach(sender.Packets(addrs), from, config)) == sender.Sendable(addrs)
            <==> || sender.Sendable(addrs) == []
                 || (ComesBack(sender.serviceName) && SpaceFree(sender, sender.Sendable(addrs)))
  {
    hide Learned, Sender.Packet, Partly;
    var sendable := sender.Sendable(addrs);
    var lists := LearnedEach(sender.Packets(addrs), from, config);
    AcceptedIsAccepted(sender, addrs[..Min(|addrs|, MAX_ADDRESSES)]);
    PartlyAll(sender, sendable, from, config);
    if sendable == [] {
      NothingLearned(sender, lists, from, config);
    } else if ComesBack(sender.serviceName) && SpaceFree(sender, sendable) {
      ResponseRoundTrip(sender, addrs, from, config);
    } else if Flatten(lists) == sendable {
      LearnedOnlyIf(sender, sendable, lists, from, config);
    }
  }
}
