/** Peer ids and multiaddresses: a small concrete grammar of slash-separated protocols, printed and
    parsed as the program prints its listen addresses and parses received ones. */
module Multiaddrs {
  import opened Bytes

  const SLASH: byte := 47

  predicate IsBase58(b: byte) {
    || 49 <= b <= 57
    || (65 <= b <= 90 && b != 73 && b != 79)
    || (97 <= b <= 122 && b != 108)
  }

  predicate IsPeerId(text: Bytes) {
    text != [] && forall i :: 0 <= i < |text| ==> IsBase58(text[i])
  }

  /** A peer id is identified with its base58 text. */
  type PeerId = t: Bytes | IsPeerId(t) witness [49]

  /** One slash-free piece of a printed address. */
  type Segment = t: Bytes | SLASH !in t

  datatype Kind = Ip4 | Ip6 | Dns4 | Tcp | Udp | Unix {
    function Name(): Segment {
      match this
      case Ip4 => Ascii("ip4")
      case Ip6 => Ascii("ip6")
      case Dns4 => Ascii("dns4")
      case Tcp => Ascii("tcp")
      case Udp => Ascii("udp")
      case Unix => Ascii("unix")
    }
  }

  datatype Mark = QuicV1 | Ws {
    function Name(): Segment {
      match this
      case QuicV1 => Ascii("quic-v1")
      case Ws => Ascii("ws")
    }
  }

  function P2pName(): Segment {
    Ascii("p2p")
  }

  datatype Protocol = Valued(kind: Kind, value: Segment) | Bare(mark: Mark) | P2p(peer: PeerId)

  type Multiaddr = seq<Protocol>

  function KindNamed(name: Bytes): Option<Kind> {
    if name == Ip4.Name() then Some(Ip4)
    else if name == Ip6.Name() then Some(Ip6)
    else if name == Dns4.Name() then Some(Dns4)
    else if name == Tcp.Name() then Some(Tcp)
    else if name == Udp.Name() then Some(Udp)
    else if name == Unix.Name() then Some(Unix)
    else None
  }

  function MarkNamed(name: Bytes): Option<Mark> {
    if name == QuicV1.Name() then Some(QuicV1)
    else if name == Ws.Name() then Some(Ws)
    else None
  }

  // ---------------------------------------------------------------- printing and parsing

  lemma PeerIdIsSegment(peer: PeerId)
    ensures SLASH !in peer && IsAscii(peer)
  {
    assert forall i :: 0 <= i < |peer| ==> IsBase58(peer[i]);
  }

  function ProtocolSegments(p: Protocol): seq<Segment> {
    match p
    case Valued(kind, value) => [kind.Name(), value]
    case Bare(mark) => [mark.Name()]
    case P2p(peer) => PeerIdIsSegment(peer); [P2pName(), peer]
  }

  function Segments(addr: Multiaddr): seq<Segment> {
    if addr == [] then [] else ProtocolSegments(addr[0]) + Segments(addr[1..])
  }

  /** A slash before every segment; the empty address prints as nothing. */
  function Print(addr: Multiaddr): Bytes {
    Join([[]] + Segments(addr), SLASH)
  }

  function ParseSegments(parts: seq<Segment>): Option<Multiaddr> {
    if parts == [] then Some([])
    else if KindNamed(parts[0]).Some? then
      if |parts| < 2 then None
      else
        var tail :- ParseSegments(parts[2..]);
        Some([Valued(KindNamed(parts[0]).value, parts[1])] + tail)
    else if MarkNamed(parts[0]).Some? then
      var tail :- ParseSegments(parts[1..]);
      Some([Bare(MarkNamed(parts[0]).value)] + tail)
    else if parts[0] == P2pName() then
      if |parts| < 2 || !IsPeerId(parts[1]) then None
      else
        var tail :- ParseSegments(parts[2..]);
        Some([P2p(parts[1])] + tail)
    else None
  }

  function Parse(text: Bytes): Option<Multiaddr> {
    var parts := Split(text, SLASH);
    if parts[0] != [] then None
    else
      var segments: seq<Segment> := parts[1..];
      ParseSegments(segments)
  }

  lemma NamesAreDistinct(kind: Kind, mark: Mark)
    ensures KindNamed(kind.Name()) == Some(kind)
    ensures KindNamed(mark.Name()) == None && MarkNamed(mark.Name()) == Some(mark)
    ensures KindNamed(P2pName()) == None && MarkNamed(P2pName()) == None
  {
    assert Ip4.Name()[2] == 52 && Ip6.Name()[2] == 54 && Tcp.Name()[0] == 116 && Udp.Name()[0] == 117;
    assert Dns4.Name()[0] == 100 && Unix.Name()[0] == 117 && P2pName()[0] == 112;
  }

  lemma {:induction false} ParseCons(p: Protocol, rest: seq<Segment>)
    ensures var tail := ParseSegments(rest);
            ParseSegments(ProtocolSegments(p) + rest) == if tail.None? then None else Some([p] + tail.value)
  {
    hide KindNamed, MarkNamed, P2pName, Kind.Name, Mark.Name;
    var parts := ProtocolSegments(p) + rest;
    NamesAreDistinct(if p.Valued? then p.kind else Ip4, if p.Bare? then p.mark else Ws);
    assert parts[|ProtocolSegments(p)|..] == rest;
  }

  lemma {:induction false} ParseOfSegments(addr: Multiaddr)
    ensures ParseSegments(Segments(addr)) == Some(addr)
  {
    if addr != [] {
      hide ParseSegments, ProtocolSegments;
      ParseOfSegments(addr[1..]);
      ParseCons(addr[0], Segments(addr[1..]));
      assert addr == [addr[0]] + addr[1..];
    }
  }

  lemma ParseOfPrint(addr: Multiaddr)
    ensures Parse(Print(addr)) == Some(addr)
  {
    var parts: seq<Bytes> := [[]] + Segments(addr);
    SplitOfJoin(parts, SLASH);
    assert parts[1..] == Segments(addr);
    ParseOfSegments(addr);
  }

  lemma NamedBack(name: Segment)
    ensures KindNamed(name).Some? ==> KindNamed(name).value.Name() == name
    ensures MarkNamed(name).Some? ==> MarkNamed(name).value.Name() == name
  {
    hide Kind.Name, Mark.Name;
  }

  lemma {:induction false} SegmentsCons(p: Protocol, addr: Multiaddr)
    ensures Segments([p] + addr) == ProtocolSegments(p) + Segments(addr)
  {
    assert ([p] + addr)[1..] == addr;
  }

  lemma TwoAndRest(parts: seq<Segment>)
    requires |parts| >= 2
    ensures parts == [parts[0], parts[1]] + parts[2..]
  {
  }

  lemma OneAndRest(parts: seq<Segment>)
    requires |parts| >= 1
    ensures parts == [parts[0]] + parts[1..]
  {
  }

  lemma {:induction false} SegmentsOfParse(parts: seq<Segment>)
    requires ParseSegments(parts).Some?
    ensures Segments(ParseSegments(parts).value) == parts
  {
    hide KindNamed, MarkNamed, P2pName, Kind.Name, Mark.Name, Segments;
    if parts == [] {
      NoSegments();
    } else {
      NamedBack(parts[0]);
      if KindNamed(parts[0]).Some? {
        var tail := ParseSegments(parts[2..]).value;
        SegmentsOfParse(parts[2..]);
        SegmentsCons(Valued(KindNamed(parts[0]).value, parts[1]), tail);
        TwoAndRest(parts);
      } else if MarkNamed(parts[0]).Some? {
        var tail := ParseSegments(parts[1..]).value;
        SegmentsOfParse(parts[1..]);
        SegmentsCons(Bare(MarkNamed(parts[0]).value), tail);
        OneAndRest(parts);
      } else {
        var tail := ParseSegments(parts[2..]).value;
        SegmentsOfParse(parts[2..]);
        SegmentsCons(P2p(parts[1]), tail);
        TwoAndRest(parts);
      }
    }
  }

  lemma NoSegments()
    ensures Segments([]) == []
  {
  }

  /** A text that parses is what the parsed address prints as. */
  lemma PrintOfParse(text: Bytes)
    requires Parse(text).Some?
    ensures Print(Parse(text).value) == text
  {
    var parts := Split(text, SLASH);
    JoinOfSplit(text, SLASH);
    var segments: seq<Segment> := parts[1..];
    SegmentsOfParse(segments);
    assert parts == [[]] + parts[1..];
  }

  lemma {:induction false} SegmentsSnoc(addr: Multiaddr, p: Protocol)
    ensures Segments(addr + [p]) == Segments(addr) + ProtocolSegments(p)
  {
    hide ProtocolSegments;
    if addr == [] {
      assert (addr + [p])[1..] == [];
      assert ProtocolSegments(p) + [] == ProtocolSegments(p);
    } else {
      SegmentsSnoc(addr[1..], p);
      assert (addr + [p])[1..] == addr[1..] + [p];
      Assoc(ProtocolSegments(addr[0]), Segments(addr[1..]), ProtocolSegments(p));
    }
  }

  lemma {:induction false} JoinSnoc(parts: seq<Bytes>, last: Bytes, sep: byte)
    requires |parts| >= 1
    ensures Join(parts + [last], sep) == Join(parts, sep) + [sep] + last
  {
    if |parts| == 1 {
      assert (parts + [last])[1..] == [last];
    } else {
      JoinSnoc(parts[1..], last, sep);
      assert (parts + [last])[1..] == parts[1..] + [last];
    }
  }

  lemma {:induction false} JoinTwoMore(parts: seq<Bytes>, a: Bytes, b: Bytes, sep: byte)
    requires |parts| >= 1
    ensures Join(parts + [a, b], sep) == Join(parts, sep) + ([sep] + a + [sep]) + b
  {
    JoinSnoc(parts, a, sep);
    JoinSnoc(parts + [a], b, sep);
    assert parts + [a, b] == (parts + [a]) + [b];
  }

  lemma PrintOne(value: Segment)
    ensures Print([Valued(Dns4, value)]) == [SLASH] + (Dns4.Name() + [SLASH] + value)
  {
    var addr := [Valued(Dns4, value)];
    assert Segments(addr[1..]) == [];
    assert [[]] + Segments(addr) == [[], Dns4.Name(), value];
    JoinOfThree([], Dns4.Name(), value, SLASH);
    assert [] + [SLASH] == [SLASH];
  }

  lemma PeerSeparator()
    ensures Ascii("/p2p/") == [SLASH] + P2pName() + [SLASH]
  {
  }

  /** Printing an address and appending `/p2p/<peer>` prints the address with that component pushed. */
  lemma PrintWithPeer(addr: Multiaddr, peer: PeerId)
    ensures Print(addr + [P2p(peer)]) == Print(addr) + Ascii("/p2p/") + peer
  {
    PeerIdIsSegment(peer);
    PeerSeparator();
    var parts: seq<Bytes> := [[]] + Segments(addr);
    SegmentsSnoc(addr, P2p(peer));
    assert [[]] + Segments(addr + [P2p(peer)]) == parts + [P2pName(), peer];
    JoinTwoMore(parts, P2pName(), peer, SLASH);
  }

  // ---------------------------------------------------------------- UTF-8

  /** Well-formed UTF-8, RFC 3629: no overlong forms, no surrogates, nothing above U+10FFFF. */
  predicate IsUtf8(text: Bytes) {
    if text == [] then true
    else
      var b := text[0];
      if b < 0x80 then IsUtf8(text[1..])
      else if 0xC2 <= b <= 0xDF then
        |text| >= 2 && IsContinuation(text[1], 0x80, 0xBF) && IsUtf8(text[2..])
      else if 0xE0 <= b <= 0xEF then
        && |text| >= 3
        && IsContinuation(text[1], if b == 0xE0 then 0xA0 else 0x80, if b == 0xED then 0x9F else 0xBF)
        && IsContinuation(text[2], 0x80, 0xBF)
        && IsUtf8(text[3..])
      else
        && 0xF0 <= b <= 0xF4
        && |text| >= 4
        && IsContinuation(text[1], if b == 0xF0 then 0x90 else 0x80, if b == 0xF4 then 0x8F else 0xBF)
        && IsContinuation(text[2], 0x80, 0xBF)
        && IsContinuation(text[3], 0x80, 0xBF)
        && IsUtf8(text[4..])
  }

  predicate IsContinuation(b: byte, low: byte, high: byte) {
    low <= b <= high
  }

  lemma {:induction false} AsciiIsUtf8(text: Bytes)
    requires IsAscii(text)
    ensures IsUtf8(text)
  {
    if text != [] {
      AsciiIsUtf8(text[1..]);
    }
  }
}
