/** Packet sizes, the program's size constants, and the receive buffer. */
module Limits {
  import opened Bytes
  import opened Names
  import opened Messages
  import opened Multiaddrs
  import opened Config
  import opened Dns
  import opened Query
  import opened Codec
  import opened RoundTrip
  import opened Spaces

  // ---------------------------------------------------------------- sizes

  /** Bytes a value takes in its record, quoted where the program quotes it. */
  function ValueSize(sender: Sender, addr: Multiaddr): nat {
    |CharacterString(TxtValue(addr, sender.peer))|
  }

  function ValueBytes(sender: Sender, addrs: seq<Multiaddr>): nat {
    if addrs == [] then 0 else ValueSize(sender, addrs[0]) + ValueBytes(sender, addrs[1..])
  }

  lemma RecordSize(sender: Sender, addr: Multiaddr)
    requires sender.Valid()
    ensures |sender.Record(addr)| == (|sender.peerName| + 13) + ValueSize(sender, addr)
    ensures |sender.Record(addr)| <= MAX_TXT_RECORD_SIZE
            <==> |EncodeName(sender.peerName)| + ValueSize(sender, addr) <= 289
  {
    EncodedNameLength(sender.peerName);
  }

  lemma RecordSizeOfValue(sender: Sender, addr: Multiaddr, length: nat)
    requires sender.Valid() && length == |TxtValue(addr, sender.peer)|
    ensures |sender.peerName| + 13 + length <= |sender.Record(addr)| <= |sender.peerName| + 15 + 2 * length
  {
    RecordSize(sender, addr);
    EscapeLength(TxtValue(addr, sender.peer));
  }

  lemma MulSucc(n: nat, p: nat)
    requires n > 0
    ensures n * p == p + (n - 1) * p
  {
  }

  lemma RecordsCons(sender: Sender, addrs: seq<Multiaddr>)
    requires sender.Valid() && addrs != []
    ensures Flatten(sender.Records(addrs)) == sender.Record(addrs[0]) + Flatten(sender.Records(addrs[1..]))
  {
    hide Sender.Record;
    assert sender.Records(addrs)[0] == sender.Record(addrs[0]);
    assert sender.Records(addrs)[1..] == sender.Records(addrs[1..]);
  }

  lemma {:induction false} RecordsSize(sender: Sender, addrs: seq<Multiaddr>, p: nat)
    requires sender.Valid() && p == |sender.peerName| + 13
    ensures |Flatten(sender.Records(addrs))| == |addrs| * p + ValueBytes(sender, addrs)
    decreases |addrs|
  {
    if addrs != [] {
      RecordSize(sender, addrs[0]);
      RecordsSize(sender, addrs[1..], p);
      RecordsCons(sender, addrs);
      MulSucc(|addrs|, p);
    }
  }

  lemma HeadSize(sender: Sender, addrs: seq<Multiaddr>)
    requires sender.Valid()
    ensures |sender.Packet(addrs)| == 26 + |sender.serviceName| + |sender.peerName| + |Flatten(sender.Records(addrs))|
  {
    EncodedNameLength(sender.serviceName);
    EncodedNameLength(sender.peerName);
  }

  /** The exact size of a packet: 22 bytes, the two encoded names, and per record the encoded peer
      name, 11 bytes and the value. */
  lemma {:induction false} PacketSize(sender: Sender, addrs: seq<Multiaddr>)
    requires sender.Valid()
    ensures |sender.Packet(addrs)|
         == 22 + (|sender.serviceName| + 2) + (|sender.peerName| + 2)
            + |addrs| * (|sender.peerName| + 13) + ValueBytes(sender, addrs)
  {
    hide Sender.Packet, Sender.Records;
    HeadSize(sender, addrs);
    RecordsSize(sender, addrs, |sender.peerName| + 13);
  }

  lemma {:induction false} FlattenBounds(parts: seq<Bytes>, low: nat, high: nat)
    requires forall i :: 0 <= i < |parts| ==> low <= |parts[i]| <= high
    ensures |parts| * low <= |Flatten(parts)| <= |parts| * high
  {
    if parts != [] {
      FlattenBounds(parts[1..], low, high);
      MulSucc(|parts|, low);
      MulSucc(|parts|, high);
    }
  }

  lemma AtMost29(n: nat, total: nat)
    requires n <= MAX_RECORDS_PER_PACKET && total <= n * MAX_TXT_RECORD_SIZE
    ensures total <= 29 * MAX_TXT_RECORD_SIZE
  {
  }

  /** The program's size constants keep a packet within its limit when every record keeps within
      MAX_TXT_RECORD_SIZE and the two encoded names take at most 210 bytes. */
  lemma PacketWithinLimit(sender: Sender, addrs: seq<Multiaddr>)
    requires sender.Valid() && |addrs| <= MAX_RECORDS_PER_PACKET
    requires |EncodeName(sender.serviceName)| + |EncodeName(sender.peerName)| <= 210
    requires forall addr :: addr in addrs ==> |sender.Record(addr)| <= MAX_TXT_RECORD_SIZE
    ensures |sender.Packet(addrs)| <= MAX_PACKET_SIZE
  {
    hide Sender.Packet, Sender.Record, EncodeName;
    EncodedNameLength(sender.serviceName);
    EncodedNameLength(sender.peerName);
    var records := sender.Records(addrs);
    forall i | 0 <= i < |records| ensures 0 <= |records[i]| <= MAX_TXT_RECORD_SIZE {
      assert records[i] == sender.Record(addrs[i]);
    }
    FlattenBounds(records, 0, MAX_TXT_RECORD_SIZE);
    AtMost29(|records|, |Flatten(records)|);
    HeadSize(sender, addrs);
  }

  lemma LongRecords(sender: Sender, addrs: seq<Multiaddr>, length: nat, low: nat)
    requires sender.Valid() && low == |sender.peerName| + 13 + length
    requires forall addr :: addr in addrs ==> length <= |TxtValue(addr, sender.peer)| <= MAX_TXT_VALUE_LENGTH
    ensures |addrs| * low <= |Flatten(sender.Records(addrs))|
  {
    var records := sender.Records(addrs);
    forall i | 0 <= i < |records| ensures low <= |records[i]| <= 1000 {
      RecordSizeOfValue(sender, addrs[i], |TxtValue(addrs[i], sender.peer)|);
    }
    FlattenBounds(records, low, 1000);
  }

  lemma FullProduct(n: nat, low: nat, total: nat)
    requires n == MAX_RECORDS_PER_PACKET && n * low <= total
    ensures 29 * low <= total
  {
  }

  /** Nothing makes records keep to it: 29 values of the greatest accepted length, under the longest
      peer name, take more than the program's maximum packet. */
  lemma FullPacketExceedsLimit(sender: Sender, addrs: seq<Multiaddr>)
    requires sender.Valid() && |sender.peerName| == 63 && |addrs| == MAX_RECORDS_PER_PACKET
    requires forall addr :: addr in addrs ==> |TxtValue(addr, sender.peer)| == MAX_TXT_VALUE_LENGTH
    ensures |sender.Packet(addrs)| > MAX_PACKET_SIZE
  {
    hide Sender.Packet, TxtValue;
    LongRecords(sender, addrs, 255, 331);
    FullProduct(|addrs|, 331, |Flatten(sender.Records(addrs))|);
    HeadSize(sender, addrs);
  }

  lemma LongAddress(peer: PeerId) returns (addr: Multiaddr)
    requires |peer| <= 235
    ensures |TxtValue(addr, peer)| == MAX_TXT_VALUE_LENGTH
    ensures Accepts(TxtValue(addr, peer)) && Unspaced(TxtValue(addr, peer))
  {
    hide Print;
    var value: Segment := seq<byte>(236 - |peer|, i requires 0 <= i < 236 - |peer| => 97);
    addr := [Valued(Dns4, value)];
    PrintOne(value);
    assert forall i :: 0 <= i < |peer| ==> IsBase58(peer[i]);
  }

  /** So for every peer id of ordinary length there are addresses for which, under the longest peer name,
      the program sends one packet, and it is longer than the program's maximum. */
  lemma OversizedPacket(sender: Sender) returns (addrs: seq<Multiaddr>)
    requires sender.Valid() && |sender.peerName| == 63 && |sender.peer| <= 235
    ensures sender.Packets(addrs) == [sender.Packet(addrs)] && |sender.Packet(addrs)| > MAX_PACKET_SIZE
    ensures sender.Sendable(addrs) == addrs
  {
    hide Sender.Packet, TxtValue;
    var addr := LongAddress(sender.peer);
    addrs := seq(MAX_RECORDS_PER_PACKET, i => addr);
    SentInOnePacket(sender, addrs);
    FullPacketExceedsLimit(sender, addrs);
  }

  // ---------------------------------------------------------------- the receive buffer

  /** Receivers read datagrams into a buffer of this size; the rest of a longer datagram is lost. */
  const RECEIVE_BUFFER := 4096

  function Received(datagram: Bytes): Bytes {
    datagram[..Min(|datagram|, RECEIVE_BUFFER)]
  }

  /** A readable packet is still readable after the buffer exactly when it fits it. */
  lemma ReceivedExactlyWhenItFits(sender: Sender, addrs: seq<Multiaddr>)
    requires sender.Valid() && |addrs| <= MAX_RECORDS_PER_PACKET && |sender.serviceName| <= 253
    requires AllAccepted(sender, addrs) && SpaceFree(sender, addrs)
    ensures DecodeMessage(Received(sender.Packet(addrs))).Parsed? <==> |sender.Packet(addrs)| <= 4096
  {
    SpaceFreeIsReadable(sender, addrs);
    DecodeOfPacket(sender, addrs);
    var packet := sender.Packet(addrs);
    if |packet| <= RECEIVE_BUFFER {
      assert Received(packet) == packet;
    } else {
      NoPrefixDecodes(packet, RECEIVE_BUFFER);
    }
  }

  lemma FullPacketSize(sender: Sender, addrs: seq<Multiaddr>)
    requires sender.Valid() && |addrs| == MAX_RECORDS_PER_PACKET
    requires forall addr :: addr in addrs ==> 95 <= |TxtValue(addr, sender.peer)| <= MAX_TXT_VALUE_LENGTH
    ensures |sender.Packet(addrs)| > RECEIVE_BUFFER
  {
    hide Sender.Packet, TxtValue;
    LongRecords(sender, addrs, 95, |sender.peerName| + 108);
    FullProduct(|addrs|, |sender.peerName| + 108, |Flatten(sender.Records(addrs))|);
    HeadSize(sender, addrs);
  }

  /** A packet cut short by the buffer does not decode, whatever its values hold. */
  lemma TooLongIsMalformed(sender: Sender, addrs: seq<Multiaddr>)
    requires sender.Valid() && AllAccepted(sender, addrs) && |addrs| <= MAX_RECORDS_PER_PACKET
    requires |sender.Packet(addrs)| > RECEIVE_BUFFER
    ensures DecodeMessage(Received(sender.Packet(addrs))).Malformed?
  {
    var packet := sender.Packet(addrs);
    DecodeOfPacket(sender, addrs);
    hide DecodeMessage, Sender.Packet;
    var tail := packet[RECEIVE_BUFFER..];
    assert packet == Received(packet) + tail;
    if DecodeMessage(Received(packet)).Parsed? {
      DecodeMessageBefore(Received(packet), tail);
    }
  }

  /** A packet is learned from as if it were parsed whole when it fits the buffer, and not at all when it
      does not. */
  lemma LearnedThroughBuffer(sender: Sender, addrs: seq<Multiaddr>, from: SocketAddr, config: Config)
    requires sender.Valid() && AllAccepted(sender, addrs) && |addrs| <= MAX_RECORDS_PER_PACKET
    ensures var packet := sender.Packet(addrs);
            Learned(Received(packet), from, config)
            == if |packet| <= RECEIVE_BUFFER then Learned(packet, from, config) else []
  {
    hide DecodeMessage, Sender.Packet;
    var packet := sender.Packet(addrs);
    if |packet| <= RECEIVE_BUFFER {
      assert Received(packet) == packet;
    } else {
      TooLongIsMalformed(sender, addrs);
    }
  }

  function ReceivedEach(packets: seq<Bytes>): seq<Bytes> {
    seq(|packets|, i requires 0 <= i < |packets| => Received(packets[i]))
  }

  ghost predicate AllFit(packets: seq<Bytes>) {
    forall i :: 0 <= i < |packets| ==> |packets[i]| <= 4096
  }

  /** A packet without records always fits. */
  lemma EmptyPacketFits(sender: Sender)
    requires sender.Valid() && |sender.serviceName| <= 253
    ensures |sender.Packet([])| <= RECEIVE_BUFFER
  {
    PacketSize(sender, []);
  }

  lemma PartlyReceived(sender: Sender, sendable: seq<Multiaddr>, from: SocketAddr, config: Config)
    requires sender.Valid() && AllAccepted(sender, sendable)
    ensures var packets := sender.PacketsOf(sendable);
            var lists := LearnedEach(ReceivedEach(packets), from, config);
            && Partly(lists, sender, sendable, from, config)
            && forall i :: 0 <= i < |packets| ==>
                 lists[i] == if |packets[i]| <= RECEIVE_BUFFER then Learned(packets[i], from, config) else []
  {
    hide Learned, Sender.Packet, Received;
    var packets := sender.PacketsOf(sendable);
    var lists := LearnedEach(ReceivedEach(packets), from, config);
    forall i | 0 <= i < |packets|
      ensures lists[i] == if |packets[i]| <= RECEIVE_BUFFER then Learned(packets[i], from, config) else []
    {
      ChunkMembers(sendable, i);
      ChunksSizes(sendable, i);
      LearnedThroughBuffer(sender, Chunks(sendable)[i], from, config);
    }
  }

  lemma {:induction false} NonEmptyChunks(sendable: seq<Multiaddr>)
    requires sendable != []
    ensures forall i :: 0 <= i < |Chunks(sendable)| ==> Chunks(sendable)[i] != []
  {
    forall i | 0 <= i < |Chunks(sendable)| ensures Chunks(sendable)[i] != [] {
      ChunksSizes(sendable, i);
    }
  }

  lemma ReceivedOnlyIf(sender: Sender, sendable: seq<Multiaddr>, from: SocketAddr, config: Config)
    requires sender.Valid() && config.Spellable() && sender.serviceName == config.serviceName
    requires AllAccepted(sender, sendable) && sendable != []
    requires Flatten(LearnedEach(ReceivedEach(sender.PacketsOf(sendable)), from, config)) == sendable
    ensures ComesBack(sender.serviceName) && SpaceFree(sender, sendable) && AllFit(sender.PacketsOf(sendable))
  {
    hide Learned, Sender.Packet, Partly, Received;
    var lists := LearnedEach(ReceivedEach(sender.PacketsOf(sendable)), from, config);
    PartlyReceived(sender, sendable, from, config);
    LearnedOnlyIf(sender, sendable, lists, from, config);
    NonEmptyChunks(sendable);
    forall i | 0 <= i < |sender.PacketsOf(sendable)| ensures |sender.PacketsOf(sendable)[i]| <= RECEIVE_BUFFER {
      assert lists[i] != [];
    }
  }

  /** End to end, through the receive buffer: a receiver learns exactly the addresses sent, in order, if
      and only if there are none, or the service name fits the limit of names, no value sent has a space,
      and every packet fits the buffer. */
  lemma ReceivedRoundTripExactly(sender: Sender, addrs: seq<Multiaddr>, from: SocketAddr, config: Config)
    requires sender.Valid() && config.Spellable() && sender.serviceName == config.serviceName
    ensures Flatten(LearnedEach(ReceivedEach(sender.Packets(addrs)), from, config)) == sender.Sendable(addrs)
            <==> || sender.Sendable(addrs) == []
                 || (ComesBack(sender.serviceName) && SpaceFree(sender, sender.Sendable(addrs))
                     && AllFit(sender.Packets(addrs)))
  {
    hide Learned, Sender.Packet, Partly, Received;
    var sendable, packets := sender.Sendable(addrs), sender.Packets(addrs);
    var lists := LearnedEach(ReceivedEach(packets), from, config);
    AcceptedIsAccepted(sender, addrs[..Min(|addrs|, MAX_ADDRESSES)]);
    PartlyReceived(sender, sendable, from, config);
    if sendable == [] {
      NothingLearned(sender, lists, from, config);
    } else if ComesBack(sender.serviceName) && SpaceFree(sender, sendable) && AllFit(packets) {
      assert lists == LearnedEach(packets, from, config);
      ResponseRoundTrip(sender, addrs, from, config);
    } else if Flatten(lists) == sendable {
      ReceivedOnlyIf(sender, sendable, from, config);
    }
  }

  /** The program builds packets it cannot receive: a full packet whose values have 95 bytes or more,
      and its own documentation expects 170 to 190, never gets through another node's buffer. */
  lemma FullPacketIsNotReceived(sender: Sender, addrs: seq<Multiaddr>, from: SocketAddr, config: Config)
    requires sender.Valid() && |addrs| == MAX_RECORDS_PER_PACKET && AllAccepted(sender, addrs)
    requires forall addr :: addr in addrs ==> 95 <= |TxtValue(addr, sender.peer)|
    ensures Learned(Received(sender.Packet(addrs)), from, config) == []
  {
    forall addr | addr in addrs ensures |TxtValue(addr, sender.peer)| <= MAX_TXT_VALUE_LENGTH {
      assert Accepts(TxtValue(addr, sender.peer));
    }
    FullPacketSize(sender, addrs);
    LearnedThroughBuffer(sender, addrs, from, config);
  }

  /** And every sender can be made to send one, without a space in it. */
  lemma PacketNotReceived(sender: Sender, from: SocketAddr, config: Config) returns (addrs: seq<Multiaddr>)
    requires sender.Valid() && |sender.peer| <= 235
    ensures sender.Sendable(addrs) == addrs != [] && SpaceFree(sender, addrs)
    ensures Flatten(LearnedEach(ReceivedEach(sender.Packets(addrs)), from, config)) == []
  {
    hide Sender.Packet, TxtValue, Learned, Received;
    var addr := LongAddress(sender.peer);
    addrs := seq(MAX_RECORDS_PER_PACKET, i => addr);
    SentInOnePacket(sender, addrs);
    FullPacketIsNotReceived(sender, addrs, from, config);
    var lists := LearnedEach(ReceivedEach(sender.Packets(addrs)), from, config);
    assert lists == [[]] && Flatten(lists[1..]) == [];
  }
}
