/** DNS messages as a receiver sees them, and the decoder of sections 3.1, 3.3 and 4.1 of RFC 1035
    without name compression. It stands for the parser the program calls, whose source is not part
    of this model. */
module Messages {
  import opened Bytes
  import opened Names
  import opened Dns

  datatype Question = Question(name: Labels, qtype: u16, qclass: u16)

  datatype RData =
    | NoData
    | Ptr(target: Labels)
    | Txt(strings: seq<Bytes>)
    | Other(data: Bytes)

  datatype Record = Record(name: Labels, rtype: u16, rclass: u16, ttl: u32, data: RData)

  datatype Message = Message(
    id: u16,
    flags: u16,
    queries: seq<Question>,
    answers: seq<Record>,
    authorities: seq<Record>,
    additionals: seq<Record>)

  // ---------------------------------------------------------------- decoding

  /** Section 3.3.14: one or more character strings filling the record data. */
  function DecodeStrings(data: Bytes): Option<seq<Bytes>> {
    if data == [] then Some([])
    else if |data| < 1 + data[0] as int then None
    else
      var tail :- DecodeStrings(data[1 + data[0] as int..]);
      Some([data[1..1 + data[0] as int]] + tail)
  }

  function DecodeRData(rtype: u16, data: Bytes): Option<RData> {
    if data == [] then Some(NoData)
    else if rtype == TYPE_PTR then
      match DecodeName(data)
      case Parsed(name, rest) => if rest == [] then Some(Ptr(name)) else None
      case Malformed => None
    else if rtype == TYPE_TXT then
      var strings :- DecodeStrings(data);
      Some(Txt(strings))
    else
      Some(Other(data))
  }

  function DecodeQuestion(b: Bytes): Parsed<Question> {
    var (name, b) :- DecodeName(b);
    var (qtype, b) :- TakeU16(b);
    var (qclass, b) :- TakeU16(b);
    Parsed(Question(name, qtype, qclass), b)
  }

  datatype Fixed = Fixed(name: Labels, rtype: u16, rclass: u16, ttl: u32, length: u16)

  /** Section 4.1.3: a record up to and including its data length. */
  function DecodeFixed(b: Bytes): Parsed<Fixed> {
    var (name, b) :- DecodeName(b);
    var (rtype, b) :- TakeU16(b);
    var (rclass, b) :- TakeU16(b);
    var (ttl, b) :- TakeU32(b);
    var (length, b) :- TakeU16(b);
    Parsed(Fixed(name, rtype, rclass, ttl, length), b)
  }

  function DecodeRecord(b: Bytes): Parsed<Record> {
    var (f, b) :- DecodeFixed(b);
    if |b| < f.length then Malformed
    else
      match DecodeRData(f.rtype, b[..f.length])
      case None => Malformed
      case Some(data) => Parsed(Record(f.name, f.rtype, f.rclass, f.ttl, data), b[f.length..])
  }

  /** `n` items, one after the other. */
  function DecodeMany<T>(decode: Bytes -> Parsed<T>, b: Bytes, n: nat): Parsed<seq<T>>
    decreases n
  {
    if n == 0 then Parsed([], b)
    else
      var (x, b) :- decode(b);
      var (xs, b) :- DecodeMany(decode, b, n - 1);
      Parsed([x] + xs, b)
  }

  datatype Header = Header(id: u16, flags: u16, qd: u16, an: u16, ns: u16, ar: u16)

  function DecodeHeader(b: Bytes): Parsed<Header> {
    var (id, b) :- TakeU16(b);
    var (flags, b) :- TakeU16(b);
    var (qd, b) :- TakeU16(b);
    var (an, b) :- TakeU16(b);
    var (ns, b) :- TakeU16(b);
    var (ar, b) :- TakeU16(b);
    Parsed(Header(id, flags, qd, an, ns, ar), b)
  }

  /** Section 4.1. Bytes after the last counted record are left unread, and ignored by callers. */
  function DecodeMessage(b: Bytes): Parsed<Message> {
    var (h, b) :- DecodeHeader(b);
    var (queries, b) :- DecodeMany(DecodeQuestion, b, h.qd);
    var (answers, b) :- DecodeMany(DecodeRecord, b, h.an);
    var (authorities, b) :- DecodeMany(DecodeRecord, b, h.ns);
    var (additionals, b) :- DecodeMany(DecodeRecord, b, h.ar);
    Parsed(Message(h.id, h.flags, queries, answers, authorities, additionals), b)
  }

  // ---------------------------------------------------------------- bytes that follow change nothing

  lemma TakeBefore(b: Bytes, tail: Bytes)
    ensures TakeU16(b).Parsed? ==> TakeU16(b + tail) == TakeU16(b).Before(tail)
    ensures TakeU32(b).Parsed? ==> TakeU32(b + tail) == TakeU32(b).Before(tail)
  {
    if |b| >= 2 {
      assert (b + tail)[2..] == b[2..] + tail;
    }
    if |b| >= 4 {
      assert (b + tail)[4..] == b[4..] + tail;
    }
  }

  lemma DecodeHeaderBefore(b: Bytes, tail: Bytes)
    requires DecodeHeader(b).Parsed?
    ensures DecodeHeader(b + tail) == DecodeHeader(b).Before(tail)
  {
    assert (b + tail)[2..][2..][2..][2..][2..][2..] == b[2..][2..][2..][2..][2..][2..] + tail;
  }

  lemma DecodeQuestionBefore(b: Bytes, tail: Bytes)
    requires DecodeQuestion(b).Parsed?
    ensures DecodeQuestion(b + tail) == DecodeQuestion(b).Before(tail)
  {
    DecodeNameBefore(b, tail);
    var b1 := DecodeName(b).rest;
    TakeBefore(b1, tail);
    TakeBefore(b1[2..], tail);
  }

  lemma DecodeFixedBefore(b: Bytes, tail: Bytes)
    requires DecodeFixed(b).Parsed?
    ensures DecodeFixed(b + tail) == DecodeFixed(b).Before(tail)
  {
    DecodeNameBefore(b, tail);
    var b1 := DecodeName(b).rest;
    TakeBefore(b1, tail);
    TakeBefore(b1[2..], tail);
    TakeBefore(b1[2..][2..], tail);
    TakeBefore(b1[2..][2..][4..], tail);
  }

  lemma DecodeRecordBefore(b: Bytes, tail: Bytes)
    requires DecodeRecord(b).Parsed?
    ensures DecodeRecord(b + tail) == DecodeRecord(b).Before(tail)
  {
    DecodeFixedBefore(b, tail);
    var n, b1 := DecodeFixed(b).value.length, DecodeFixed(b).rest;
    assert (b1 + tail)[..n] == b1[..n];
    assert (b1 + tail)[n..] == b1[n..] + tail;
  }

  /** A decoder that reads forward and never looks past what it consumes. */
  ghost predicate ReadsForward<T(!new)>(decode: Bytes -> Parsed<T>) {
    forall b, tail :: decode(b).Parsed? ==> decode(b + tail) == decode(b).Before(tail)
  }

  lemma {:induction false} DecodeManyBefore<T(!new)>(decode: Bytes -> Parsed<T>, b: Bytes, n: nat, tail: Bytes)
    requires ReadsForward(decode)
    requires DecodeMany(decode, b, n).Parsed?
    ensures DecodeMany(decode, b + tail, n) == DecodeMany(decode, b, n).Before(tail)
    decreases n
  {
    if n > 0 {
      DecodeManyBefore(decode, decode(b).rest, n - 1, tail);
    }
  }

  lemma ItemsReadForward()
    ensures ReadsForward(DecodeQuestion) && ReadsForward(DecodeRecord)
  {
    forall b, tail | DecodeQuestion(b).Parsed? ensures DecodeQuestion(b + tail) == DecodeQuestion(b).Before(tail) {
      DecodeQuestionBefore(b, tail);
    }
    forall b, tail | DecodeRecord(b).Parsed? ensures DecodeRecord(b + tail) == DecodeRecord(b).Before(tail) {
      DecodeRecordBefore(b, tail);
    }
  }

  /** A decoded message is decoded alike with bytes behind it. */
  lemma DecodeMessageBefore(b: Bytes, tail: Bytes)
    requires DecodeMessage(b).Parsed?
    ensures DecodeMessage(b + tail) == DecodeMessage(b).Before(tail)
  {
    ItemsReadForward();
    DecodeHeaderBefore(b, tail);
    var h, b1 := DecodeHeader(b).value, DecodeHeader(b).rest;
    DecodeManyBefore(DecodeQuestion, b1, h.qd, tail);
    var b2 := DecodeMany(DecodeQuestion, b1, h.qd).rest;
    DecodeManyBefore(DecodeRecord, b2, h.an, tail);
    var b3 := DecodeMany(DecodeRecord, b2, h.an).rest;
    DecodeManyBefore(DecodeRecord, b3, h.ns, tail);
    var b4 := DecodeMany(DecodeRecord, b3, h.ns).rest;
    DecodeManyBefore(DecodeRecord, b4, h.ar, tail);
  }

  /** A message whose bytes are all needed has no proper prefix that decodes: cutting a datagram
      short anywhere makes the receiver reject it. */
  lemma NoPrefixDecodes(b: Bytes, n: nat)
    requires DecodeMessage(b).Parsed? && DecodeMessage(b).rest == []
    requires n < |b|
    ensures DecodeMessage(b[..n]).Malformed?
  {
    assert b == b[..n] + b[n..];
    if DecodeMessage(b[..n]).Parsed? {
      DecodeMessageBefore(b[..n], b[n..]);
    }
  }
}
