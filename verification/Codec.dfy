/** The decoder on what the encoder writes: when packets decode, to what, and how large they are. */
module Codec {
  import opened Bytes
  import opened Names
  import opened Messages
  import opened Dns

  // ---------------------------------------------------------------- headers and records

  lemma DecodeOfHeader(id: u16, flags: u16, qd: u16, an: u16, ns: u16, ar: u16, tail: Bytes)
    ensures DecodeHeader(HeaderBytes(id, flags, qd, an, ns, ar) + tail)
         == Parsed(Header(id, flags, qd, an, ns, ar), tail)
  {
    SixParts(U16(id), U16(flags), U16(qd), U16(an), U16(ns), U16(ar), tail);
    var b5 := U16(ar) + tail;
    var b4 := U16(ns) + b5;
    var b3 := U16(an) + b4;
    var b2 := U16(qd) + b3;
    var b1 := U16(flags) + b2;
    TakeU16OfU16(id, b1);
    TakeU16OfU16(flags, b2);
    TakeU16OfU16(qd, b3);
    TakeU16OfU16(an, b4);
    TakeU16OfU16(ns, b5);
    TakeU16OfU16(ar, tail);
  }

  lemma DecodeOfFixed(name: Bytes, rtype: u16, rclass: u16, ttl: u32, data: Bytes, tail: Bytes)
    requires ValidName(name) && |data| < 0x1_0000
    ensures DecodeFixed(RecordBytes(EncodeName(name), rtype, rclass, ttl, data) + tail)
         == if |name| <= 253 then Parsed(Fixed(LabelsOf(name), rtype, rclass, ttl, |data|), data + tail) else Malformed
  {
    var n := EncodeName(name);
    Assoc(RecordPrefix(n, rtype, rclass, ttl), LengthPrefixed(data), tail);
    Assoc(U16(|data|), data, tail);
    var b4 := U16(|data|) + (data + tail);
    var b3 := U32(ttl) + b4;
    var b2 := U16(rclass) + b3;
    var b1 := U16(rtype) + b2;
    FourParts(n, U16(rtype), U16(rclass), U32(ttl), b4);
    DecodeOfEncodeName(name, b1);
    TakeU16OfU16(rtype, b2);
    TakeU16OfU16(rclass, b3);
    TakeU32OfU32(ttl, b4);
    TakeU16OfU16(|data|, data + tail);
  }

  /** A record reads back as itself exactly when its name fits the limit and its data reads back. */
  lemma DecodeOfRecord(name: Bytes, rtype: u16, rclass: u16, ttl: u32, data: Bytes, tail: Bytes)
    requires ValidName(name) && |data| < 0x1_0000
    ensures DecodeRecord(RecordBytes(EncodeName(name), rtype, rclass, ttl, data) + tail)
         == if |name| <= 253 && DecodeRData(rtype, data).Some?
            then Parsed(Record(LabelsOf(name), rtype, rclass, ttl, DecodeRData(rtype, data).value), tail)
            else Malformed
  {
    DecodeOfFixed(name, rtype, rclass, ttl, data, tail);
    assert (data + tail)[..|data|] == data;
    assert (data + tail)[|data|..] == tail;
  }

  /** A pointer's data reads back as the name written, again within the limit. */
  lemma DecodeOfPtrData(target: Bytes)
    requires ValidName(target)
    ensures DecodeRData(TYPE_PTR, EncodeName(target)) == if |target| <= 253 then Some(Ptr(LabelsOf(target))) else None
  {
    DecodeOfEncodeName(target, []);
    EncodedNameLength(target);
    assert EncodeName(target) + [] == EncodeName(target);
  }

  /** What a decoder does with `part` at the front of any buffer. */
  ghost predicate ReadsAs<T(!new)>(decode: Bytes -> Parsed<T>, part: Bytes, outcome: Option<T>) {
    forall tail :: decode(part + tail) == if outcome.Some? then Parsed(outcome.value, tail) else Malformed
  }

  ghost predicate AllSome<T>(outcomes: seq<Option<T>>) {
    forall i :: 0 <= i < |outcomes| ==> outcomes[i].Some?
  }

  ghost function Values<T>(outcomes: seq<Option<T>>): seq<T>
    requires AllSome(outcomes)
  {
    seq(|outcomes|, i requires 0 <= i < |outcomes| => outcomes[i].value)
  }

  /** Items written one after the other are read one after the other, and all fail if one does. */
  lemma {:induction false} DecodeManyOf<T(!new)>(decode: Bytes -> Parsed<T>, parts: seq<Bytes>,
                                                 outcomes: seq<Option<T>>)
    requires |parts| == |outcomes|
    requires forall i :: 0 <= i < |parts| ==> ReadsAs(decode, parts[i], outcomes[i])
    ensures DecodeMany(decode, Flatten(parts), |parts|)
         == if AllSome(outcomes) then Parsed(Values(outcomes), []) else Malformed
    decreases |parts|
  {
    if parts != [] {
      var more := outcomes[1..];
      DecodeManyOf(decode, parts[1..], more);
      assert ReadsAs(decode, parts[0], outcomes[0]);
      assert outcomes == [outcomes[0]] + more;
      if outcomes[0].Some? && AllSome(more) {
        assert AllSome(outcomes);
        assert Values(outcomes) == [outcomes[0].value] + Values(more);
      }
    }
  }

  lemma {:induction false} DecodeManyOne<T>(decode: Bytes -> Parsed<T>, b: Bytes)
    ensures DecodeMany(decode, b, 0) == Parsed([], b)
    ensures DecodeMany(decode, b, 1)
         == match decode(b) case Malformed => Malformed case Parsed(x, rest) => Parsed([x], rest)
  {
    if decode(b).Parsed? {
      assert DecodeMany(decode, decode(b).rest, 0) == Parsed([], decode(b).rest);
      assert [decode(b).value] + [] == [decode(b).value];
    }
  }

  /** A response read as one answer and `count` additional records. */
  function DecodeBody(id: u16, count: u16, body: Bytes): Parsed<Message> {
    var (answer, b) :- DecodeRecord(body);
    var (additionals, b) :- DecodeMany(DecodeRecord, b, count);
    Parsed(Message(id, 0x8400, [], [answer], [], additionals), b)
  }

  lemma DecodeOfResponse(id: u16, count: u16, body: Bytes)
    ensures DecodeMessage(HeaderBytes(id, 0x8400, 0, 1, 0, count) + body) == DecodeBody(id, count, body)
  {
    DecodeOfHeader(id, 0x8400, 0, 1, 0, count, body);
    DecodeManyOne(DecodeQuestion, body);
    DecodeManyOne(DecodeRecord, body);
    if DecodeRecord(body).Parsed? {
      DecodeManyOne(DecodeRecord, DecodeRecord(body).rest);
    }
  }

  // ---------------------------------------------------------------- TXT data

  lemma {:induction false} DecodeOneString(text: Bytes, tail: Bytes)
    requires |text| < 0x100
    ensures DecodeStrings([|text| as byte] + text + tail)
         == match DecodeStrings(tail) case None => None case Some(more) => Some([text] + more)
  {
    var data := [|text| as byte] + text + tail;
    assert data[1..1 + |text|] == text;
    assert data[1 + |text|..] == tail;
  }

  lemma {:induction false} EscapeLength(text: Bytes)
    ensures |text| <= |Escape(text)| <= 2 * |text|
    ensures QUOTE !in text && BACKSLASH !in text ==> Escape(text) == text
  {
    if text != [] {
      EscapeLength(text[1..]);
      assert text == [text[0]] + text[1..];
    }
  }

  lemma PlainStringReadsBack(value: Bytes)
    requires |value| <= MAX_TXT_VALUE_LENGTH && SPACE !in value
    ensures DecodeStrings(TxtData(value)) == Some([value])
  {
    DecodeOneString(value, []);
    assert [|value| as byte] + value + [] == TxtData(value);
    assert [value] + [] == [value];
  }

  lemma {:induction false} CutString(length: byte, text: Bytes)
    requires length < |text|
    ensures DecodeStrings([length] + text)
         == match DecodeStrings(text[length..]) case None => None case Some(more) => Some([text[..length]] + more)
    ensures DecodeStrings([length] + text).Some? ==> |DecodeStrings([length] + text).value| >= 2
  {
    DecodeOneString(text[..length], text[length..]);
    assert [length] + text[..length] + text[length..] == [length] + text;
    assert DecodeStrings(text[length..]) != Some([]);
  }

  /** The strings a receiver reads from a value's record are that value and nothing else exactly when
      the value has no space: quoting adds bytes the length octet does not count. */
  lemma StringReadsBackExactly(value: Bytes)
    requires |value| <= MAX_TXT_VALUE_LENGTH
    ensures DecodeStrings(TxtData(value)) == Some([value]) <==> SPACE !in value
  {
    hide DecodeStrings, Escape;
    if SPACE !in value {
      PlainStringReadsBack(value);
    } else {
      EscapeLength(value);
      CutString(|value|, CharacterString(value));
      assert TxtData(value) == [|value|] + CharacterString(value);
    }
  }

  lemma EndOfQuoted(value: Bytes)
    requires value != []
    ensures ([QUOTE] + value + [QUOTE])[|value|..] == [value[|value| - 1], QUOTE]
  {
  }

  lemma TwoBytesUnreadable(a: byte, b: byte)
    requires a >= 2
    ensures DecodeStrings([a, b]) == None
  {
  }

  /** With a space, and nothing to escape, the bytes left over do not even form a string. */
  lemma SpacedValueIsUnreadable(value: Bytes)
    requires 1 <= |value| <= MAX_TXT_VALUE_LENGTH
    requires SPACE in value && QUOTE !in value && BACKSLASH !in value
    requires value[|value| - 1] >= 2
    ensures DecodeStrings(TxtData(value)) == None
  {
    hide Escape, DecodeStrings;
    var text := CharacterString(value);
    EscapeLength(value);
    EndOfQuoted(value);
    TwoBytesUnreadable(value[|value| - 1], QUOTE);
    assert TxtData(value) == [|value|] + text;
    CutString(|value|, text);
  }
}
