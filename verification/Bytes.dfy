/** Machine integers, byte strings, and the two helpers every other module leans on:
    a parse result that carries the unread bytes, and splitting on a separator. */
module Bytes {

  type byte = x: int | 0 <= x < 0x100
  type u8 = byte
  type u16 = x: int | 0 <= x < 0x1_0000
  type u32 = x: int | 0 <= x < 0x1_0000_0000

  /** Texts are kept as their UTF-8 bytes, because every length the program takes is a byte length. */
  type Bytes = seq<byte>

  datatype Option<+T> = None | Some(value: T) {
    predicate IsFailure() { None? }

    function PropagateFailure<U>(): Option<U>
      requires None?
    {
      None
    }

    function Extract(): T
      requires Some?
    {
      value
    }
  }

  /** What a decoder returns: the value read and the bytes it left unread. */
  datatype Parsed<+T> = Malformed | Parsed(value: T, rest: Bytes) {
    predicate IsFailure() { Malformed? }

    function PropagateFailure<U>(): Parsed<U>
      requires Malformed?
    {
      Malformed
    }

    function Extract(): (T, Bytes)
      requires Parsed?
    {
      (value, rest)
    }

    /** The same outcome with `tail` left unread as well. */
    function Before(tail: Bytes): Parsed<T> {
      match this
      case Malformed => Malformed
      case Parsed(v, r) => Parsed(v, r + tail)
    }
  }

  predicate IsAscii(text: Bytes) {
    forall i :: 0 <= i < |text| ==> text[i] < 0x80
  }

  /** The bytes of a literal. */
  function Ascii(s: string): Bytes
    requires forall c :: c in s ==> c as int < 0x80
  {
    seq<byte>(|s|, i requires 0 <= i < |s| => assert s[i] in s; s[i] as byte)
  }

  function Min(a: int, b: int): int {
    if a < b then a else b
  }

  function Max(a: int, b: int): int {
    if a < b then b else a
  }

  /** The program's narrowing casts drop the high bits. */
  function CastU8(n: nat): u8 {
    n % 0x100
  }

  function CastU16(n: nat): u16 {
    n % 0x1_0000
  }

  // ---------------------------------------------------------------- big-endian integers

  function U16(v: u16): Bytes {
    [v / 0x100, v % 0x100]
  }

  function U32(v: u32): Bytes {
    [v / 0x100_0000, v / 0x1_0000 % 0x100, v / 0x100 % 0x100, v % 0x100]
  }

  function TakeU16(b: Bytes): Parsed<u16> {
    if |b| < 2 then Malformed else Parsed(b[0] as int * 0x100 + b[1] as int, b[2..])
  }

  function TakeU32(b: Bytes): Parsed<u32> {
    if |b| < 4 then Malformed
    else Parsed(b[0] as int * 0x100_0000 + b[1] as int * 0x1_0000 + b[2] as int * 0x100 + b[3] as int, b[4..])
  }

  lemma TakeU16OfU16(v: u16, tail: Bytes)
    ensures TakeU16(U16(v) + tail) == Parsed(v, tail)
  {
    assert (U16(v) + tail)[2..] == tail;
  }

  lemma TakeU32OfU32(v: u32, tail: Bytes)
    ensures TakeU32(U32(v) + tail) == Parsed(v, tail)
  {
    assert (U32(v) + tail)[4..] == tail;
    assert v / 0x1_0000 == v / 0x100 / 0x100 && v / 0x100_0000 == v / 0x100 / 0x100 / 0x100;
  }

  // ---------------------------------------------------------------- separators

  /** The pieces between separators; a text without separators is one piece. */
  function Split(text: Bytes, sep: byte): (parts: seq<Bytes>)
    ensures |parts| >= 1
    ensures forall i :: 0 <= i < |parts| ==> sep !in parts[i]
  {
    if text == [] then [[]]
    else
      var parts := Split(text[1..], sep);
      if text[0] == sep then [[]] + parts else [[text[0]] + parts[0]] + parts[1..]
  }

  function Join(parts: seq<Bytes>, sep: byte): Bytes
    requires |parts| >= 1
  {
    if |parts| == 1 then parts[0] else parts[0] + [sep] + Join(parts[1..], sep)
  }

  /** Splitting loses nothing. */
  lemma {:induction false} JoinOfSplit(text: Bytes, sep: byte)
    ensures Join(Split(text, sep), sep) == text
  {
    if text != [] {
      JoinOfSplit(text[1..], sep);
      var parts := Split(text[1..], sep);
      if text[0] == sep {
        assert Split(text, sep)[1..] == parts;
      } else {
        assert Split(text, sep)[1..] == parts[1..];
      }
      assert text == [text[0]] + text[1..];
    }
  }

  lemma {:induction false} SplitOfPiece(piece: Bytes, sep: byte)
    requires sep !in piece
    ensures Split(piece, sep) == [piece]
  {
    if piece != [] {
      SplitOfPiece(piece[1..], sep);
      assert piece == [piece[0]] + piece[1..];
    }
  }

  lemma {:induction false} SplitAfterPiece(piece: Bytes, tail: Bytes, sep: byte)
    requires sep !in piece
    ensures Split(piece + [sep] + tail, sep) == [piece] + Split(tail, sep)
  {
    var text := piece + [sep] + tail;
    if piece == [] {
      assert text[1..] == tail;
    } else {
      SplitAfterPiece(piece[1..], tail, sep);
      assert text[1..] == piece[1..] + [sep] + tail;
      assert piece == [piece[0]] + piece[1..];
    }
  }

  /** Joining separator-free pieces loses nothing. */
  lemma {:induction false} SplitOfJoin(parts: seq<Bytes>, sep: byte)
    requires |parts| >= 1
    requires forall i :: 0 <= i < |parts| ==> sep !in parts[i]
    ensures Split(Join(parts, sep), sep) == parts
  {
    if |parts| == 1 {
      SplitOfPiece(parts[0], sep);
    } else {
      SplitOfJoin(parts[1..], sep);
      SplitAfterPiece(parts[0], Join(parts[1..], sep), sep);
    }
  }

  lemma {:induction false} SplitCons(c: byte, text: Bytes, sep: byte)
    ensures var parts := Split(text, sep);
            Split([c] + text, sep) == if c == sep then [[]] + parts else [[c] + parts[0]] + parts[1..]
  {
    assert ([c] + text)[1..] == text;
  }

  lemma {:induction false} SplitAppend(a: Bytes, b: Bytes, sep: byte)
    ensures Split(a + [sep] + b, sep) == Split(a, sep) + Split(b, sep)
  {
    if a == [] {
      SplitCons(sep, b, sep);
      assert a + [sep] + b == [sep] + b;
    } else {
      hide Split;
      var c, more := a[0], a[1..];
      SplitAppend(more, b, sep);
      SplitCons(c, more, sep);
      SplitCons(c, more + [sep] + b, sep);
      assert a == [c] + more;
      Assoc([c], more, [sep]);
      Assoc([c], more + [sep], b);
      GrowFirst(Split(more, sep), Split(b, sep), c);
    }
  }

  lemma GrowFirst(x: seq<Bytes>, y: seq<Bytes>, c: byte)
    requires |x| >= 1
    ensures [[c] + (x + y)[0]] + (x + y)[1..] == ([[c] + x[0]] + x[1..]) + y
    ensures [[]] + (x + y) == ([[]] + x) + y
  {
    assert (x + y)[1..] == x[1..] + y && (x + y)[0] == x[0];
    Assoc([[c] + x[0]], x[1..], y);
    Assoc([[]], x, y);
  }

  lemma {:induction false} JoinOfThree(a: Bytes, b: Bytes, c: Bytes, sep: byte)
    ensures Join([a, b, c], sep) == a + [sep] + (b + [sep] + c)
  {
    assert [a, b, c][1..] == [b, c] && [b, c][1..] == [c];
    assert Join([b, c], sep) == b + [sep] + Join([c], sep);
  }

  lemma {:induction false} JoinOfFour(a: Bytes, b: Bytes, c: Bytes, d: Bytes, sep: byte)
    ensures Join([a, b, c, d], sep) == a + [sep] + (b + [sep] + (c + [sep] + d))
  {
    assert [a, b, c, d][1..] == [b, c, d] && [b, c, d][1..] == [c, d] && [c, d][1..] == [d];
    assert Join([c, d], sep) == c + [sep] + Join([d], sep);
    assert Join([b, c, d], sep) == b + [sep] + Join([c, d], sep);
  }

  lemma Assoc<T>(a: seq<T>, b: seq<T>, c: seq<T>)
    ensures (a + b) + c == a + (b + c)
  {
  }

  lemma SixParts(a: Bytes, b: Bytes, c: Bytes, d: Bytes, e: Bytes, f: Bytes, tail: Bytes)
    ensures a + b + c + d + e + f + tail == a + (b + (c + (d + (e + (f + tail)))))
  {
    Assoc(a + b + c + d + e, f, tail);
    Assoc(a + b + c + d, e, f + tail);
    Assoc(a + b + c, d, e + (f + tail));
    Assoc(a + b, c, d + (e + (f + tail)));
    Assoc(a, b, c + (d + (e + (f + tail))));
  }

  lemma FourParts(a: Bytes, b: Bytes, c: Bytes, d: Bytes, tail: Bytes)
    ensures a + b + c + d + tail == a + (b + (c + (d + tail)))
  {
    Assoc(a + b + c, d, tail);
    Assoc(a + b, c, d + tail);
    Assoc(a, b, c + (d + tail));
  }

  lemma FiveParts(a: Bytes, b: Bytes, c: Bytes, d: Bytes, e: Bytes, tail: Bytes)
    ensures a + b + c + d + e + tail == a + (b + (c + (d + (e + tail))))
  {
    Assoc(a + b + c + d, e, tail);
    Assoc(a + b + c, d, e + tail);
    Assoc(a + b, c, d + (e + tail));
    Assoc(a, b, c + (d + (e + tail)));
  }

  function Flatten<T>(parts: seq<seq<T>>): seq<T> {
    if parts == [] then [] else parts[0] + Flatten(parts[1..])
  }

  lemma {:induction false} FlattenSnoc<T>(parts: seq<seq<T>>, last: seq<T>)
    ensures Flatten(parts + [last]) == Flatten(parts) + last
  {
    if parts == [] {
      assert ([] + [last])[1..] == [];
    } else {
      FlattenSnoc(parts[1..], last);
      assert (parts + [last])[1..] == parts[1..] + [last];
    }
  }

  /** The values `f` gives, in order, for the elements it gives one for. */
  function FilterMap<A, B>(f: A -> Option<B>, xs: seq<A>): seq<B> {
    if xs == [] then []
    else (if f(xs[0]).Some? then [f(xs[0]).value] else []) + FilterMap(f, xs[1..])
  }

  lemma {:induction false} FilterMapCat<A, B>(f: A -> Option<B>, a: seq<A>, b: seq<A>)
    ensures FilterMap(f, a + b) == FilterMap(f, a) + FilterMap(f, b)
  {
    if a == [] {
      assert a + b == b;
    } else {
      FilterMapCat(f, a[1..], b);
      assert (a + b)[1..] == a[1..] + b && (a + b)[0] == a[0];
      var head := if f(a[0]).Some? then [f(a[0]).value] else [];
      Assoc(head, FilterMap(f, a[1..]), FilterMap(f, b));
    }
  }

  lemma FilterMapOne<A, B>(f: A -> Option<B>, x: A)
    ensures FilterMap(f, [x]) == if f(x).Some? then [f(x).value] else []
  {
    assert [x][1..] == [];
  }
}
