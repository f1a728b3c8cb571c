/** Domain names: the dotted form the program writes, the label list and the wire form of
    section 3.1 of RFC 1035, and the rendering that received names are compared by. */
module Names {
  import opened Bytes

  const DOT: byte := 46
  const ESCAPE: byte := 92

  /** Section 2.3.4 of RFC 1035: a name takes at most 255 octets on the wire. */
  const MAX_NAME_LENGTH := 255

  type Label = l: Bytes | |l| < 64
  type Labels = seq<Label>

  predicate ValidLabel(l: Bytes) {
    0 < |l| < 64
  }

  /** The names `append_qname` does not panic on: every label non-empty and under 64 bytes. */
  predicate ValidName(name: Bytes) {
    forall l :: l in Split(name, DOT) ==> ValidLabel(l)
  }

  function LabelsOf(name: Bytes): (ls: Labels)
    requires ValidName(name)
  {
    var parts := Split(name, DOT);
    assert forall i :: 0 <= i < |parts| ==> parts[i] in parts;
    parts
  }

  // ---------------------------------------------------------------- wire form

  function EncodeLabels(ls: Labels): Bytes {
    if ls == [] then [0] else [|ls[0]| as byte] + ls[0] + EncodeLabels(ls[1..])
  }

  function EncodeName(name: Bytes): Bytes
    requires ValidName(name)
  {
    EncodeLabels(LabelsOf(name))
  }

  function DecodeLabels(b: Bytes): Parsed<Labels> {
    if b == [] then Malformed
    else if b[0] == 0 then Parsed([], b[1..])
    else if b[0] >= 64 || |b| < 1 + b[0] as int then Malformed
    else
      var (ls, rest) :- DecodeLabels(b[1 + b[0] as int..]);
      Parsed([b[1..1 + b[0] as int]] + ls, rest)
  }

  /** Reads a name: labels up to the zero octet, refusing a name of more than 255 octets. */
  function DecodeName(b: Bytes): Parsed<Labels> {
    var (ls, rest) :- DecodeLabels(b);
    if |b| - |rest| > MAX_NAME_LENGTH then Malformed else Parsed(ls, rest)
  }

  /** A dotted name grows by exactly two bytes: one more length octet than dots, and the zero octet. */
  lemma {:induction false} EncodedLength(parts: Labels)
    requires |parts| >= 1
    ensures |EncodeLabels(parts)| == |Join(parts, DOT)| + 2
  {
    if |parts| > 1 {
      EncodedLength(parts[1..]);
    } else {
      assert EncodeLabels(parts[1..]) == [0];
    }
  }

  lemma EncodedNameLength(name: Bytes)
    requires ValidName(name)
    ensures |EncodeName(name)| == |name| + 2
  {
    EncodedLength(LabelsOf(name));
    JoinOfSplit(name, DOT);
  }

  lemma {:induction false} EncodeCons(l: Label, ls: Labels)
    ensures EncodeLabels([l] + ls) == [|l| as byte] + l + EncodeLabels(ls)
  {
    assert ([l] + ls)[1..] == ls;
  }

  lemma {:induction false} DecodeCons(l: Bytes, tail: Bytes)
    requires ValidLabel(l)
    ensures var p := DecodeLabels(tail);
            DecodeLabels([|l| as byte] + l + tail) == if p.Malformed? then Malformed else Parsed([l] + p.value, p.rest)
  {
    var b := [|l| as byte] + l + tail;
    assert b[1..1 + |l|] == l && b[1 + |l|..] == tail;
  }

  lemma {:induction false} DecodeLabelsOfEncode(ls: Labels, tail: Bytes)
    requires forall l :: l in ls ==> ValidLabel(l)
    ensures DecodeLabels(EncodeLabels(ls) + tail) == Parsed(ls, tail)
  {
    if ls == [] {
      assert (EncodeLabels(ls) + tail)[1..] == tail;
    } else {
      hide DecodeLabels, EncodeLabels;
      var l, more := ls[0], ls[1..];
      assert ls == [l] + more;
      DecodeLabelsOfEncode(more, tail);
      EncodeCons(l, more);
      Assoc([|l| as byte] + l, EncodeLabels(more), tail);
      DecodeCons(l, EncodeLabels(more) + tail);
    }
  }

  /** The decoder recovers a written name, consuming its bytes and no others, exactly when the
      name fits the 255-octet limit; `append_qname` itself never checks that limit. */
  lemma DecodeOfEncodeName(name: Bytes, tail: Bytes)
    requires ValidName(name)
    ensures DecodeName(EncodeName(name) + tail)
         == if |name| <= 253 then Parsed(LabelsOf(name), tail) else Malformed
  {
    DecodeLabelsOfEncode(LabelsOf(name), tail);
    EncodedNameLength(name);
  }

  /** Nothing but a written name decodes: the bytes consumed are the encoding of the labels returned. */
  lemma {:induction false} EncodeOfDecodeLabels(b: Bytes)
    requires DecodeLabels(b).Parsed?
    ensures var p := DecodeLabels(b);
            (forall l :: l in p.value ==> ValidLabel(l)) && b == EncodeLabels(p.value) + p.rest
  {
    if b[0] != 0 {
      var n := b[0] as int;
      var rest := b[1 + n..];
      EncodeOfDecodeLabels(rest);
      Reassemble(b, n, DecodeLabels(rest).value, DecodeLabels(rest).rest);
    }
  }

  lemma {:induction false} Reassemble(b: Bytes, n: nat, ls: Labels, tail: Bytes)
    requires n < 64 && 1 + n <= |b| && b[0] == n && b[1 + n..] == EncodeLabels(ls) + tail
    ensures b == EncodeLabels([b[1..1 + n]] + ls) + tail
  {
    hide EncodeLabels;
    EncodeCons(b[1..1 + n], ls);
    Assoc([b[0]] + b[1..1 + n], EncodeLabels(ls), tail);
    assert b == [b[0]] + b[1..1 + n] + b[1 + n..];
  }

  lemma LabelStep(b: Bytes, tail: Bytes)
    requires b != [] && 0 < b[0] < 64 && |b| >= 1 + b[0] as int
    ensures var n := b[0] as int;
            && (b + tail)[0] == b[0] && (b + tail)[1..1 + n] == b[1..1 + n] && (b + tail)[1 + n..] == b[1 + n..] + tail
  {
  }

  /** Bytes after a complete name do not change how it is read. */
  lemma {:induction false} DecodeLabelsBefore(b: Bytes, tail: Bytes)
    requires DecodeLabels(b).Parsed?
    ensures DecodeLabels(b + tail) == DecodeLabels(b).Before(tail)
  {
    if b[0] == 0 {
      assert (b + tail)[1..] == b[1..] + tail;
    } else {
      DecodeLabelsBefore(b[1 + b[0] as int..], tail);
      LabelStep(b, tail);
    }
  }

  lemma DecodeNameBefore(b: Bytes, tail: Bytes)
    requires DecodeName(b).Parsed?
    ensures DecodeName(b + tail) == DecodeName(b).Before(tail)
  {
    DecodeLabelsBefore(b, tail);
  }

  // ---------------------------------------------------------------- comparison

  predicate PlainByte(b: byte) {
    48 <= b <= 57 || 65 <= b <= 90 || 97 <= b <= 122 || b == 45 || b == 95
  }

  predicate PlainBytes(l: Bytes) {
    forall i :: 0 <= i < |l| ==> PlainByte(l[i])
  }

  /** The names all of whose bytes are letters, digits, hyphens, underscores and dots. */
  predicate PlainName(name: Bytes) {
    forall l :: l in Split(name, DOT) ==> PlainBytes(l)
  }

  /** Not beginning with a hyphen, an asterisk or `xn--`, for which the library has text forms of its own. */
  predicate OrdinaryLabel(l: Bytes) {
    && (l != [] ==> l[0] != 45 && l[0] != 42)
    && !(|l| >= 4 && Lower(l[..4]) == Ascii("xn--"))
  }

  predicate OrdinaryName(name: Bytes) {
    forall l :: l in Split(name, DOT) ==> OrdinaryLabel(l)
  }

  /** Section 5.1 of RFC 1035: a byte with a meaning of its own is written behind a backslash, and one
      that does not print as three digits. */
  function SpellByte(b: byte): Bytes {
    if PlainByte(b) then [b]
    else if 33 <= b <= 126 then [ESCAPE, b]
    else [ESCAPE, 48 + b / 100, 48 + b / 10 % 10, 48 + b % 10]
  }

  function Spell(l: Bytes): Bytes {
    if l == [] then [] else SpellByte(l[0]) + Spell(l[1..])
  }

  /** The text form of a received, hence fully qualified, name. */
  function Render(ls: Labels): Bytes {
    if ls == [] then [DOT] else RenderLabels(ls)
  }

  function RenderLabels(ls: Labels): Bytes {
    if ls == [] then [] else Spell(ls[0]) + [DOT] + RenderLabels(ls[1..])
  }

  lemma SpellByteGrows(b: byte)
    ensures if PlainByte(b) then SpellByte(b) == [b] else |SpellByte(b)| > 1 && SpellByte(b)[0] == ESCAPE
  {
  }

  /** Only plain bytes are written as they are; everything else leaves a backslash and takes more room. */
  lemma {:induction false} SpellPlain(l: Bytes)
    ensures if PlainBytes(l) then Spell(l) == l else ESCAPE in Spell(l) && |Spell(l)| > |l|
    ensures |Spell(l)| >= |l|
  {
    if l != [] {
      SpellPlain(l[1..]);
      SpellByteGrows(l[0]);
      assert l == [l[0]] + l[1..];
      if !PlainByte(l[0]) {
        assert Spell(l)[0] == ESCAPE;
      }
    }
  }

  ghost predicate AllPlain(ls: Labels) {
    forall l :: l in ls ==> PlainBytes(l)
  }

  lemma {:induction false} RenderJoin(ls: Labels)
    requires |ls| >= 1
    ensures AllPlain(ls) ==> Render(ls) == Join(ls, DOT) + [DOT]
    ensures !AllPlain(ls) ==> ESCAPE in Render(ls) && |Render(ls)| > |Join(ls, DOT)| + 1
    ensures |Render(ls)| >= |Join(ls, DOT)| + 1
  {
    SpellPlain(ls[0]);
    assert ls == [ls[0]] + ls[1..];
    if |ls| == 1 {
      assert RenderLabels(ls[1..]) == [];
    } else {
      RenderJoin(ls[1..]);
    }
  }

  /** A name's own text form is the name and a final dot if and only if the name is plain. */
  lemma RenderOwn(name: Bytes)
    requires ValidName(name)
    ensures Render(LabelsOf(name)) == name + [DOT] <==> PlainName(name)
    ensures !PlainName(name) ==> ESCAPE in Render(LabelsOf(name))
  {
    JoinOfSplit(name, DOT);
    RenderJoin(LabelsOf(name));
    assert AllPlain(LabelsOf(name)) <==> PlainName(name);
  }

  /** Whether a name, once written and read, has the text it was written from: it fits the limit of names and
      has nothing to escape. */
  predicate ComesBack(name: Bytes) {
    |name| <= 253 && PlainName(name)
  }

  /** A text without backslashes is a name's text form only if it is the name itself, and plain. */
  lemma RenderOther(name: Bytes, other: Bytes)
    requires ValidName(name) && ESCAPE !in other
    ensures Render(LabelsOf(name)) == other + [DOT] <==> name == other && PlainName(name)
  {
    RenderOwn(name);
    DotEnds(name, other);
  }

  lemma DotEnds(a: Bytes, b: Bytes)
    ensures a + [DOT] == b + [DOT] <==> a == b
  {
    assert (a + [DOT])[..|a|] == a && (b + [DOT])[..|b|] == b;
    if a + [DOT] == b + [DOT] {
      assert |a| == |b|;
    }
  }

  lemma PlainHasNoEscape(name: Bytes)
    requires PlainName(name)
    ensures ESCAPE !in name
  {
    JoinOfSplit(name, DOT);
    NoEscapeInJoin(Split(name, DOT));
  }

  lemma {:induction false} NoEscapeInJoin(parts: seq<Bytes>)
    requires |parts| >= 1 && forall l :: l in parts ==> PlainBytes(l)
    ensures ESCAPE !in Join(parts, DOT)
  {
    assert parts[0] in parts;
    if |parts| > 1 {
      NoEscapeInJoin(parts[1..]);
    }
  }

  // ---------------------------------------------------------------- no two names look alike

  /** No byte's spelling begins another's, and none begins with the dot that ends a label. */
  lemma SpellByteIsCode(a: byte, x: Bytes, b: byte, y: Bytes)
    requires SpellByte(a) + x == SpellByte(b) + y
    ensures a == b && x == y
  {
    var s, t := SpellByte(a), SpellByte(b);
    assert (s + x)[0] == s[0] && (t + y)[0] == t[0];
    if |s| > 1 && |t| > 1 {
      assert (s + x)[1] == s[1] && (t + y)[1] == t[1];
      if |s| == 4 && |t| == 4 {
        assert (s + x)[2] == s[2] && (t + y)[2] == t[2] && (s + x)[3] == s[3] && (t + y)[3] == t[3];
        DigitsDetermine(a, b);
      }
    }
    assert x == (s + x)[|s|..] && y == (t + y)[|t|..];
  }

  lemma DigitsDetermine(a: byte, b: byte)
    requires a / 100 == b / 100 && a / 10 % 10 == b / 10 % 10 && a % 10 == b % 10
    ensures a == b
  {
    assert a / 100 == a / 10 / 10 && b / 100 == b / 10 / 10;
  }

  lemma SpellByteIsNoDot(b: byte, x: Bytes, y: Bytes)
    ensures SpellByte(b) + x != [DOT] + y
  {
    assert (SpellByte(b) + x)[0] == SpellByte(b)[0] && ([DOT] + y)[0] == DOT;
  }

  lemma {:induction false} SpellCons(l: Bytes, x: Bytes)
    requires l != []
    ensures Spell(l) + [DOT] + x == SpellByte(l[0]) + (Spell(l[1..]) + [DOT] + x)
  {
    Assoc(SpellByte(l[0]), Spell(l[1..]), [DOT]);
    Assoc(SpellByte(l[0]), Spell(l[1..]) + [DOT], x);
  }

  lemma {:induction false} SpellIsCode(k: Bytes, x: Bytes, l: Bytes, y: Bytes)
    requires Spell(k) + [DOT] + x == Spell(l) + [DOT] + y
    ensures k == l && x == y
  {
    hide SpellByte;
    if k != [] {
      SpellCons(k, x);
    }
    if l != [] {
      SpellCons(l, y);
    }
    if k == [] && l == [] {
      assert Spell(k) + [DOT] == [DOT] && Spell(l) + [DOT] == [DOT];
      assert x == ([DOT] + x)[1..] && y == ([DOT] + y)[1..];
    } else if k == [] {
      SpellByteIsNoDot(l[0], Spell(l[1..]) + [DOT] + y, x);
    } else if l == [] {
      SpellByteIsNoDot(k[0], Spell(k[1..]) + [DOT] + x, y);
    } else {
      SpellByteIsCode(k[0], Spell(k[1..]) + [DOT] + x, l[0], Spell(l[1..]) + [DOT] + y);
      SpellIsCode(k[1..], x, l[1..], y);
      assert k == [k[0]] + k[1..] && l == [l[0]] + l[1..];
    }
  }

  lemma {:induction false} RenderLabelsInjective(ks: Labels, ls: Labels)
    requires RenderLabels(ks) == RenderLabels(ls)
    ensures ks == ls
  {
    hide Spell;
    if ks != [] && ls != [] {
      SpellIsCode(ks[0], RenderLabels(ks[1..]), ls[0], RenderLabels(ls[1..]));
      RenderLabelsInjective(ks[1..], ls[1..]);
      assert ks == [ks[0]] + ks[1..] && ls == [ls[0]] + ls[1..];
    }
  }

  /** Different names have different text forms: only a list that is one empty label looks like the root. */
  lemma RenderExactly(ks: Labels, ls: Labels)
    requires ls != [] && ls[0] != []
    ensures Render(ks) == Render(ls) <==> ks == ls
  {
    hide Spell;
    SpellPlain(ls[0]);
    assert |Render(ls)| > 1;
    if Render(ks) == Render(ls) && ks != [] {
      RenderLabelsInjective(ks, ls);
    }
  }

  function LowerByte(b: byte): byte {
    if 65 <= b <= 90 then b + 32 else b
  }

  function Lower(l: Bytes): Bytes {
    seq<byte>(|l|, i requires 0 <= i < |l| => LowerByte(l[i]))
  }

  /** Section 2.3.3 of RFC 1035: names are compared without regard to case. */
  predicate SameName(a: Labels, b: Labels) {
    |a| == |b| && forall i :: 0 <= i < |a| ==> Lower(a[i]) == Lower(b[i])
  }

  /** The same byte, or one letter in both cases. */
  predicate SameByte(x: byte, y: byte) {
    x == y || (65 <= x <= 90 && y == x + 32) || (65 <= y <= 90 && x == y + 32)
  }

  predicate SameLabel(a: Bytes, b: Bytes) {
    |a| == |b| && forall k :: 0 <= k < |a| ==> SameByte(a[k], b[k])
  }

  lemma SameLabelExactly(a: Bytes, b: Bytes)
    ensures Lower(a) == Lower(b) <==> SameLabel(a, b)
  {
    if Lower(a) == Lower(b) {
      assert |Lower(a)| == |a| && |Lower(b)| == |b|;
      forall k | 0 <= k < |a| ensures SameByte(a[k], b[k]) {
        assert Lower(a)[k] == Lower(b)[k];
      }
    }
  }

  /** Two names are taken for the same just when they differ in nothing but the case of letters. */
  lemma SameNameExactly(a: Labels, b: Labels)
    ensures SameName(a, b) <==> |a| == |b| && forall i :: 0 <= i < |a| ==> SameLabel(a[i], b[i])
  {
    hide Lower, SameLabel;
    forall i | 0 <= i < |a| && |a| == |b| ensures Lower(a[i]) == Lower(b[i]) <==> SameLabel(a[i], b[i]) {
      SameLabelExactly(a[i], b[i]);
    }
  }
}
