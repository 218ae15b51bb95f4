/** encodeURIComponent and decodeURIComponent over UTF-16: section 2.1 of RFC 3986 over section 3 of RFC 3629. */
module UrlCodec {
  import opened JsStrings

  const PERCENT: CodeUnit := 37
  const SLASH: CodeUnit := 47
  const QUESTION: CodeUnit := 63

  type Byte = b: nat | b < 0x100

  type CodePoint = c: nat | c < 0x11_0000 && !(0xD800 <= c < 0xE000)

  // ---------- UTF-16 ----------

  predicate IsHigh(u: CodeUnit) { 0xD800 <= u < 0xDC00 }

  predicate IsLow(u: CodeUnit) { 0xDC00 <= u < 0xE000 }

  /** The code point a string starts with; None at a lone surrogate. */
  function FirstPoint(s: JsString): Option<CodePoint>
    requires s != []
  {
    if IsLow(s[0]) then None
    else if IsHigh(s[0]) then
      if |s| >= 2 && IsLow(s[1]) then Some(FromPair(s[0], s[1])) else None
    else Some(s[0])
  }

  function FromPair(high: int, low: int): CodePoint
    requires 0xD800 <= high < 0xDC00 <= low < 0xE000
  {
    0x1_0000 + (high - 0xD800) * 0x400 + (low - 0xDC00)
  }

  function Width(c: CodePoint): nat {
    if c < 0x1_0000 then 1 else 2
  }

  function Utf16(c: CodePoint): JsString {
    if c < 0x1_0000 then [c] else [0xD800 + (c - 0x1_0000) / 0x400, 0xDC00 + (c - 0x1_0000) % 0x400]
  }

  /** No lone surrogates. */
  predicate WellFormed(s: JsString)
    decreases |s|
  {
    s == [] || (FirstPoint(s).Some? && WellFormed(s[Width(FirstPoint(s).value)..]))
  }

  function Past(unit: int, base: int): int { unit - base }

  lemma FirstPointUtf16(s: JsString)
    requires s != [] && FirstPoint(s).Some?
    ensures var c := FirstPoint(s).value; Width(c) <= |s| && s == Utf16(c) + s[Width(c)..]
    ensures FirstPoint(s).value
         == if 0xD800 <= s[0] <= 0xDBFF then Past(s[0], 0xD800) * 1024 + Past(s[1], 0xDC00) + 65536 else s[0]
  {
  }

  // ---------- UTF-8 ----------

  function Utf8(c: CodePoint): seq<Byte> {
    if c < 0x80 then [c]
    else if c < 0x800 then [0xC0 + c / 0x40, 0x80 + c % 0x40]
    else if c < 0x1_0000 then [0xE0 + c / 0x40 / 0x40, 0x80 + c / 0x40 % 0x40, 0x80 + c % 0x40]
    else [0xF0 + c / 0x40 / 0x40 / 0x40, 0x80 + c / 0x40 / 0x40 % 0x40, 0x80 + c / 0x40 % 0x40, 0x80 + c % 0x40]
  }

  /** How many bytes a leading byte announces; 0 when it cannot lead. */
  function Announced(b: Byte): nat {
    if b < 0x80 then 1
    else if b < 0xC0 then 0
    else if b < 0xE0 then 2
    else if b < 0xF0 then 3
    else if b < 0xF8 then 4 else 0
  }

  predicate Continues(b: Byte) { 0x80 <= b < 0xC0 }

  /** Six more bits. */
  function Shift(acc: int, b: int): int { acc * 0x40 + (b - 0x80) }

  /** The bits the bytes carry, and the least value that needs this many bytes. */
  function Payload(bs: seq<Byte>): (int, int)
    requires bs != [] && |bs| == Announced(bs[0])
  {
    var lead: int := bs[0];
    if |bs| == 1 then (lead, 0)
    else if |bs| == 2 then (Shift(lead - 0xC0, bs[1]), 0x80)
    else if |bs| == 3 then (Shift(Shift(lead - 0xE0, bs[1]), bs[2]), 0x800)
    else (Shift(Shift(Shift(lead - 0xF0, bs[1]), bs[2]), bs[3]), 0x1_0000)
  }

  /** The code point of exactly these bytes; overlong forms, surrogates and values past the last plane are refused. */
  function Decode8(bs: seq<Byte>): Option<CodePoint>
    requires bs != [] && |bs| == Announced(bs[0])
  {
    if exists i :: 1 <= i < |bs| && !Continues(bs[i]) then None
    else
      var (c, least) := Payload(bs);
      if c < least || 0xD800 <= c < 0xE000 || c >= 0x11_0000 then None else Some(c)
  }

  lemma Utf8RoundTrip(c: CodePoint)
    ensures var bs := Utf8(c); |bs| == Announced(bs[0]) && Decode8(bs) == Some(c)
  {
    var bs := Utf8(c);
    assert forall i :: 1 <= i < |bs| ==> Continues(bs[i]);
    Unshift(c);
    Unshift(c / 0x40);
    Unshift(c / 0x40 / 0x40);
  }

  lemma Unshift(c: nat)
    ensures Shift(c / 0x40, 0x80 + c % 0x40) == c
  {
  }

  /** Bytes are read exactly when they are the form of a code point: no overlong form, surrogate or stray byte is. */
  lemma Decode8ExactlyWhen(bs: seq<Byte>, c: CodePoint)
    requires bs != [] && |bs| == Announced(bs[0])
    ensures Decode8(bs) == Some(c) <==> bs == Utf8(c)
  {
    Utf8RoundTrip(c);
    if Decode8(bs) == Some(c) {
      assert forall i :: 1 <= i < |bs| ==> Continues(bs[i]);
      if |bs| == 2 {
        Unshifted(bs[0] - 0xC0, bs[1]);
      } else if |bs| == 3 {
        Unshifted(bs[0] - 0xE0, bs[1]);
        Unshifted(Shift(bs[0] - 0xE0, bs[1]), bs[2]);
      } else if |bs| == 4 {
        Unshifted(bs[0] - 0xF0, bs[1]);
        Unshifted(Shift(bs[0] - 0xF0, bs[1]), bs[2]);
        Unshifted(Shift(Shift(bs[0] - 0xF0, bs[1]), bs[2]), bs[3]);
      }
    }
  }

  lemma Unshifted(acc: int, b: Byte)
    requires Continues(b)
    ensures Shift(acc, b) / 0x40 == acc && 0x80 + Shift(acc, b) % 0x40 == b
  {
  }

  /** The table of section 3 of RFC 3629: how long the form of a code point is, and which bits each byte carries. */
  lemma Utf8Bits(c: CodePoint)
    ensures var bs := Utf8(c);
            && |bs| == (if c <= 0x7F then 1 else if c <= 0x7FF then 2 else if c <= 0xFFFF then 3 else 4)
            && (forall i :: 1 <= i < |bs| ==> 0x80 <= bs[i] <= 0xBF)
            && (|bs| == 1 ==> bs[0] == c)
            && (|bs| == 2 ==> 0xC0 <= bs[0] <= 0xDF && c == Past(bs[0], 0xC0) * 64 + Past(bs[1], 0x80))
            && (|bs| == 3 ==> 0xE0 <= bs[0] <= 0xEF
                              && c == Past(bs[0], 0xE0) * 4096 + Past(bs[1], 0x80) * 64 + Past(bs[2], 0x80))
            && (|bs| == 4 ==> 0xF0 <= bs[0] <= 0xF7
                              && c == Past(bs[0], 0xF0) * 262144 + Past(bs[1], 0x80) * 4096
                                      + Past(bs[2], 0x80) * 64 + Past(bs[3], 0x80))
  {
    Unshift(c);
    Unshift(c / 0x40);
    Unshift(c / 0x40 / 0x40);
  }

  // ---------- percent triples ----------

  function HexDigit(d: nat): CodeUnit
    requires d < 16
  {
    if d < 10 then 48 + d else 55 + d
  }

  /** Both cases are accepted when reading. */
  function HexValue(u: CodeUnit): Option<nat> {
    if 48 <= u < 58 then Some(u - 48)
    else if 65 <= u < 71 then Some(u - 55)
    else if 97 <= u < 103 then Some(u - 87) else None
  }

  /** Hexadecimal digits are written in upper case and read in either. */
  lemma EitherCaseIsRead(d: nat, u: CodeUnit)
    requires d < 16
    ensures HexValue(HexDigit(d)) == Some(d) && (d >= 10 ==> HexValue(HexDigit(d) + 32) == Some(d))
    ensures HexValue(u) == Some(d) ==> u == HexDigit(d) || (d >= 10 && u == HexDigit(d) + 32)
  {
  }

  function Triple(b: Byte): JsString {
    [PERCENT, HexDigit(b / 16), HexDigit(b % 16)]
  }

  function Triples(bs: seq<Byte>): JsString
    decreases |bs|
  {
    if bs == [] then [] else Triple(bs[0]) + Triples(bs[1..])
  }

  /** The byte of the triple at the start of the string. */
  function ReadTriple(s: JsString): Option<Byte> {
    if |s| >= 3 && s[0] == PERCENT && HexValue(s[1]).Some? && HexValue(s[2]).Some?
    then HexFits(s[1], s[2]); Some(HexValue(s[1]).value * 16 + HexValue(s[2]).value)
    else None
  }

  lemma HexFits(a: CodeUnit, b: CodeUnit)
    requires HexValue(a).Some? && HexValue(b).Some?
    ensures HexValue(a).value * 16 + HexValue(b).value < 0x100
  {
  }

  function ReadTriples(s: JsString, n: nat): (r: Option<seq<Byte>>)
    ensures r.Some? ==> |r.value| == n && 3 * n <= |s|
    decreases n
  {
    if n == 0 then Some([])
    else match ReadTriple(s)
      case None => None
      case Some(b) => (match ReadTriples(s[3..], n - 1) case None => None case Some(bs) => Some([b] + bs))
  }

  lemma {:induction false} ReadsTriplesBack(bs: seq<Byte>, rest: JsString)
    ensures ReadTriples(Triples(bs) + rest, |bs|) == Some(bs)
    ensures |Triples(bs)| == 3 * |bs|
    decreases |bs|
  {
    if bs == [] {
    } else {
      ReadsTriplesBack(bs[1..], rest);
      var tail := Triples(bs[1..]) + rest;
      assert Triples(bs) + rest == Triple(bs[0]) + tail;
      TripleReadsBack(bs[0], tail);
      assert bs == [bs[0]] + bs[1..];
    }
  }

  lemma TripleReadsBack(b: Byte, tail: JsString)
    ensures ReadTriple(Triple(b) + tail) == Some(b)
    ensures (Triple(b) + tail)[3..] == tail
  {
  }

  lemma {:induction false} TriplesArePlain(bs: seq<Byte>)
    ensures SLASH !in Triples(bs) && QUESTION !in Triples(bs)
    ensures bs != [] ==> Triples(bs) != []
    decreases |bs|
  {
    if bs == [] {
    } else {
      TriplesArePlain(bs[1..]);
    }
  }

  // ---------- encodeURIComponent ----------

  /** Letters, digits and - _ . ! ~ * ' ( ) stand for themselves. */
  predicate Unreserved(u: CodeUnit) {
    48 <= u < 58 || 65 <= u < 91 || 97 <= u < 123 || u in [45, 95, 46, 33, 126, 42, 39, 40, 41]
  }

  /** None stands for the URIError on a lone surrogate. */
  function Encode(s: JsString): Option<JsString>
    decreases |s|
  {
    if s == [] then Some([])
    else match FirstPoint(s)
      case None => None
      case Some(c) =>
        (match Encode(s[Width(c)..])
         case None => None
         case Some(rest) => Some((if Unreserved(s[0]) then [s[0]] else Triples(Utf8(c))) + rest))
  }

  /** None stands for the URIError on a malformed escape. */
  function Decode(s: JsString): Option<JsString>
    decreases |s|
  {
    if s == [] then Some([])
    else if s[0] != PERCENT then
      (match Decode(s[1..]) case None => None case Some(rest) => Some([s[0]] + rest))
    else match ReadTriple(s)
      case None => None
      case Some(lead) =>
        var n := Announced(lead);
        if n == 0 then None
        else match ReadTriples(s, n)
          case None => None
          case Some(bs) =>
            ReadTriplesLead(s, n);
            (match Decode8(bs)
             case None => None
             case Some(c) => (match Decode(s[3 * n..]) case None => None case Some(rest) => Some(Utf16(c) + rest)))
  }

  lemma ReadTriplesLead(s: JsString, n: nat)
    requires n > 0 && ReadTriples(s, n).Some?
    ensures ReadTriple(s) == Some(ReadTriples(s, n).value[0])
  {
  }

  lemma DecodePoint(c: CodePoint, rest: JsString)
    requires Decode(rest).Some?
    ensures Decode(Triples(Utf8(c)) + rest) == Some(Utf16(c) + Decode(rest).value)
  {
    var bs := Utf8(c);
    var s := Triples(bs) + rest;
    ReadsTriplesBack(bs, rest);
    Utf8RoundTrip(c);
    ReadTriplesLead(s, |bs|);
    assert s[3 * |bs|..] == rest;
  }

  /** Exactly the well-formed strings can be encoded, and decoding gives them back. */
  lemma {:induction false} DecodeEncode(s: JsString)
    ensures Encode(s).Some? <==> WellFormed(s)
    ensures WellFormed(s) ==> Decode(Encode(s).value) == Some(s)
    decreases |s|
  {
    if s == [] || FirstPoint(s).None? {
    } else {
      var c := FirstPoint(s).value;
      var tail := s[Width(c)..];
      DecodeEncode(tail);
      FirstPointUtf16(s);
      if WellFormed(tail) {
        var rest := Encode(tail).value;
        if Unreserved(s[0]) {
          assert ([s[0]] + rest)[1..] == rest;
        } else {
          DecodePoint(c, rest);
        }
      }
    }
  }

  /** Encoding leaves no slash and no question mark. */
  lemma {:induction false} EncodeIsPlain(s: JsString)
    requires Encode(s).Some?
    ensures SLASH !in Encode(s).value && QUESTION !in Encode(s).value
    ensures s != [] ==> Encode(s).value != []
    decreases |s|
  {
    if s == [] {
    } else {
      var c := FirstPoint(s).value;
      EncodeIsPlain(s[Width(c)..]);
      TriplesArePlain(Utf8(c));
    }
  }

  // ---------- what an encoded string is made of ----------

  predicate IsDigitOrLetter(u: CodeUnit) { 0x30 <= u <= 0x39 || 0x41 <= u <= 0x5A || 0x61 <= u <= 0x7A }

  /** - _ . ! ~ * ' ( ) */
  predicate IsMark(u: CodeUnit) { u in {0x2D, 0x5F, 0x2E, 0x21, 0x7E, 0x2A, 0x27, 0x28, 0x29} }

  predicate IsUpperHex(u: CodeUnit) { 0x30 <= u <= 0x39 || 0x41 <= u <= 0x46 }

  /** Exactly the letters, digits and marks are encoded as themselves. */
  lemma EncodedAsItself(u: CodeUnit)
    ensures Encode([u]) == Some([u]) <==> IsDigitOrLetter(u) || IsMark(u)
  {
    if FirstPoint([u]).Some? {
      assert [u][1..] == [] && Encode([]) == Some([]);
      ReadsTriplesBack(Utf8(u), []);
      assert |Triples(Utf8(u)) + []| >= 3 && |[u] + []| == 1;
      assert Encode([u]) == Some((if Unreserved(u) then [u] else Triples(Utf8(u))) + []);
      assert Unreserved(u) <==> IsDigitOrLetter(u) || IsMark(u);
      assert [u] + [] == [u];
    }
  }

  /** Position i of an encoded string: a plain unit, or a percent sign before two upper-case hexadecimal digits. */
  predicate WellEncodedAt(e: JsString, i: nat)
    requires i < |e|
  {
    && (e[i] == 0x25 || IsDigitOrLetter(e[i]) || IsMark(e[i]))
    && (e[i] == 0x25 ==> i + 2 < |e| && IsUpperHex(e[i + 1]) && IsUpperHex(e[i + 2]))
  }

  ghost predicate WellEncoded(e: JsString) { forall i: nat :: i < |e| ==> WellEncodedAt(e, i) }

  lemma WellEncodedConcat(a: JsString, b: JsString)
    requires WellEncoded(a) && WellEncoded(b)
    ensures WellEncoded(a + b)
  {
    forall i: nat | i < |a + b| ensures WellEncodedAt(a + b, i) {
      if i < |a| { assert WellEncodedAt(a, i); } else { assert WellEncodedAt(b, i - |a|); }
    }
  }

  lemma {:induction false} TriplesAreWellEncoded(bs: seq<Byte>)
    ensures WellEncoded(Triples(bs))
    decreases |bs|
  {
    if bs == [] {
    } else {
      TriplesAreWellEncoded(bs[1..]);
      WellEncodedConcat(Triple(bs[0]), Triples(bs[1..]));
    }
  }

  /** An encoded string holds plain units and upper-case percent triples, and nothing else. */
  lemma {:induction false} EncodeIsWellEncoded(s: JsString)
    requires Encode(s).Some?
    ensures WellEncoded(Encode(s).value)
    decreases |s|
  {
    if s == [] {
    } else {
      var c := FirstPoint(s).value;
      var first := if Unreserved(s[0]) then [s[0]] else Triples(Utf8(c));
      EncodeIsWellEncoded(s[Width(c)..]);
      TriplesAreWellEncoded(Utf8(c));
      WellEncodedConcat(first, Encode(s[Width(c)..]).value);
    }
  }

  lemma {:induction false} WellFormedParts(a: JsString, u: CodeUnit, b: JsString)
    requires WellFormed(a + [u] + b) && !IsHigh(u) && !IsLow(u)
    ensures WellFormed(a) && WellFormed(b)
    decreases |a|
  {
    var s := a + [u] + b;
    if a == [] {
      assert s[1..] == b;
    } else {
      var w := Width(FirstPoint(s).value);
      assert w <= |a|;
      assert s[w..] == a[w..] + [u] + b;
      WellFormedParts(a[w..], u, b);
    }
  }
}
