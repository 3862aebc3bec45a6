/**
 * URLSearchParams.toString(), which the client uses to build query strings:
 * the application/x-www-form-urlencoded serializer of the WHATWG URL
 * Standard, and the matching parser as the serializer's inverse.
 */
module UrlSearchParams {
  import opened Wrappers
  import Annotations

  type Byte = b: int | 0 <= b < 256

  /** A query parameter: name and value. */
  type Pair = (string, string)

  // ------------------------------------------------------------- UTF-8

  /** The UTF-8 encoding of one scalar value. */
  function Utf8(c: char): (bs: seq<Byte>)
    ensures 1 <= |bs| <= 4
  {
    var n := c as int;
    var q1 := n / 0x40;
    var q2 := q1 / 0x40;
    var q3 := q2 / 0x40;
    if n < 0x80 then [n]
    else if n < 0x800 then [0xC0 + q1, 0x80 + n % 0x40]
    else if n < 0x1_0000 then [0xE0 + q2, 0x80 + q1 % 0x40, 0x80 + n % 0x40]
    else [0xF0 + q3, 0x80 + q2 % 0x40, 0x80 + q1 % 0x40, 0x80 + n % 0x40]
  }

  function Utf8String(s: string): seq<Byte> {
    if s == [] then [] else Utf8(s[0]) + Utf8String(s[1..])
  }

  predicate IsContinuation(b: Byte) {
    0x80 <= b < 0xC0
  }

  /** The length of the sequence a lead byte starts, or 0 for a byte that cannot start one. */
  function SequenceLength(lead: Byte): nat {
    if lead < 0x80 then 1
    else if 0xC0 <= lead < 0xE0 then 2
    else if 0xE0 <= lead < 0xF0 then 3
    else if 0xF0 <= lead < 0xF8 then 4
    else 0
  }

  /** The code point a well-formed sequence of `len` bytes stands for. */
  function CodePoint(bs: seq<Byte>, len: nat): int
    requires 1 <= len <= 4 && len <= |bs|
  {
    var b0, b1, b2, b3 := bs[0] as int, Byte1(bs, len), Byte2(bs, len), Byte3(bs, len);
    if len == 1 then b0
    else if len == 2 then (b0 - 0xC0) * 0x40 + (b1 - 0x80)
    else if len == 3 then (b0 - 0xE0) * 0x1000 + (b1 - 0x80) * 0x40 + (b2 - 0x80)
    else (b0 - 0xF0) * 0x4_0000 + (b1 - 0x80) * 0x1000 + (b2 - 0x80) * 0x40 + (b3 - 0x80)
  }

  function Byte1(bs: seq<Byte>, len: nat): int requires len <= |bs| { if len > 1 then bs[1] as int else 0 }
  function Byte2(bs: seq<Byte>, len: nat): int requires len <= |bs| { if len > 2 then bs[2] as int else 0 }
  function Byte3(bs: seq<Byte>, len: nat): int requires len <= |bs| { if len > 3 then bs[3] as int else 0 }

  /** The shortest encoding length of a code point. */
  function EncodedLength(n: int): nat {
    if n < 0x80 then 1 else if n < 0x800 then 2 else if n < 0x1_0000 then 3 else 4
  }

  predicate IsScalarValue(n: int) {
    (0 <= n < 0xD800) || (0xE000 <= n < 0x11_0000)
  }

  /** Strict UTF-8 decoding: None for a truncated, overlong or otherwise malformed sequence. */
  function Utf8Decode(bs: seq<Byte>): Option<string>
    decreases |bs|
  {
    if bs == [] then Some([])
    else
      var len := SequenceLength(bs[0]);
      if len == 0 || |bs| < len || (exists k :: 1 <= k < len && !IsContinuation(bs[k])) then None
      else
        var n := CodePoint(bs, len);
        if !IsScalarValue(n) || EncodedLength(n) != len then None
        else
          match Utf8Decode(bs[len..])
          case None => None
          case Some(rest) => Some([n as char] + rest)
  }

  /** The bytes of `c` are one well-formed sequence that stands for `c`. */
  lemma Utf8OfChar(c: char)
    ensures var bs := Utf8(c);
      && SequenceLength(bs[0]) == |bs|
      && (forall k :: 1 <= k < |bs| ==> IsContinuation(bs[k]))
      && CodePoint(bs, |bs|) == c as int
      && EncodedLength(c as int) == |bs|
  {
    var n := c as int;
    var q1 := n / 0x40;
    var q2 := q1 / 0x40;
    assert n == q1 * 0x40 + n % 0x40;
    assert q1 == q2 * 0x40 + q1 % 0x40;
    assert q2 == (q2 / 0x40) * 0x40 + q2 % 0x40;
  }

  lemma Utf8DecodeFirst(c: char, rest: seq<Byte>)
    ensures Utf8Decode(Utf8(c) + rest) ==
      match Utf8Decode(rest)
      case None => None
      case Some(r) => Some([c] + r)
  {
    var bs := Utf8(c) + rest;
    var len := |Utf8(c)|;
    Utf8OfChar(c);
    assert bs[len..] == rest;
    assert forall k :: 0 <= k < len ==> bs[k] == Utf8(c)[k];
    assert CodePoint(bs, len) == CodePoint(Utf8(c), len);
  }

  lemma {:induction false} Utf8RoundTrip(s: string)
    ensures Utf8Decode(Utf8String(s)) == Some(s)
  {
    if s != [] {
      Utf8RoundTrip(s[1..]);
      Utf8DecodeFirst(s[0], Utf8String(s[1..]));
      assert [s[0]] + s[1..] == s;
    }
  }

  // ---------------------------------------------------- percent-encoding

  /** The bytes the serializer writes as they are: ASCII letters and digits, and * - . _ */
  predicate Unreserved(b: Byte) {
    || b == 0x2A || b == 0x2D || b == 0x2E || b == 0x5F
    || (0x30 <= b <= 0x39) || (0x41 <= b <= 0x5A) || (0x61 <= b <= 0x7A)
  }

  function HexDigit(d: nat): char
    requires d < 16
  {
    if d < 10 then ('0' as int + d) as char else ('A' as int + d - 10) as char
  }

  predicate IsHex(c: char) {
    ('0' <= c <= '9') || ('A' <= c <= 'F') || ('a' <= c <= 'f')
  }

  function HexValue(c: char): (d: nat)
    requires IsHex(c)
    ensures d < 16
  {
    if c <= '9' then c as int - '0' as int
    else if c <= 'F' then c as int - 'A' as int + 10
    else c as int - 'a' as int + 10
  }

  /** One byte: a space becomes '+', an unreserved byte itself, any other byte %XX. */
  function EncodeByte(b: Byte): string {
    if b == 0x20 then "+"
    else if Unreserved(b) then [b as char]
    else ['%', HexDigit(b / 16), HexDigit(b % 16)]
  }

  function EncodeBytes(bs: seq<Byte>): string {
    if bs == [] then "" else EncodeByte(bs[0]) + EncodeBytes(bs[1..])
  }

  /** The form-urlencoded form of a name or a value. */
  function FormEncode(s: string): string {
    EncodeBytes(Utf8String(s))
  }

  /** The parser's byte step: '+' is a space, %XX a byte, any other character its UTF-8 bytes. */
  function PercentDecode(s: string): seq<Byte>
    decreases |s|
  {
    if s == [] then []
    else if s[0] == '+' then [0x20] + PercentDecode(s[1..])
    else if s[0] == '%' && |s| >= 3 && IsHex(s[1]) && IsHex(s[2]) then
      [HexValue(s[1]) * 16 + HexValue(s[2])] + PercentDecode(s[3..])
    else Utf8(s[0]) + PercentDecode(s[1..])
  }

  /** The parser's decoding of a name or a value. */
  function FormDecode(s: string): Option<string> {
    Utf8Decode(PercentDecode(s))
  }

  lemma PercentDecodeFirst(b: Byte, rest: string)
    ensures PercentDecode(EncodeByte(b) + rest) == [b] + PercentDecode(rest)
  {
    var s := EncodeByte(b) + rest;
    if b == 0x20 {
      assert s[1..] == rest;
    } else if Unreserved(b) {
      assert s[1..] == rest;
    } else {
      assert s[3..] == rest;
      assert HexValue(HexDigit(b / 16)) == b / 16 && HexValue(HexDigit(b % 16)) == b % 16;
    }
  }

  lemma {:induction false} PercentRoundTrip(bs: seq<Byte>)
    ensures PercentDecode(EncodeBytes(bs)) == bs
  {
    if bs != [] {
      PercentRoundTrip(bs[1..]);
      PercentDecodeFirst(bs[0], EncodeBytes(bs[1..]));
    }
  }

  /** Decoding undoes encoding, for every string. */
  lemma FormRoundTrip(s: string)
    ensures FormDecode(FormEncode(s)) == Some(s)
  {
    PercentRoundTrip(Utf8String(s));
    Utf8RoundTrip(s);
  }

  /** An encoded name or value holds neither of the serializer's separators. */
  lemma {:induction false} EncodeBytesHasNoSeparator(bs: seq<Byte>)
    ensures '&' !in EncodeBytes(bs) && '=' !in EncodeBytes(bs)
  {
    if bs != [] {
      EncodeBytesHasNoSeparator(bs[1..]);
      var hi, lo := HexDigit(bs[0] / 16), HexDigit(bs[0] % 16);
      assert hi != '&' && hi != '=' && lo != '&' && lo != '=';
    }
  }

  // ------------------------------------------------- the query string

  /** `name=value` with both sides encoded. */
  function EncodePair(p: Pair): string {
    FormEncode(p.0) + "=" + FormEncode(p.1)
  }

  /** URLSearchParams.toString(): the encoded pairs in order, separated by '&'. */
  function Serialize(ps: seq<Pair>): (q: string)
    ensures q == "" <==> ps == []
  {
    if ps == [] then ""
    else if |ps| == 1 then EncodePair(ps[0])
    else EncodePair(ps[0]) + "&" + Serialize(ps[1..])
  }

  /** The parser's split of a non-empty query at '&' and of each piece at its first '=',
      decoding both sides; None when a side does not decode. */
  function ParseQuery(q: string): Option<seq<Pair>>
    decreases |q|
  {
    if q == [] then Some([])
    else
      var amp := Annotations.IndexOf(q, '&');
      var piece := if amp < 0 then q else q[..amp];
      var rest := if amp < 0 then Some([]) else ParseQuery(q[amp + 1..]);
      var eq := Annotations.IndexOf(piece, '=');
      var name := if eq < 0 then FormDecode(piece) else FormDecode(piece[..eq]);
      var value := if eq < 0 then Some("") else FormDecode(piece[eq + 1..]);
      if name.None? || value.None? || rest.None? then None
      else if piece == [] then rest
      else Some([(name.value, value.value)] + rest.value)
  }

  lemma ParsePiece(p: Pair)
    ensures && '&' !in EncodePair(p)
      && Annotations.IndexOf(EncodePair(p), '=') == |FormEncode(p.0)|
      && FormDecode(EncodePair(p)[..|FormEncode(p.0)|]) == Some(p.0)
      && FormDecode(EncodePair(p)[|FormEncode(p.0)| + 1..]) == Some(p.1)
  {
    var n, v := FormEncode(p.0), FormEncode(p.1);
    EncodeBytesHasNoSeparator(Utf8String(p.0));
    EncodeBytesHasNoSeparator(Utf8String(p.1));
    var s := EncodePair(p);
    assert s[..|n|] == n && s[|n|] == '=' && s[|n| + 1..] == v;
    FormRoundTrip(p.0);
    FormRoundTrip(p.1);
  }

  lemma ParseSingle(p: Pair)
    ensures ParseQuery(EncodePair(p)) == Some([p])
  {
    var piece := EncodePair(p);
    ParsePiece(p);
    assert Annotations.IndexOf(piece, '&') == -1;
    assert piece != [];
    var eq := |FormEncode(p.0)|;
    assert FormDecode(piece[..eq]) == Some(p.0) && FormDecode(piece[eq + 1..]) == Some(p.1);
    assert [(p.0, p.1)] + [] == [p];
  }

  lemma ParseCons(p: Pair, r: string)
    ensures ParseQuery(EncodePair(p) + "&" + r) ==
      match ParseQuery(r)
      case None => None
      case Some(rest) => Some([p] + rest)
  {
    var piece := EncodePair(p);
    var q := piece + "&" + r;
    ParsePiece(p);
    assert q[..|piece|] == piece && q[|piece|] == '&' && q[|piece| + 1..] == r;
    assert forall j :: 0 <= j < |piece| ==> q[j] == piece[j];
    assert Annotations.IndexOf(q, '&') == |piece|;
    assert piece != [];
  }

  /** Parsing a serialized query gives back its parameters, in order. */
  lemma {:induction false} ParseSerialized(ps: seq<Pair>)
    ensures ParseQuery(Serialize(ps)) == Some(ps)
  {
    if |ps| == 1 {
      ParseSingle(ps[0]);
      assert Serialize(ps) == EncodePair(ps[0]) && ps == [ps[0]];
    } else if |ps| > 1 {
      ParseSerialized(ps[1..]);
      ParseCons(ps[0], Serialize(ps[1..]));
      assert [ps[0]] + ps[1..] == ps;
    }
  }
}
