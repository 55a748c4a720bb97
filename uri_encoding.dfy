/**
 * `encodeURIComponent` and `decodeURIComponent` of ECMA-262 (section 19.2.6.5,
 * the Encode operation with the uriUnreserved set, and section 19.2.6.6, the
 * Decode operation with an empty reserved set): UTF-8 percent-encoding.
 *
 * Dafny strings hold Unicode scalar values, so the lone surrogates for which
 * `encodeURIComponent` throws a URIError cannot occur here.
 */
module UriEncoding {
  import opened Wrappers

  type Byte = b: int | 0 <= b < 256

  /** The characters `encodeURIComponent` leaves as they are: ASCII letters,
      digits and `-_.!~*'()`. */
  predicate IsUnreserved(c: char) {
    || ('A' <= c <= 'Z') || ('a' <= c <= 'z') || ('0' <= c <= '9')
    || c == '-' || c == '_' || c == '.' || c == '!' || c == '~' || c == '*'
    || c == '\'' || c == '(' || c == ')'
  }

  /** The UTF-8 octets of one code point. */
  function Utf8(c: char): (r: seq<Byte>)
    ensures 1 <= |r| <= 4
  {
    var cp := c as int;
    if cp < 0x80 then [cp]
    else if cp < 0x800 then [0xC0 + cp / 64, 0x80 + cp % 64]
    else if cp < 0x10000 then [0xE0 + cp / 4096, 0x80 + (cp / 64) % 64, 0x80 + cp % 64]
    else [0xF0 + cp / 262144, 0x80 + (cp / 4096) % 64, 0x80 + (cp / 64) % 64, 0x80 + cp % 64]
  }

  /** Upper-case hexadecimal digit, as the Encode operation writes them. */
  function HexDigit(d: int): char
    requires 0 <= d < 16
  {
    "0123456789ABCDEF"[d]
  }

  /** The value of a hexadecimal digit of either case. */
  function HexValue(c: char): Option<int> {
    if '0' <= c <= '9' then Some(c as int - '0' as int)
    else if 'A' <= c <= 'F' then Some(c as int - 'A' as int + 10)
    else if 'a' <= c <= 'f' then Some(c as int - 'a' as int + 10)
    else None
  }

  function PercentEncode(b: Byte): string {
    ['%', HexDigit(b / 16), HexDigit(b % 16)]
  }

  function EncodeOctets(bs: seq<Byte>): (r: string)
    ensures |r| == 3 * |bs|
  {
    if bs == [] then [] else PercentEncode(bs[0]) + EncodeOctets(bs[1..])
  }

  function EncodeChar(c: char): string {
    if IsUnreserved(c) then [c] else EncodeOctets(Utf8(c))
  }

  /** `encodeURIComponent(s)`. Every character of the result is unreserved or
      `%`, so it is plain ASCII and holds no `&`, `=`, `+` or space. */
  function EncodeURIComponent(s: string): (r: string)
    ensures forall i :: 0 <= i < |r| ==> IsUnreserved(r[i]) || r[i] == '%'
  {
    if s == [] then []
    else
      var e := EncodeChar(s[0]);
      assert forall i :: 0 <= i < |e| ==> IsUnreserved(e[i]) || e[i] == '%' by {
        if !IsUnreserved(s[0]) { EncodeOctetsChars(Utf8(s[0])); }
      }
      e + EncodeURIComponent(s[1..])
  }

  lemma {:induction false} EncodeOctetsChars(bs: seq<Byte>)
    ensures forall i :: 0 <= i < |EncodeOctets(bs)| ==>
      IsUnreserved(EncodeOctets(bs)[i]) || EncodeOctets(bs)[i] == '%'
  {
    if bs != [] {
      EncodeOctetsChars(bs[1..]);
      var p := PercentEncode(bs[0]);
      assert forall i :: 0 <= i < |p| ==> IsUnreserved(p[i]) || p[i] == '%';
    }
  }

  /** The octet written as `%XY` at position `k` of `s`, if there is one. */
  function OctetAt(s: string, k: nat): Option<Byte> {
    if k + 3 <= |s| && s[k] == '%' then
      match (HexValue(s[k + 1]), HexValue(s[k + 2]))
      case (Some(h), Some(l)) => Some(h * 16 + l)
      case _ => None
    else None
  }

  predicate IsContinuation(b: Byte) {
    0x80 <= b < 0xC0
  }

  /** One escape sequence at the start of `s`: the octets of one UTF-8 encoded
      code point. Yields the character and the number of characters read, or
      None where decodeURIComponent throws a URIError. */
  function DecodeEscape(s: string): (r: Option<(char, nat)>)
    ensures r.Some? ==> 3 <= r.value.1 <= |s|
  {
    var b0 :- OctetAt(s, 0);
    if b0 < 0x80 then Some((b0 as char, 3))
    else if 0xC0 <= b0 < 0xE0 then
      var b1 :- OctetAt(s, 3);
      var cp := (b0 - 0xC0) * 64 + (b1 - 0x80);
      if IsContinuation(b1) && cp >= 0x80 then Some((cp as char, 6)) else None
    else if 0xE0 <= b0 < 0xF0 then
      var b1 :- OctetAt(s, 3);
      var b2 :- OctetAt(s, 6);
      var cp := (b0 - 0xE0) * 4096 + (b1 - 0x80) * 64 + (b2 - 0x80);
      if IsContinuation(b1) && IsContinuation(b2) && cp >= 0x800 && !(0xD800 <= cp < 0xE000)
      then Some((cp as char, 9)) else None
    else if 0xF0 <= b0 < 0xF8 then
      var b1 :- OctetAt(s, 3);
      var b2 :- OctetAt(s, 6);
      var b3 :- OctetAt(s, 9);
      var cp := (b0 - 0xF0) * 262144 + (b1 - 0x80) * 4096 + (b2 - 0x80) * 64 + (b3 - 0x80);
      if IsContinuation(b1) && IsContinuation(b2) && IsContinuation(b3) && 0x10000 <= cp < 0x110000
      then Some((cp as char, 12)) else None
    else None
  }

  /** `decodeURIComponent(s)`; None where it throws a URIError. */
  function DecodeURIComponent(s: string): Option<string>
    decreases |s|
  {
    if s == [] then Some([])
    else if s[0] != '%' then
      var rest :- DecodeURIComponent(s[1..]);
      Some([s[0]] + rest)
    else
      var e :- DecodeEscape(s);
      var rest :- DecodeURIComponent(s[e.1..]);
      Some([e.0] + rest)
  }

  lemma {:induction false} HexRoundTrip(d: int)
    requires 0 <= d < 16
    ensures HexValue(HexDigit(d)) == Some(d)
  {
  }

  lemma {:induction false} OctetAtPercent(b: Byte, rest: string)
    ensures OctetAt(PercentEncode(b) + rest, 0) == Some(b)
  {
    var s := PercentEncode(b) + rest;
    HexRoundTrip(b / 16);
    HexRoundTrip(b % 16);
    assert s[0] == '%' && s[1] == HexDigit(b / 16) && s[2] == HexDigit(b % 16);
  }

  lemma {:induction false} OctetAtShift(p: string, t: string, k: nat)
    requires |p| == 3
    ensures OctetAt(p + t, k + 3) == OctetAt(t, k)
  {
    var s := p + t;
    if k + 3 <= |t| {
      assert s[k + 3] == t[k] && s[k + 4] == t[k + 1] && s[k + 5] == t[k + 2];
    }
  }

  lemma {:induction false} OctetAtEncoded(bs: seq<Byte>, rest: string, i: nat)
    requires i < |bs|
    ensures OctetAt(EncodeOctets(bs) + rest, 3 * i) == Some(bs[i])
  {
    var t := EncodeOctets(bs[1..]) + rest;
    assert EncodeOctets(bs) + rest == PercentEncode(bs[0]) + t;
    if i == 0 {
      OctetAtPercent(bs[0], t);
    } else {
      OctetAtEncoded(bs[1..], rest, i - 1);
      OctetAtShift(PercentEncode(bs[0]), t, 3 * (i - 1));
    }
  }

  lemma {:induction false} Utf8Two(cp: int)
    requires 0x80 <= cp < 0x800
    ensures 0xC0 <= 0xC0 + cp / 64 < 0xE0 && (0xC0 + cp / 64 - 0xC0) * 64 + (0x80 + cp % 64 - 0x80) == cp
  {
  }

  lemma {:induction false} Utf8Three(cp: int)
    requires 0x800 <= cp < 0x10000
    ensures 0xE0 <= 0xE0 + cp / 4096 < 0xF0
    ensures (cp / 4096) * 4096 + ((cp / 64) % 64) * 64 + cp % 64 == cp
  {
    var q := cp / 64;
    assert cp == q * 64 + cp % 64;
    assert q == (cp / 4096) * 64 + q % 64;
  }

  lemma {:induction false} Utf8Four(cp: int)
    requires 0x10000 <= cp < 0x110000
    ensures 0xF0 <= 0xF0 + cp / 262144 < 0xF8
    ensures (cp / 262144) * 262144 + ((cp / 4096) % 64) * 4096 + ((cp / 64) % 64) * 64 + cp % 64 == cp
  {
    var q := cp / 64;
    var q2 := cp / 4096;
    assert cp == q * 64 + cp % 64;
    assert q == q2 * 64 + q % 64;
    assert q2 == (cp / 262144) * 64 + q2 % 64;
  }

  lemma {:induction false} DecodeOne(s: string, b0: Byte)
    requires OctetAt(s, 0) == Some(b0) && b0 < 0x80
    ensures DecodeEscape(s) == Some((b0 as char, 3))
  {
  }

  lemma {:induction false} DecodeTwo(s: string, b0: Byte, b1: Byte)
    requires OctetAt(s, 0) == Some(b0) && OctetAt(s, 3) == Some(b1)
    requires 0xC0 <= b0 < 0xE0 && IsContinuation(b1)
    requires (b0 - 0xC0) * 64 + (b1 - 0x80) >= 0x80
    ensures DecodeEscape(s) == Some((((b0 - 0xC0) * 64 + (b1 - 0x80)) as char, 6))
  {
  }

  lemma {:induction false} DecodeThree(s: string, b0: Byte, b1: Byte, b2: Byte, cp: int)
    requires OctetAt(s, 0) == Some(b0) && OctetAt(s, 3) == Some(b1) && OctetAt(s, 6) == Some(b2)
    requires 0xE0 <= b0 < 0xF0 && IsContinuation(b1) && IsContinuation(b2)
    requires cp == (b0 - 0xE0) * 4096 + (b1 - 0x80) * 64 + (b2 - 0x80)
    requires cp >= 0x800 && !(0xD800 <= cp < 0xE000)
    ensures DecodeEscape(s) == Some((cp as char, 9))
  {
  }

  lemma {:induction false} DecodeFour(s: string, b0: Byte, b1: Byte, b2: Byte, b3: Byte, cp: int)
    requires OctetAt(s, 0) == Some(b0) && OctetAt(s, 3) == Some(b1)
    requires OctetAt(s, 6) == Some(b2) && OctetAt(s, 9) == Some(b3)
    requires 0xF0 <= b0 < 0xF8 && IsContinuation(b1) && IsContinuation(b2) && IsContinuation(b3)
    requires cp == (b0 - 0xF0) * 262144 + (b1 - 0x80) * 4096 + (b2 - 0x80) * 64 + (b3 - 0x80)
    requires 0x10000 <= cp < 0x110000
    ensures DecodeEscape(s) == Some((cp as char, 12))
  {
  }

  lemma {:induction false} EncodedTwo(c: char, rest: string)
    requires 0x80 <= c as int < 0x800
    ensures DecodeEscape(EncodeOctets(Utf8(c)) + rest) == Some((c, 6))
  {
    var cp := c as int;
    var bs := Utf8(c);
    assert bs == [0xC0 + cp / 64, 0x80 + cp % 64];
    OctetAtEncoded(bs, rest, 0);
    OctetAtEncoded(bs, rest, 1);
    Utf8Two(cp);
    DecodeTwo(EncodeOctets(bs) + rest, bs[0], bs[1]);
  }

  lemma {:induction false} EncodedThree(c: char, rest: string)
    requires 0x800 <= c as int < 0x10000
    ensures DecodeEscape(EncodeOctets(Utf8(c)) + rest) == Some((c, 9))
  {
    var cp := c as int;
    var bs := Utf8(c);
    assert bs == [0xE0 + cp / 4096, 0x80 + (cp / 64) % 64, 0x80 + cp % 64];
    OctetAtEncoded(bs, rest, 0);
    OctetAtEncoded(bs, rest, 1);
    OctetAtEncoded(bs, rest, 2);
    Utf8Three(cp);
    DecodeThree(EncodeOctets(bs) + rest, bs[0], bs[1], bs[2], cp);
  }

  lemma {:induction false} EncodedFour(c: char, rest: string)
    requires 0x10000 <= c as int
    ensures DecodeEscape(EncodeOctets(Utf8(c)) + rest) == Some((c, 12))
  {
    var cp := c as int;
    var bs := Utf8(c);
    assert bs == [0xF0 + cp / 262144, 0x80 + (cp / 4096) % 64, 0x80 + (cp / 64) % 64, 0x80 + cp % 64];
    OctetAtEncoded(bs, rest, 0);
    OctetAtEncoded(bs, rest, 1);
    OctetAtEncoded(bs, rest, 2);
    OctetAtEncoded(bs, rest, 3);
    Utf8Four(cp);
    DecodeFour(EncodeOctets(bs) + rest, bs[0], bs[1], bs[2], bs[3], cp);
  }

  /** Decoding the escapes of one encoded character gives that character back
      and consumes exactly its escapes. */
  lemma {:induction false} DecodeEscapeEncoded(c: char, rest: string)
    requires !IsUnreserved(c)
    ensures DecodeEscape(EncodeOctets(Utf8(c)) + rest) == Some((c, |EncodeOctets(Utf8(c))|))
  {
    var cp := c as int;
    if cp < 0x80 {
      OctetAtEncoded(Utf8(c), rest, 0);
      DecodeOne(EncodeOctets(Utf8(c)) + rest, cp);
    } else if cp < 0x800 {
      EncodedTwo(c, rest);
    } else if cp < 0x10000 {
      EncodedThree(c, rest);
    } else {
      EncodedFour(c, rest);
    }
  }

  /** decodeURIComponent undoes encodeURIComponent. */
  lemma {:induction false} DecodeEncode(s: string)
    ensures DecodeURIComponent(EncodeURIComponent(s)) == Some(s)
  {
    if s != [] {
      var e := EncodeChar(s[0]);
      var rest := EncodeURIComponent(s[1..]);
      var t := e + rest;
      assert EncodeURIComponent(s) == t;
      DecodeEncode(s[1..]);
      if IsUnreserved(s[0]) {
        assert t[0] == s[0] && t[1..] == rest;
        assert [s[0]] + s[1..] == s;
      } else {
        DecodeEscapeEncoded(s[0], rest);
        assert t[0] == '%';
        assert t[|e|..] == rest;
        assert [s[0]] + s[1..] == s;
      }
    }
  }

  /** The test vector: the Christmas tree emoji U+1F384 is written as its four
      UTF-8 octets. */
  lemma {:induction false} ChristmasTreeEncoding()
    ensures EncodeChar('\U{1F384}') == "%F0%9F%8E%84"
  {
    var cp := '\U{1F384}' as int;
    assert cp / 262144 == 0 && (cp / 4096) % 64 == 0x1F && (cp / 64) % 64 == 0x0E && cp % 64 == 4;
    assert Utf8('\U{1F384}') == [0xF0, 0x9F, 0x8E, 0x84];
  }
}
