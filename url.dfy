/** Percent encoding and decoding of URI text: the `%HH` escapes of
    section 2.1 of RFC 3986 over its unreserved set (section 2.3). */
module Url {
  import opened HttpChars

  const UpperLetters: string := "ABCDEFGHIJKLMNOPQRSTUVWXYZ"
  const LowerLetters: string := "abcdefghijklmnopqrstuvwxyz"
  const DecimalDigits: string := "0123456789"
  const UnreservedMarks: string := "-_.~"
  const ReservedMarks: string := "!*'();:@&=+$,/?#[]"
  const NUL: Byte := '\0'

  /** `unreserved_charset` as the C array it is: its letters in order,
      followed by the terminating NUL that the scan up to `std::end` also
      visits. */
  const UnreservedCharset: string :=
    UpperLetters + LowerLetters + DecimalDigits + UnreservedMarks + [NUL]

  /** `uri_charset`, likewise with its terminating NUL. */
  const UriCharset: string :=
    UpperLetters + LowerLetters + DecimalDigits + UnreservedMarks + ReservedMarks + [NUL]

  /** The unreserved characters of section 2.3 of RFC 3986, plus NUL. */
  predicate Unreserved(c: Byte) {
    IsAlpha(c) || IsDigit(c) || IsUnreservedMark(c) || c == NUL
  }

  predicate IsUnreservedMark(c: Byte) {
    c == '-' || c == '_' || c == '.' || c == '~'
  }

  predicate IsReservedMark(c: Byte) {
    || c == '!' || c == '*' || c == '\'' || c == '(' || c == ')' || c == ';'
    || c == ':' || c == '@' || c == '&' || c == '=' || c == '+' || c == '$'
    || c == ',' || c == '/' || c == '?' || c == '#' || c == '[' || c == ']'
  }

  /** The characters the parser lets into a Request-URI: the unreserved
      ones, the reserved ones of section 2.2 of RFC 3986, and NUL. */
  predicate UriChar(c: Byte) {
    Unreserved(c) || IsReservedMark(c)
  }

  lemma UpperMembers(c: Byte)
    ensures c in UpperLetters <==> IsUpAlpha(c)
  {
    if IsUpAlpha(c) { assert UpperLetters[c as int - 'A' as int] == c; }
  }

  lemma LowerMembers(c: Byte)
    ensures c in LowerLetters <==> IsLoAlpha(c)
  {
    if IsLoAlpha(c) { assert LowerLetters[c as int - 'a' as int] == c; }
  }

  lemma DigitMembers(c: Byte)
    ensures c in DecimalDigits <==> IsDigit(c)
  {
    if IsDigit(c) { assert DecimalDigits[c as int - '0' as int] == c; }
  }

  lemma MarkMembers(c: Byte)
    ensures c in UnreservedMarks <==> IsUnreservedMark(c)
    ensures c in ReservedMarks <==> IsReservedMark(c)
  {
  }

  /** `unreserved_charset`, with its NUL, holds exactly the unreserved bytes. */
  lemma UnreservedMembers(c: Byte)
    ensures c in UnreservedCharset <==> Unreserved(c)
  {
    UpperMembers(c);
    LowerMembers(c);
    DigitMembers(c);
    MarkMembers(c);
  }

  /** `uri_charset`, with its NUL, holds exactly the URI bytes. */
  lemma UriMembers(c: Byte)
    ensures c in UriCharset <==> UriChar(c)
  {
    UpperMembers(c);
    LowerMembers(c);
    DigitMembers(c);
    MarkMembers(c);
  }

  /** The scan over `unreserved_charset` answers exactly `Unreserved`. */
  method IsUriUnreserved(c: Byte) returns (b: bool)
    ensures b <==> Unreserved(c)
  {
    var charset := UnreservedCharset;
    var i := 0;
    while i < |charset|
      invariant 0 <= i <= |charset|
      invariant c !in charset[..i]
    {
      if c == charset[i] {
        UnreservedMembers(c);
        return true;
      }
      assert charset[..i + 1] == charset[..i] + [charset[i]];
      i := i + 1;
    }
    assert charset[..i] == charset;
    UnreservedMembers(c);
    return false;
  }

  /** The scan over `uri_charset` answers exactly `UriChar`. */
  method IsUri(c: Byte) returns (b: bool)
    ensures b <==> UriChar(c)
  {
    var charset := UriCharset;
    var i := 0;
    while i < |charset|
      invariant 0 <= i <= |charset|
      invariant c !in charset[..i]
    {
      if c == charset[i] {
        UriMembers(c);
        return true;
      }
      assert charset[..i + 1] == charset[..i] + [charset[i]];
      i := i + 1;
    }
    assert charset[..i] == charset;
    UriMembers(c);
    return false;
  }

  /** Neither '%' nor SP can be part of a parsed Request-URI. */
  lemma UriCharExcludes(c: Byte)
    requires UriChar(c)
    ensures c != '%' && c != SP
  {
  }

  // Hexadecimal digits

  /** What `sscanf("%x")` takes as a hex digit: either case. */
  predicate IsHexDigit(c: Byte) {
    IsDigit(c) || 'A' <= c <= 'F' || 'a' <= c <= 'f'
  }

  /** What `std::hex << std::uppercase` writes. */
  predicate IsUpperHexDigit(c: Byte) {
    IsDigit(c) || 'A' <= c <= 'F'
  }

  function HexDigitValue(c: Byte): (d: nat)
    requires IsHexDigit(c)
    ensures d < 16
  {
    if IsDigit(c) then c as int - '0' as int
    else if 'A' <= c <= 'F' then c as int - 'A' as int + 10
    else c as int - 'a' as int + 10
  }

  function HexDigit(d: nat): (h: Byte)
    requires d < 16
    ensures IsUpperHexDigit(h) && IsHexDigit(h) && HexDigitValue(h) == d
  {
    if d < 10 then ('0' as int + d) as char else ('A' as int + d - 10) as char
  }

  predicate AllUpperHex(s: seq<Byte>) {
    forall i :: 0 <= i < |s| ==> IsUpperHexDigit(s[i])
  }

  /** The number a string of hex digits denotes. */
  function HexValue(s: seq<Byte>): nat
    requires AllUpperHex(s)
  {
    if s == [] then 0 else 16 * HexValue(s[..|s| - 1]) + HexDigitValue(s[|s| - 1])
  }

  lemma HexValuePair(h: seq<Byte>)
    requires |h| == 2 && AllUpperHex(h)
    ensures HexValue(h) == 16 * HexDigitValue(h[0]) + HexDigitValue(h[1])
  {
    var first := h[..1];
    assert first[..0] == [] && first[0] == h[0];
    assert HexValue(first) == HexDigitValue(h[0]);
  }

  /** `ctohex`: the uppercase hexadecimal text of `n`, without leading
      zeros and so without padding to two digits. */
  function ToHex(n: nat): (r: seq<Byte>)
    ensures |r| >= 1 && AllUpperHex(r) && HexValue(r) == n
    ensures r[0] == '0' ==> n == 0
    ensures |r| == 1 <==> n < 16
    ensures n < 256 ==> |r| <= 2
    decreases n
  {
    if n < 16 then [HexDigit(n)]
    else
      var high := ToHex(n / 16);
      assert (high + [HexDigit(n % 16)])[..|high|] == high;
      high + [HexDigit(n % 16)]
  }

  // Encoding

  /** What `urlencode` appends for one byte. */
  function EncodeByte(c: Byte): seq<Byte> {
    if Unreserved(c) then [c] else ['%'] + ToHex(c as int)
  }

  /** `urlencode`, byte by byte: never shorter than its input. */
  function Encode(s: seq<Byte>): (r: seq<Byte>)
    ensures |r| >= |s|
  {
    if s == [] then [] else EncodeByte(s[0]) + Encode(s[1..])
  }

  lemma {:induction false} EncodeAppend(s: seq<Byte>, c: Byte)
    ensures Encode(s + [c]) == Encode(s) + EncodeByte(c)
  {
    if s == [] {
      assert [c][1..] == [];
    } else {
      assert (s + [c])[1..] == s[1..] + [c];
      EncodeAppend(s[1..], c);
    }
  }

  /** An unreserved byte is copied; any other becomes '%' and its hex digits. */
  lemma EncodeByteShape(c: Byte)
    ensures Unreserved(c) ==> EncodeByte(c) == [c]
    ensures !Unreserved(c) ==> EncodeByte(c)[0] == '%' && EncodeByte(c)[1..] == ToHex(c as int)
  {
  }

  /** The encoding holds no escape exactly when every byte is unreserved. */
  lemma {:induction false} EncodeIdentity(s: seq<Byte>)
    ensures Encode(s) == s <==> forall i :: 0 <= i < |s| ==> Unreserved(s[i])
  {
    if s != [] {
      EncodeIdentity(s[1..]);
      EncodeByteShape(s[0]);
      if Encode(s) == s {
        assert |EncodeByte(s[0])| == 1;
        assert Encode(s)[1..] == Encode(s[1..]);
      }
      forall i | 0 <= i < |s| && (forall j :: 0 <= j < |s| ==> Unreserved(s[j]))
        ensures Unreserved(s[i])
      {
      }
      if forall i :: 0 <= i < |s| ==> Unreserved(s[i]) {
        assert forall i :: 0 <= i < |s[1..]| ==> Unreserved(s[1..][i]) by {
          forall i | 0 <= i < |s[1..]| ensures Unreserved(s[1..][i]) {
            assert s[1..][i] == s[i + 1];
          }
        }
      }
    }
  }

  /** `urlencode` over its loop. */
  method UrlEncode(url: seq<Byte>) returns (encoded: seq<Byte>)
    ensures encoded == Encode(url)
  {
    if |url| == 0 {
      return [];
    }
    encoded := [];
    for i := 0 to |url|
      invariant encoded == Encode(url[..i])
    {
      var c := url[i];
      EncodeAppend(url[..i], c);
      assert url[..i + 1] == url[..i] + [c];
      var unreserved := IsUriUnreserved(c);
      if unreserved {
        encoded := encoded + [c];
      } else {
        encoded := encoded + (['%'] + ToHex(c as int));
      }
    }
    assert url[..|url|] == url;
  }

  // Decoding

  /** Every '%' is followed by two hex digits: the text `urldecode`'s
      `sscanf` reading of `%HH` is defined on. */
  predicate WellEscaped(s: seq<Byte>)
    decreases |s|
  {
    if s == [] then true
    else if s[0] == '%' then
      |s| >= 3 && IsHexDigit(s[1]) && IsHexDigit(s[2]) && WellEscaped(s[3..])
    else WellEscaped(s[1..])
  }

  /** `HexValuePair` for any two bytes, as an implication. */
  lemma HexValueOfPair(h1: Byte, h2: Byte)
    ensures IsUpperHexDigit(h1) && IsUpperHexDigit(h2) ==>
              AllUpperHex([h1, h2]) && HexValue([h1, h2]) == 16 * HexDigitValue(h1) + HexDigitValue(h2)
  {
    if IsUpperHexDigit(h1) && IsUpperHexDigit(h2) {
      HexValuePair([h1, h2]);
    }
  }

  /** The byte `sscanf("%x")` reads from two hex digits: the number the
      two digits denote. */
  function ScanHex(h1: Byte, h2: Byte): (b: Byte)
    requires IsHexDigit(h1) && IsHexDigit(h2)
    ensures IsUpperHexDigit(h1) && IsUpperHexDigit(h2) ==> b as int == HexValue([h1, h2])
  {
    HexValueOfPair(h1, h2);
    (16 * HexDigitValue(h1) + HexDigitValue(h2)) as char
  }

  /** The upper-case form of a hex digit. */
  function UpperHex(c: Byte): (u: Byte)
    requires IsHexDigit(c)
    ensures IsUpperHexDigit(u) && (IsUpperHexDigit(c) ==> u == c)
    ensures 'a' <= c <= 'f' ==> u as int == c as int - 32
  {
    if 'a' <= c <= 'f' then (c as int - 32) as char else c
  }

  /** `%x` reads lower-case digits as their upper-case forms. */
  lemma ScanHexIgnoresCase(h1: Byte, h2: Byte)
    requires IsHexDigit(h1) && IsHexDigit(h2)
    ensures ScanHex(h1, h2) == ScanHex(UpperHex(h1), UpperHex(h2))
  {
    HexValueOfPair(h1, h2);
    HexValueOfPair(UpperHex(h1), UpperHex(h2));
  }

  /** Two digits written by `HexDigit` read back as the number they spell. */
  lemma ScanHexDigits(x: nat, y: nat)
    requires x < 16 && y < 16
    ensures ScanHex(HexDigit(x), HexDigit(y)) as int == 16 * x + y
  {
    var h := [HexDigit(x), HexDigit(y)];
    assert AllUpperHex(h);
    HexValuePair(h);
  }

  /** `urldecode`: never longer than its input. */
  function Decode(s: seq<Byte>): (r: seq<Byte>)
    requires WellEscaped(s)
    ensures |r| <= |s|
    decreases |s|
  {
    if s == [] then []
    else if s[0] == '%' then [ScanHex(s[1], s[2])] + Decode(s[3..])
    else [s[0]] + Decode(s[1..])
  }

  /** `urldecode` over its loop, the iterator stepping past `HH`. */
  method UrlDecode(url: seq<Byte>) returns (decoded: seq<Byte>)
    requires WellEscaped(url)
    ensures decoded == Decode(url)
  {
    if |url| == 0 {
      return [];
    }
    decoded := [];
    var i := 0;
    while i < |url|
      invariant 0 <= i <= |url| && WellEscaped(url[i..])
      invariant decoded + Decode(url[i..]) == Decode(url)
      decreases |url| - i
    {
      var c := url[i];
      if c != '%' {
        assert url[i..][1..] == url[i + 1..];
        decoded := decoded + [c];
      } else {
        assert url[i..][3..] == url[i + 3..];
        var cvt := ScanHex(url[i + 1], url[i + 2]);
        decoded := decoded + [cvt];
        i := i + 2;
      }
      i := i + 1;
    }
  }

  /** Text without '%' decodes to itself. */
  lemma {:induction false} DecodeWithoutPercent(s: seq<Byte>)
    requires '%' !in s
    ensures WellEscaped(s) && Decode(s) == s
  {
    if s != [] {
      DecodeWithoutPercent(s[1..]);
    }
  }

  /** Appending a byte other than '%' keeps every escape complete. */
  lemma {:induction false} WellEscapedAppend(s: seq<Byte>, c: Byte)
    requires WellEscaped(s) && c != '%'
    ensures WellEscaped(s + [c])
  {
    if s == [] {
      assert [c][1..] == [];
    } else if s[0] == '%' {
      assert (s + [c])[3..] == s[3..] + [c];
      WellEscapedAppend(s[3..], c);
    } else {
      assert (s + [c])[1..] == s[1..] + [c];
      WellEscapedAppend(s[1..], c);
    }
  }

  // Round trip

  /** A byte that `ctohex` writes as a single digit. */
  predicate LowByte(c: Byte) { 1 <= c as int <= 15 }

  lemma EncodeByteRoundTrip(c: Byte, rest: seq<Byte>)
    requires !LowByte(c) && WellEscaped(rest)
    ensures WellEscaped(EncodeByte(c) + rest)
    ensures Decode(EncodeByte(c) + rest) == [c] + Decode(rest)
  {
    EncodeByteShape(c);
    var e := EncodeByte(c) + rest;
    if Unreserved(c) {
      assert e[1..] == rest;
    } else {
      var h := ToHex(c as int);
      assert |h| == 2;
      assert e[3..] == rest;
      assert e[1] == h[0] && e[2] == h[1];
      assert [h[0], h[1]] == h;
    }
  }

  /** `urldecode(urlencode(s)) == s` whenever no byte of `s` lies in
      0x01..0x0F. */
  lemma {:induction false} RoundTrip(s: seq<Byte>)
    requires forall i :: 0 <= i < |s| ==> !LowByte(s[i])
    ensures WellEscaped(Encode(s)) && Decode(Encode(s)) == s
  {
    if s != [] {
      RoundTrip(s[1..]);
      EncodeByteRoundTrip(s[0], Encode(s[1..]));
    }
  }

  /** A low byte encodes to `%` and one digit: alone it leaves an escape
      that `urldecode` cannot read, and before a hex digit it decodes as
      one different byte. */
  lemma LowByteBreaksRoundTrip(b: Byte, h: Byte)
    requires LowByte(b) && IsUpperHexDigit(h)
    ensures Encode([b]) == ['%', HexDigit(b as int)] && !WellEscaped(Encode([b]))
    ensures WellEscaped(Encode([b, h]))
    ensures Decode(Encode([b, h])) == [ScanHex(HexDigit(b as int), h)]
    ensures Decode(Encode([b, h])) != [b, h]
  {
    assert [b, h][1..] == [h];
    assert [h][1..] == [];
    assert Encode([h]) == [h];
    assert ToHex(b as int) == [HexDigit(b as int)];
    assert Encode([b, h]) == ['%', HexDigit(b as int), h];
    assert Encode([b, h])[3..] == [];
  }

  // Corrected encoding

  /** Two uppercase hex digits, zero padded, as section 2.1 of RFC 3986
      writes a percent-encoded octet. */
  function ToHexPadded(c: Byte): (r: seq<Byte>)
    ensures |r| == 2 && AllUpperHex(r) && HexValue(r) == c as int
  {
    var r := [HexDigit(c as int / 16), HexDigit(c as int % 16)];
    HexValuePair(r);
    r
  }

  function EncodeBytePadded(c: Byte): seq<Byte> {
    if Unreserved(c) then [c] else ['%'] + ToHexPadded(c)
  }

  /** `urlencode` with `%HH` escapes padded to two digits. */
  function EncodePadded(s: seq<Byte>): (r: seq<Byte>)
    ensures |r| >= |s|
  {
    if s == [] then [] else EncodeBytePadded(s[0]) + EncodePadded(s[1..])
  }

  /** The padded encoding differs from `urlencode` only on low bytes. */
  lemma {:induction false} EncodePaddedAgrees(s: seq<Byte>)
    requires forall i :: 0 <= i < |s| ==> !LowByte(s[i])
    ensures EncodePadded(s) == Encode(s)
  {
    if s != [] {
      EncodePaddedAgrees(s[1..]);
      if !Unreserved(s[0]) {
        var h := ToHex(s[0] as int);
        assert |h| == 2;
        HexPairUnique(h, ToHexPadded(s[0]));
      }
    }
  }

  lemma HexPairUnique(a: seq<Byte>, b: seq<Byte>)
    requires |a| == 2 && |b| == 2 && AllUpperHex(a) && AllUpperHex(b)
    requires HexValue(a) == HexValue(b)
    ensures a == b
  {
    HexValuePair(a);
    HexValuePair(b);
    UpperHexDigitUnique(a[1], b[1]);
    UpperHexDigitUnique(a[0], b[0]);
  }

  lemma UpperHexDigitUnique(x: Byte, y: Byte)
    requires IsUpperHexDigit(x) && IsUpperHexDigit(y) && HexDigitValue(x) == HexDigitValue(y)
    ensures x == y
  {
  }

  /** With padding, decoding inverts encoding for every byte string. */
  lemma {:induction false} PaddedRoundTrip(s: seq<Byte>)
    ensures WellEscaped(EncodePadded(s)) && Decode(EncodePadded(s)) == s
  {
    if s != [] {
      PaddedRoundTrip(s[1..]);
      var c, rest := s[0], EncodePadded(s[1..]);
      var e := EncodeBytePadded(c) + rest;
      if Unreserved(c) {
        assert e[1..] == rest;
      } else {
        var h := ToHexPadded(c);
        assert e[3..] == rest;
        assert e[1] == h[0] && e[2] == h[1];
        assert [h[0], h[1]] == h;
      }
    }
  }
}
