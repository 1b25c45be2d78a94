/**
 * `buildInvitationLinks` of src/domain/services/buildInvitationLinks.ts, with the JavaScript
 * built-in `encodeURIComponent` it relies on.
 */
module UriComponent {

  /** The characters `encodeURIComponent` leaves as they are. */
  predicate IsUnreserved(c: char) {
    || ('A' <= c <= 'Z') || ('a' <= c <= 'z') || ('0' <= c <= '9')
    || c == '-' || c == '_' || c == '.' || c == '!' || c == '~' || c == '*' || c == '\'' || c == '(' || c == ')'
  }

  predicate IsUpperHex(c: char) {
    ('0' <= c <= '9') || ('A' <= c <= 'F')
  }

  function HexDigit(d: int): (c: char)
    requires 0 <= d < 16
    ensures IsUpperHex(c)
  {
    if d < 10 then ('0' as int + d) as char else ('A' as int + d - 10) as char
  }

  function HexValue(c: char): (d: int)
    requires IsUpperHex(c)
    ensures 0 <= d < 16
    ensures HexDigit(d) == c
  {
    if c <= '9' then c as int - '0' as int else c as int - 'A' as int + 10
  }

  /** The UTF-8 encoding of one Unicode scalar value. */
  function Utf8(c: char): (bytes: seq<int>)
    ensures 1 <= |bytes| <= 4
    ensures forall i :: 0 <= i < |bytes| ==> 0 <= bytes[i] < 256
  {
    var n := c as int;
    if n < 0x80 then [n]
    else if n < 0x800 then [0xC0 + n / 64, 0x80 + n % 64]
    else if n < 0x10000 then [0xE0 + n / 4096, 0x80 + (n / 64) % 64, 0x80 + n % 64]
    else [0xF0 + n / 262144, 0x80 + (n / 4096) % 64, 0x80 + (n / 64) % 64, 0x80 + n % 64]
  }

  /** `%XX` with upper-case hex digits. */
  function PercentByte(b: int): (r: string)
    requires 0 <= b < 256
    ensures |r| == 3 && r[0] == '%' && IsUpperHex(r[1]) && IsUpperHex(r[2])
  {
    ['%', HexDigit(b / 16), HexDigit(b % 16)]
  }

  function PercentBytes(bytes: seq<int>): (r: string)
    requires forall i :: 0 <= i < |bytes| ==> 0 <= bytes[i] < 256
    ensures |r| == 3 * |bytes|
    ensures forall i :: 0 <= i < |r| ==> if i % 3 == 0 then r[i] == '%' else IsUpperHex(r[i])
  {
    if bytes == [] then [] else
      var head := PercentByte(bytes[0]);
      var tail := PercentBytes(bytes[1..]);
      assert forall i :: 3 <= i < |head + tail| ==> (head + tail)[i] == tail[i - 3];
      head + tail
  }

  function EncodeChar(c: char): string {
    if IsUnreserved(c) then [c] else PercentBytes(Utf8(c))
  }

  /** A character of `encodeURIComponent`'s output alphabet. */
  predicate IsEncodedChar(c: char) {
    IsUnreserved(c) || c == '%' || IsUpperHex(c)
  }

  /** `encodeURIComponent(s)`. */
  function EncodeUriComponent(s: string): (r: string)
    ensures forall i :: 0 <= i < |r| ==> IsEncodedChar(r[i])
  {
    if s == [] then [] else EncodeChar(s[0]) + EncodeUriComponent(s[1..])
  }

  /** Encoding works character by character. */
  lemma {:induction false} EncodeAppend(a: string, b: string)
    ensures EncodeUriComponent(a + b) == EncodeUriComponent(a) + EncodeUriComponent(b)
  {
    if a == [] {
      assert a + b == b;
    } else {
      assert (a + b)[0] == a[0];
      assert (a + b)[1..] == a[1..] + b;
      EncodeAppend(a[1..], b);
    }
  }

  /** On a string of unreserved characters the encoding is the identity. */
  lemma {:induction false} EncodeUnreserved(s: string)
    requires forall i :: 0 <= i < |s| ==> IsUnreserved(s[i])
    ensures EncodeUriComponent(s) == s
  {
    if s != [] {
      EncodeUnreserved(s[1..]);
    }
  }

  // ---- decoding: the inverse the links are checked against ----

  /** The byte written as `%XX` at index `i`, if there is one. */
  function ByteAt(s: string, i: nat): (b: int)
    requires i + 3 <= |s| && s[i] == '%' && IsUpperHex(s[i + 1]) && IsUpperHex(s[i + 2])
    ensures 0 <= b < 256
  {
    HexValue(s[i + 1]) * 16 + HexValue(s[i + 2])
  }

  predicate EscapeAt(s: string, i: nat) {
    i + 3 <= |s| && s[i] == '%' && IsUpperHex(s[i + 1]) && IsUpperHex(s[i + 2])
  }

  predicate IsContinuation(b: int) {
    0x80 <= b < 0xC0
  }

  predicate IsScalar(n: int) {
    (0 <= n < 0xD800) || (0xE000 <= n < 0x110000)
  }

  /** The character whose UTF-8 bytes are escaped at the front of `s`, and how many characters they take. */
  function DecodeEscapedChar(s: string): (r: (char, nat))
    requires EscapeAt(s, 0)
    ensures 3 <= r.1 <= |s|
  {
    var b0 := ByteAt(s, 0);
    if b0 < 0x80 then (b0 as char, 3)
    else if 0xC0 <= b0 < 0xE0 && EscapeAt(s, 3) && IsContinuation(ByteAt(s, 3)) then
      var n := (b0 - 0xC0) * 64 + (ByteAt(s, 3) - 0x80);
      if IsScalar(n) then (n as char, 6) else ('%', 3)
    else if 0xE0 <= b0 < 0xF0 && EscapeAt(s, 3) && EscapeAt(s, 6)
      && IsContinuation(ByteAt(s, 3)) && IsContinuation(ByteAt(s, 6)) then
      var n := (b0 - 0xE0) * 4096 + (ByteAt(s, 3) - 0x80) * 64 + (ByteAt(s, 6) - 0x80);
      if IsScalar(n) then (n as char, 9) else ('%', 3)
    else if 0xF0 <= b0 < 0xF8 && EscapeAt(s, 3) && EscapeAt(s, 6) && EscapeAt(s, 9)
      && IsContinuation(ByteAt(s, 3)) && IsContinuation(ByteAt(s, 6)) && IsContinuation(ByteAt(s, 9)) then
      var n := (b0 - 0xF0) * 262144 + (ByteAt(s, 3) - 0x80) * 4096 + (ByteAt(s, 6) - 0x80) * 64 + (ByteAt(s, 9) - 0x80);
      if IsScalar(n) then (n as char, 12) else ('%', 3)
    else ('%', 3)
  }

  /** Percent-decoding (well-formed escapes; anything else is kept as it is). */
  function DecodeUriComponent(s: string): string
    decreases |s|
  {
    if s == [] then []
    else if EscapeAt(s, 0) then
      var (c, len) := DecodeEscapedChar(s);
      [c] + DecodeUriComponent(s[len..])
    else [s[0]] + DecodeUriComponent(s[1..])
  }

  lemma PercentByteValue(b: int, rest: string)
    requires 0 <= b < 256
    ensures EscapeAt(PercentByte(b) + rest, 0) && ByteAt(PercentByte(b) + rest, 0) == b
  {
  }

  /** Decoding the escaped UTF-8 bytes of `c`, whatever follows, gives back `c`. */
  lemma DecodeEncodedChar(c: char, rest: string)
    requires !IsUnreserved(c)
    ensures EscapeAt(EncodeChar(c) + rest, 0)
    ensures DecodeEscapedChar(EncodeChar(c) + rest) == (c, |EncodeChar(c)|)
  {
    var n := c as int;
    var e := EncodeChar(c);
    assert e == PercentBytes(Utf8(c));
    if n < 0x80 {
      EncodedOne(c, rest);
    } else if n < 0x800 {
      EncodedTwo(c, rest);
    } else if n < 0x10000 {
      EncodedThree(c, rest);
    } else {
      EncodedFour(c, rest);
    }
  }

  lemma EncodedOne(c: char, rest: string)
    requires c as int < 0x80
    ensures EscapeAt(PercentBytes(Utf8(c)) + rest, 0)
    ensures DecodeEscapedChar(PercentBytes(Utf8(c)) + rest) == (c, |PercentBytes(Utf8(c))|)
  {
    var bytes := Utf8(c);
    assert bytes == [c as int];
    PercentBytesAt(bytes, 0, rest);
  }

  lemma EncodedTwo(c: char, rest: string)
    requires 0x80 <= c as int < 0x800
    ensures EscapeAt(PercentBytes(Utf8(c)) + rest, 0)
    ensures DecodeEscapedChar(PercentBytes(Utf8(c)) + rest) == (c, |PercentBytes(Utf8(c))|)
  {
    var n, bytes := c as int, Utf8(c);
    assert bytes == [0xC0 + n / 64, 0x80 + n % 64];
    PercentBytesAt(bytes, 0, rest);
    PercentBytesAt(bytes, 1, rest);
    TwoBytes(PercentBytes(bytes) + rest, n);
  }

  lemma EncodedThree(c: char, rest: string)
    requires 0x800 <= c as int < 0x10000
    ensures EscapeAt(PercentBytes(Utf8(c)) + rest, 0)
    ensures DecodeEscapedChar(PercentBytes(Utf8(c)) + rest) == (c, |PercentBytes(Utf8(c))|)
  {
    var n, bytes := c as int, Utf8(c);
    assert bytes == [0xE0 + n / 4096, 0x80 + (n / 64) % 64, 0x80 + n % 64];
    PercentBytesAt(bytes, 0, rest);
    PercentBytesAt(bytes, 1, rest);
    PercentBytesAt(bytes, 2, rest);
    ThreeBytes(PercentBytes(bytes) + rest, n);
  }

  lemma EncodedFour(c: char, rest: string)
    requires 0x10000 <= c as int
    ensures EscapeAt(PercentBytes(Utf8(c)) + rest, 0)
    ensures DecodeEscapedChar(PercentBytes(Utf8(c)) + rest) == (c, |PercentBytes(Utf8(c))|)
  {
    var n, bytes := c as int, Utf8(c);
    assert bytes == [0xF0 + n / 262144, 0x80 + (n / 4096) % 64, 0x80 + (n / 64) % 64, 0x80 + n % 64];
    PercentBytesAt(bytes, 0, rest);
    PercentBytesAt(bytes, 1, rest);
    PercentBytesAt(bytes, 2, rest);
    PercentBytesAt(bytes, 3, rest);
    FourBytes(PercentBytes(bytes) + rest, n);
  }

  lemma TwoBytes(s: string, n: int)
    requires 0x80 <= n < 0x800
    requires EscapeAt(s, 0) && ByteAt(s, 0) == 0xC0 + n / 64
    requires EscapeAt(s, 3) && ByteAt(s, 3) == 0x80 + n % 64
    ensures DecodeEscapedChar(s) == (n as char, 6)
  {
    var b0, b1 := ByteAt(s, 0), ByteAt(s, 3);
    assert 0xC0 <= b0 < 0xE0 && IsContinuation(b1);
    assert (b0 - 0xC0) * 64 + (b1 - 0x80) == n;
  }

  lemma ThreeBytes(s: string, n: int)
    requires 0x800 <= n < 0x10000 && IsScalar(n)
    requires EscapeAt(s, 0) && ByteAt(s, 0) == 0xE0 + n / 4096
    requires EscapeAt(s, 3) && ByteAt(s, 3) == 0x80 + (n / 64) % 64
    requires EscapeAt(s, 6) && ByteAt(s, 6) == 0x80 + n % 64
    ensures DecodeEscapedChar(s) == (n as char, 9)
  {
    var b0, b1, b2 := ByteAt(s, 0), ByteAt(s, 3), ByteAt(s, 6);
    assert 0xE0 <= b0 < 0xF0 && IsContinuation(b1) && IsContinuation(b2);
    ThreeByteValue(n);
    assert (b0 - 0xE0) * 4096 + (b1 - 0x80) * 64 + (b2 - 0x80) == n;
  }

  lemma FourBytes(s: string, n: int)
    requires 0x10000 <= n < 0x110000
    requires EscapeAt(s, 0) && ByteAt(s, 0) == 0xF0 + n / 262144
    requires EscapeAt(s, 3) && ByteAt(s, 3) == 0x80 + (n / 4096) % 64
    requires EscapeAt(s, 6) && ByteAt(s, 6) == 0x80 + (n / 64) % 64
    requires EscapeAt(s, 9) && ByteAt(s, 9) == 0x80 + n % 64
    ensures DecodeEscapedChar(s) == (n as char, 12)
  {
    var b0, b1, b2, b3 := ByteAt(s, 0), ByteAt(s, 3), ByteAt(s, 6), ByteAt(s, 9);
    assert n / 262144 < 8;
    assert 0xF0 <= b0 < 0xF8 && IsContinuation(b1) && IsContinuation(b2) && IsContinuation(b3);
    FourByteValue(n);
    assert (b0 - 0xF0) * 262144 + (b1 - 0x80) * 4096 + (b2 - 0x80) * 64 + (b3 - 0x80) == n;
  }

  lemma PercentBytesAt(bytes: seq<int>, k: nat, rest: string)
    requires forall i :: 0 <= i < |bytes| ==> 0 <= bytes[i] < 256
    requires k < |bytes|
    ensures EscapeAt(PercentBytes(bytes) + rest, 3 * k)
    ensures ByteAt(PercentBytes(bytes) + rest, 3 * k) == bytes[k]
  {
    var e := PercentBytes(bytes);
    PercentBytesSlice(bytes, k);
    EscapeInside(e, rest, 3 * k, bytes[k]);
  }

  /** The `k`-th escape of `PercentBytes(bytes)` is that of `bytes[k]`. */
  lemma {:induction false} PercentBytesSlice(bytes: seq<int>, k: nat)
    requires forall i :: 0 <= i < |bytes| ==> 0 <= bytes[i] < 256
    requires k < |bytes|
    ensures PercentBytes(bytes)[3 * k..3 * k + 3] == PercentByte(bytes[k])
  {
    var h, t := PercentByte(bytes[0]), PercentBytes(bytes[1..]);
    assert PercentBytes(bytes) == h + t;
    if k > 0 {
      PercentBytesSlice(bytes[1..], k - 1);
      SliceAfterHead(h, t, k);
    }
  }

  lemma SliceAfterHead(h: string, t: string, k: nat)
    requires |h| == 3 && 0 < k && 3 * k <= |t|
    ensures (h + t)[3 * k..3 * k + 3] == t[3 * (k - 1)..3 * (k - 1) + 3]
  {
  }

  lemma EscapeInside(e: string, rest: string, i: nat, b: int)
    requires 0 <= b < 256 && i + 3 <= |e| && e[i..i + 3] == PercentByte(b)
    ensures EscapeAt(e + rest, i) && ByteAt(e + rest, i) == b
  {
    var s := e + rest;
    var p := PercentByte(b);
    assert s[i] == p[0] && s[i + 1] == p[1] && s[i + 2] == p[2];
    PercentByteValue(b, []);
    assert p + [] == p;
  }

  lemma ThreeByteValue(n: int)
    requires 0 <= n
    ensures (n / 4096) * 4096 + ((n / 64) % 64) * 64 + n % 64 == n
  {
    assert (n / 64) / 64 == n / 4096;
  }

  lemma FourByteValue(n: int)
    requires 0 <= n
    ensures (n / 262144) * 262144 + ((n / 4096) % 64) * 4096 + ((n / 64) % 64) * 64 + n % 64 == n
  {
    assert (n / 4096) / 64 == n / 262144;
    ThreeByteValue(n);
  }

  /** Decoding undoes `encodeURIComponent`: the encoding loses nothing. */
  lemma {:induction false} DecodeEncode(s: string)
    ensures DecodeUriComponent(EncodeUriComponent(s)) == s
  {
    if s != [] {
      var rest := EncodeUriComponent(s[1..]);
      var e := EncodeUriComponent(s);
      assert e == EncodeChar(s[0]) + rest;
      if IsUnreserved(s[0]) {
        assert !EscapeAt(e, 0);
        assert e[1..] == rest;
      } else {
        DecodeEncodedChar(s[0], rest);
        assert e[|EncodeChar(s[0])|..] == rest;
      }
      DecodeEncode(s[1..]);
    }
  }
}

module InvitationLinks {
  import opened Wrappers
  import opened Text
  import opened UriComponent

  const TokenKey: string := "token="
  const AcceptLinkHead: string := "/v1/invitations/accept-link?"
  const DeepLinkHead: string := "seniorhub://invite?type=household-invite&"
  const FallbackHead: string := "type=household-invite&"
  const AcceptLinkPath: string := AcceptLinkHead + TokenKey
  const DeepLinkPrefix: string := DeepLinkHead + TokenKey
  const FallbackQuery: string := FallbackHead + TokenKey

  datatype InvitationLinks = InvitationLinks(acceptLinkUrl: string, deepLinkUrl: string, fallbackUrl: Option<string>)

  /** What follows the last '=' of a URL: the value of its last query parameter. */
  function LastParamValue(url: string): (v: string)
    ensures |v| <= |url| && v == url[|url| - |v|..]
    ensures forall i :: 0 <= i < |v| ==> v[i] != '='
    ensures |v| < |url| ==> url[|url| - |v| - 1] == '='
  {
    if url == [] || url[|url| - 1] == '=' then [] else LastParamValue(url[..|url| - 1]) + [url[|url| - 1]]
  }

  /** The URL ends with the `token=` parameter, and that last parameter's value is the encoded `token`. */
  predicate CarriesToken(url: string, token: string) {
    EndsWith(url, TokenKey + EncodeUriComponent(token))
    && LastParamValue(url) == EncodeUriComponent(token)
  }

  /**
   * `buildInvitationLinks({ token, backendBaseUrl, fallbackBaseUrl })`; an absent
   * `fallbackBaseUrl` is `None`.
   */
  function BuildInvitationLinks(token: string, backendBaseUrl: string, fallbackBaseUrl: Option<string>): (l: InvitationLinks)
    ensures l.acceptLinkUrl == backendBaseUrl + AcceptLinkPath + EncodeUriComponent(token)
    ensures l.deepLinkUrl == DeepLinkPrefix + EncodeUriComponent(token)
    ensures l.fallbackUrl.None? <==> fallbackBaseUrl.None? || fallbackBaseUrl.value == ""
    ensures l.fallbackUrl.Some? ==>
      l.fallbackUrl.value == fallbackBaseUrl.value + [if '?' in fallbackBaseUrl.value then '&' else '?']
        + FallbackQuery + EncodeUriComponent(token)
  {
    var encoded := EncodeUriComponent(token);
    var fallbackUrl :=
      if fallbackBaseUrl.Some? && fallbackBaseUrl.value != "" then
        var separator := if '?' in fallbackBaseUrl.value then '&' else '?';
        Some(fallbackBaseUrl.value + [separator] + FallbackQuery + encoded)
      else None;
    InvitationLinks(backendBaseUrl + AcceptLinkPath + encoded, DeepLinkPrefix + encoded, fallbackUrl)
  }

  /** A URL ending in `token=` and the encoded token carries the token. */
  lemma EndingCarriesToken(prefix: string, token: string)
    ensures CarriesToken(prefix + TokenKey + EncodeUriComponent(token), token)
  {
    var e := EncodeUriComponent(token);
    EndsWithKeyAndValue(prefix, e);
    LastParamAfterKey(prefix, e);
  }

  /** Whoever reads the last parameter of a URL that carries the token and decodes it gets the token back. */
  lemma CarriedTokenDecodes(url: string, token: string)
    requires CarriesToken(url, token)
    ensures DecodeUriComponent(LastParamValue(url)) == token
  {
    DecodeEncode(token);
  }

  /** Appending `token=` and a value leaves the URL ending in both. */
  lemma EndsWithKeyAndValue(prefix: string, e: string)
    ensures EndsWith(prefix + TokenKey + e, TokenKey + e)
  {
    assert prefix + TokenKey + e == prefix + (TokenKey + e);
  }

  /** After `token=`, an encoded value is the last parameter value. */
  lemma LastParamAfterKey(prefix: string, e: string)
    requires forall i :: 0 <= i < |e| ==> IsEncodedChar(e[i])
    ensures LastParamValue(prefix + TokenKey + e) == e
  {
    var head := prefix + TokenKey;
    assert head[|head| - 1] == '=';
    NoEqualsInEncoded(e);
    LastParamOfEncoded(head, e);
  }

  /** After a prefix ending in '=', a value without '=' is the last parameter value. */
  lemma LastParamOfEncoded(prefix: string, e: string)
    requires prefix != [] && prefix[|prefix| - 1] == '='
    requires forall i :: 0 <= i < |e| ==> e[i] != '='
    ensures LastParamValue(prefix + e) == e
  {
    ValueAfterEquals(prefix, e);
    LastParamIsSuffix(prefix + e, |e|);
  }

  /** An encoded string holds no '='. */
  lemma NoEqualsInEncoded(e: string)
    requires forall i :: 0 <= i < |e| ==> IsEncodedChar(e[i])
    ensures forall i :: 0 <= i < |e| ==> e[i] != '='
  {
    forall i | 0 <= i < |e|
      ensures e[i] != '='
    {
      assert IsEncodedChar(e[i]);
    }
  }

  /** A value without '=' after a prefix ending in '=' is the suffix that follows the last '='. */
  lemma ValueAfterEquals(prefix: string, e: string)
    requires prefix != [] && prefix[|prefix| - 1] == '='
    requires forall i :: 0 <= i < |e| ==> e[i] != '='
    ensures var url := prefix + e;
      && |e| < |url| && url[|url| - |e| - 1] == '=' && url[|url| - |e|..] == e
      && forall i :: |url| - |e| <= i < |url| ==> url[i] != '='
  {
    var url := prefix + e;
    forall i | |url| - |e| <= i < |url|
      ensures url[i] != '='
    {
      assert url[i] == e[i - |prefix|];
    }
    assert url[|url| - |e|..] == e;
  }

  /** When the last `n` characters contain no '=' and the one before them is '=', they are the last value. */
  lemma {:induction false} LastParamIsSuffix(url: string, n: nat)
    requires n < |url| && url[|url| - n - 1] == '='
    requires forall i :: |url| - n <= i < |url| ==> url[i] != '='
    ensures LastParamValue(url) == url[|url| - n..]
    decreases n
  {
    if n > 0 {
      var shorter := url[..|url| - 1];
      LastParamIsSuffix(shorter, n - 1);
      assert shorter[|shorter| - (n - 1)..] + [url[|url| - 1]] == url[|url| - n..];
    }
  }

  /** The accept link starts with the backend URL and carries the token. */
  lemma AcceptLinkCarriesToken(token: string, backendBaseUrl: string, fallbackBaseUrl: Option<string>)
    ensures var l := BuildInvitationLinks(token, backendBaseUrl, fallbackBaseUrl);
      CarriesToken(l.acceptLinkUrl, token) && StartsWith(l.acceptLinkUrl, backendBaseUrl)
  {
    HeadThenToken(backendBaseUrl, AcceptLinkHead, token);
  }

  /** The deep link carries the token. */
  lemma DeepLinkCarriesToken(token: string, backendBaseUrl: string, fallbackBaseUrl: Option<string>)
    ensures CarriesToken(BuildInvitationLinks(token, backendBaseUrl, fallbackBaseUrl).deepLinkUrl, token)
  {
    EndingCarriesToken(DeepLinkHead, token);
  }

  /** A non-null fallback link starts with the fallback base URL and carries the token. */
  lemma FallbackLinkCarriesToken(token: string, backendBaseUrl: string, fallbackBaseUrl: Option<string>)
    ensures var l := BuildInvitationLinks(token, backendBaseUrl, fallbackBaseUrl);
      l.fallbackUrl.Some? ==> CarriesToken(l.fallbackUrl.value, token) && StartsWith(l.fallbackUrl.value, fallbackBaseUrl.value)
  {
    var l := BuildInvitationLinks(token, backendBaseUrl, fallbackBaseUrl);
    if l.fallbackUrl.Some? {
      var base := fallbackBaseUrl.value;
      var separator := [if '?' in base then '&' else '?'];
      var e := EncodeUriComponent(token);
      Regroup(base, separator, FallbackHead, TokenKey, e);
      HeadThenToken(base, separator + FallbackHead, token);
    }
  }

  /** Regrouping the pieces of a link: the separator joins the head, `key` stays before the value. */
  lemma Regroup(base: string, separator: string, head: string, key: string, e: string)
    ensures base + separator + (head + key) + e == base + ((separator + head) + key) + e
  {
  }

  /** A URL made of a base, a fixed head and `token=` with the encoded token carries the token and starts with the base. */
  lemma HeadThenToken(base: string, head: string, token: string)
    ensures var url := base + (head + TokenKey) + EncodeUriComponent(token);
      CarriesToken(url, token) && StartsWith(url, base)
  {
    var e := EncodeUriComponent(token);
    HeadKeyValue(base, head, TokenKey, e);
    EndingCarriesToken(base + head, token);
  }

  /** A URL built as base, then head and key, then value, starts with the base and may be read as the base and head, then key, then value. */
  lemma HeadKeyValue(base: string, head: string, key: string, e: string)
    ensures base + (head + key) + e == (base + head) + key + e
    ensures StartsWith(base + (head + key) + e, base)
  {
    assert (base + (head + key) + e)[..|base|] == base;
  }

  /** The deep link depends on the token only, not on either base URL. */
  lemma DeepLinkIgnoresBases(token: string, backend1: string, fallback1: Option<string>, backend2: string, fallback2: Option<string>)
    ensures BuildInvitationLinks(token, backend1, fallback1).deepLinkUrl == BuildInvitationLinks(token, backend2, fallback2).deepLinkUrl
  {
  }
}
