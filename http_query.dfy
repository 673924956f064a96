/** Models of the PHP built-ins that assemble a query string:
    urlencode() (the application/x-www-form-urlencoded encoding of
    section 17.13.4.1 of HTML 4.01, as PHP writes it), the integer to
    string conversion applied to integer query values, and
    http_build_query(). Beside each encoder stands a decoder proved to
    undo it, so that a built query is shown to be unambiguous. */
module HttpQuery {
  import opened PhpStrings

  datatype Option<T> = None | Some(value: T)

  type Byte = b: int | 0 <= b < 256

  /** The UTF-8 encoding of one character. */
  function Utf8Char(c: char): (r: seq<Byte>)
    ensures 1 <= |r| <= 4
    ensures c as int < 0x80 ==> r == [c as int]
    ensures c as int >= 0x80 ==> forall k :: 0 <= k < |r| ==> r[k] >= 0x80
  {
    var n := c as int;
    if n < 0x80 then [n]
    else if n < 0x800 then [0xC0 + n / 0x40, 0x80 + n % 0x40]
    else if n < 0x1_0000 then [0xE0 + n / 0x1000, 0x80 + (n / 0x40) % 0x40, 0x80 + n % 0x40]
    else [0xF0 + n / 0x4_0000, 0x80 + (n / 0x1000) % 0x40, 0x80 + (n / 0x40) % 0x40, 0x80 + n % 0x40]
  }

  /** The bytes of a PHP string holding `s` in UTF-8. */
  function Utf8(s: string): (r: seq<Byte>)
    ensures |r| >= |s|
  {
    if s == [] then [] else Utf8Char(s[0]) + Utf8(s[1..])
  }

  /** The length of a UTF-8 sequence, read from its first byte. */
  function Utf8Length(lead: Byte): nat {
    if lead < 0x80 then 1 else if lead < 0xE0 then 2 else if lead < 0xF0 then 3 else 4
  }

  /** The code point a UTF-8 sequence of one to four bytes stands for. */
  function Utf8Value(r: seq<Byte>): int
    requires 1 <= |r| <= 4
  {
    var b := seq(|r|, k requires 0 <= k < |r| => r[k] as int);
    if |r| == 1 then b[0]
    else if |r| == 2 then (b[0] - 0xC0) * 0x40 + (b[1] - 0x80)
    else if |r| == 3 then (b[0] - 0xE0) * 0x1000 + (b[1] - 0x80) * 0x40 + (b[2] - 0x80)
    else (b[0] - 0xF0) * 0x4_0000 + (b[1] - 0x80) * 0x1000 + (b[2] - 0x80) * 0x40 + (b[3] - 0x80)
  }

  /** The first byte of a character's encoding gives its length, and the
      bytes give back the character. */
  lemma Utf8CharDecodes(c: char)
    ensures |Utf8Char(c)| == Utf8Length(Utf8Char(c)[0])
    ensures Utf8Value(Utf8Char(c)) == c as int
  {
    var n := c as int;
    var q := n / 0x40;
    assert n == q * 0x40 + n % 0x40;
    if n >= 0x800 {
      var p := q / 0x40;
      assert q == p * 0x40 + q % 0x40;
      assert n / 0x1000 == p;
      if n >= 0x1_0000 {
        assert p == (p / 0x40) * 0x40 + p % 0x40;
        assert n / 0x4_0000 == p / 0x40;
        assert (n / 0x1000) % 0x40 == p % 0x40;
      }
    }
  }

  /** Different strings have different UTF-8 encodings. */
  lemma {:induction false} Utf8Injective(a: string, b: string)
    requires Utf8(a) == Utf8(b)
    ensures a == b
  {
    if a == [] || b == [] {
      assert |Utf8(a)| == 0 || |Utf8(b)| == 0;
    } else {
      var ea, eb := Utf8Char(a[0]), Utf8Char(b[0]);
      Utf8CharDecodes(a[0]);
      Utf8CharDecodes(b[0]);
      assert Utf8(a) == ea + Utf8(a[1..]) && Utf8(b) == eb + Utf8(b[1..]);
      assert ea[0] == Utf8(a)[0] == eb[0];
      assert ea == Utf8(a)[..|ea|] == eb;
      assert Utf8(a[1..]) == Utf8(a)[|ea|..] == Utf8(b[1..]);
      Utf8Injective(a[1..], b[1..]);
      assert a == [a[0]] + a[1..] && b == [b[0]] + b[1..];
    }
  }

  predicate IsAlphaNum(c: char) {
    'a' <= c <= 'z' || 'A' <= c <= 'Z' || '0' <= c <= '9'
  }

  /** The characters urlencode() leaves as they are. */
  predicate IsUnreserved(c: char) {
    IsAlphaNum(c) || c == '-' || c == '_' || c == '.'
  }

  /** The characters urlencode() can output. */
  predicate IsFormChar(c: char) {
    IsUnreserved(c) || c == '+' || c == '%'
  }

  const HexDigits: string := "0123456789ABCDEF"

  /** The digits urlencode() writes after '%'. */
  predicate IsUpperHex(c: char) {
    '0' <= c <= '9' || 'A' <= c <= 'F'
  }

  /** urlencode() on one byte: unreserved ASCII passes through, a space
      becomes '+', any other byte becomes '%' and two upper-case hex
      digits, the high half first. */
  function EncodeByte(b: Byte): (r: string)
    ensures 1 <= |r| <= 3
    ensures forall k :: 0 <= k < |r| ==> IsFormChar(r[k])
    ensures IsUnreserved(b as char) ==> r == [b as char]
    ensures b == 0x20 ==> r == "+"
    ensures !IsUnreserved(b as char) && b != 0x20 ==>
      && |r| == 3 && r[0] == '%'
      && IsUpperHex(r[1]) && HexValue(r[1]) == Some(b / 16)
      && IsUpperHex(r[2]) && HexValue(r[2]) == Some(b % 16)
  {
    if IsUnreserved(b as char) then [b as char]
    else if b == 0x20 then "+"
    else
      HexDigitValue(b / 16);
      HexDigitValue(b % 16);
      ['%', HexDigits[b / 16], HexDigits[b % 16]]
  }

  /** urlencode() on a byte string. */
  function EncodeBytes(bs: seq<Byte>): (r: string)
    ensures |r| >= |bs|
    ensures forall k :: 0 <= k < |r| ==> IsFormChar(r[k])
  {
    if bs == [] then "" else EncodeByte(bs[0]) + EncodeBytes(bs[1..])
  }

  /** urlencode() applied to the UTF-8 bytes of `s`. */
  function UrlEncode(s: string): (r: string)
    ensures forall k :: 0 <= k < |r| ==> IsFormChar(r[k])
    ensures '&' !in r && '=' !in r
  {
    EncodeBytes(Utf8(s))
  }

  /** The value of a hex digit of either case. */
  function HexValue(c: char): Option<nat> {
    if '0' <= c <= '9' then Some(c as int - '0' as int)
    else if 'A' <= c <= 'F' then Some(c as int - 'A' as int + 10)
    else if 'a' <= c <= 'f' then Some(c as int - 'a' as int + 10)
    else None
  }

  function Prepend(b: Byte, rest: Option<seq<Byte>>): Option<seq<Byte>> {
    match rest
    case None => None
    case Some(bs) => Some([b] + bs)
  }

  /** Strict form decoding: the reference against which urlencode() is
      checked. Rejects characters urlencode() never outputs and malformed
      escapes. */
  function DecodeBytes(s: string): (r: Option<seq<Byte>>)
    decreases |s|
  {
    if s == [] then Some([])
    else if s[0] == '+' then Prepend(0x20, DecodeBytes(s[1..]))
    else if s[0] == '%' then
      if |s| < 3 then None
      else match (HexValue(s[1]), HexValue(s[2]))
        case (Some(h), Some(l)) => if h < 16 && l < 16 then Prepend(16 * h + l, DecodeBytes(s[3..])) else None
        case _ => None
    else if IsUnreserved(s[0]) && s[0] as int < 256 then Prepend(s[0] as int, DecodeBytes(s[1..]))
    else None
  }

  lemma HexDigitValue(d: nat)
    requires d < 16
    ensures IsUpperHex(HexDigits[d]) && HexValue(HexDigits[d]) == Some(d)
  {
  }

  /** Decoding a percent escape followed by more text yields the escaped
      byte followed by the decoding of the rest. */
  lemma DecodeEscape(b: Byte, rest: string)
    ensures DecodeBytes(['%', HexDigits[b / 16], HexDigits[b % 16]] + rest) == Prepend(b, DecodeBytes(rest))
  {
    var e := ['%', HexDigits[b / 16], HexDigits[b % 16]] + rest;
    HexDigitValue(b / 16);
    HexDigitValue(b % 16);
    assert e[0] == '%' && e[1] == HexDigits[b / 16] && e[2] == HexDigits[b % 16];
    assert e[3..] == rest;
  }

  /** Decoding a one-character encoding followed by more text. */
  lemma DecodeSingle(c: char, b: Byte, rest: string)
    requires (c == '+' && b == 0x20) || (IsUnreserved(c) && c as int == b)
    ensures DecodeBytes([c] + rest) == Prepend(b, DecodeBytes(rest))
  {
    var e := [c] + rest;
    assert e[0] == c && e[1..] == rest;
  }

  /** Decoding an encoded byte followed by more text yields that byte
      followed by the decoding of the rest. */
  lemma DecodeEncodeByte(b: Byte, rest: string)
    ensures DecodeBytes(EncodeByte(b) + rest) == Prepend(b, DecodeBytes(rest))
  {
    if IsUnreserved(b as char) {
      DecodeSingle(b as char, b, rest);
    } else if b == 0x20 {
      DecodeSingle('+', b, rest);
    } else {
      DecodeEscape(b, rest);
    }
  }

  /** Decoding undoes urlencode(). */
  lemma {:induction false} DecodeEncodeBytes(bs: seq<Byte>)
    ensures DecodeBytes(EncodeBytes(bs)) == Some(bs)
  {
    if bs != [] {
      DecodeEncodeBytes(bs[1..]);
      DecodeEncodeByte(bs[0], EncodeBytes(bs[1..]));
      assert [bs[0]] + bs[1..] == bs;
    }
  }

  /** urlencode() is injective on byte strings. */
  lemma EncodeBytesInjective(a: seq<Byte>, b: seq<Byte>)
    requires EncodeBytes(a) == EncodeBytes(b)
    ensures a == b
  {
    DecodeEncodeBytes(a);
    DecodeEncodeBytes(b);
  }

  /** UTF-8 encodes a string character by character. */
  lemma {:induction false} Utf8Concat(a: string, b: string)
    ensures Utf8(a + b) == Utf8(a) + Utf8(b)
  {
    if a != [] {
      var t := a[1..];
      assert (a + b)[0] == a[0] && (a + b)[1..] == t + b;
      Utf8Concat(t, b);
      assert Utf8(a + b) == Utf8Char(a[0]) + (Utf8(t) + Utf8(b));
    } else {
      assert a + b == b;
    }
  }

  lemma {:induction false} EncodeBytesConcat(a: seq<Byte>, b: seq<Byte>)
    ensures EncodeBytes(a + b) == EncodeBytes(a) + EncodeBytes(b)
  {
    if a != [] {
      assert (a + b)[1..] == a[1..] + b;
      EncodeBytesConcat(a[1..], b);
    } else {
      assert a + b == b;
    }
  }

  /** urlencode() works piece by piece: the encoding of a concatenation is
      the concatenation of the encodings. */
  lemma UrlEncodeConcat(a: string, b: string)
    ensures UrlEncode(a + b) == UrlEncode(a) + UrlEncode(b)
  {
    Utf8Concat(a, b);
    EncodeBytesConcat(Utf8(a), Utf8(b));
  }

  /** A string of unreserved ASCII characters is its own encoding. */
  lemma {:induction false} UrlEncodeUnreserved(s: string)
    requires forall k :: 0 <= k < |s| ==> IsUnreserved(s[k])
    ensures UrlEncode(s) == s
  {
    if s != [] {
      UrlEncodeUnreserved(s[1..]);
      assert Utf8(s) == [s[0] as int] + Utf8(s[1..]);
      assert Utf8(s)[1..] == Utf8(s[1..]);
      assert [s[0]] + s[1..] == s;
    }
  }

  function Digit(d: nat): char
    requires d < 10
  {
    "0123456789"[d]
  }

  /** PHP's conversion of a non-negative integer to its decimal string. */
  function NatToDecimal(n: nat): (r: string)
    ensures |r| >= 1
    ensures forall k :: 0 <= k < |r| ==> '0' <= r[k] <= '9'
    ensures r[0] == '0' ==> n == 0 && r == "0"
  {
    if n < 10 then [Digit(n)] else NatToDecimal(n / 10) + [Digit(n % 10)]
  }

  /** The value of a string of decimal digits. */
  function DecimalValue(s: string): nat
    requires forall k :: 0 <= k < |s| ==> '0' <= s[k] <= '9'
  {
    if s == [] then 0 else 10 * DecimalValue(s[..|s| - 1]) + (s[|s| - 1] as int - '0' as int)
  }

  lemma DigitValue(d: nat)
    requires d < 10
    ensures Digit(d) as int - '0' as int == d
  {
  }

  /** Reading the decimal string back gives the number. */
  lemma {:induction false} DecimalRoundTrip(n: nat)
    ensures DecimalValue(NatToDecimal(n)) == n
  {
    var r := NatToDecimal(n);
    if n < 10 {
      DigitValue(n);
      assert r[..|r| - 1] == [];
    } else {
      var p := NatToDecimal(n / 10);
      DecimalRoundTrip(n / 10);
      DigitValue(n % 10);
      assert r == p + [Digit(n % 10)];
      assert r[..|r| - 1] == p;
      assert DecimalValue(r) == 10 * DecimalValue(p) + (Digit(n % 10) as int - '0' as int);
    }
  }


  /** Decimal digits are unreserved, so they go into a query verbatim. */
  lemma DecimalIsUnreserved(n: nat)
    ensures forall k :: 0 <= k < |NatToDecimal(n)| ==> IsUnreserved(NatToDecimal(n)[k])
  {
  }

  /** The `key=value` text of each pair of a query. */
  function EncodePairs(params: seq<(string, string)>): (r: seq<string>)
    ensures |r| == |params|
    ensures forall k :: 0 <= k < |r| ==> r[k] == UrlEncode(params[k].0) + "=" + UrlEncode(params[k].1)
  {
    if params == [] then []
    else [UrlEncode(params[0].0) + "=" + UrlEncode(params[0].1)] + EncodePairs(params[1..])
  }

  /** http_build_query($params, '', '&') for string keys and string values,
      with the default RFC 1738 encoding type (urlencode()). */
  function BuildQuery(params: seq<(string, string)>): string {
    Join(EncodePairs(params), "&")
  }

  /** The bytes a reader of a query recovers for each pair. */
  function PairBytes(params: seq<(string, string)>): (r: seq<(seq<Byte>, seq<Byte>)>)
    ensures |r| == |params|
    ensures forall k :: 0 <= k < |r| ==> r[k] == (Utf8(params[k].0), Utf8(params[k].1))
  {
    if params == [] then [] else [(Utf8(params[0].0), Utf8(params[0].1))] + PairBytes(params[1..])
  }

  /** Reads one `key=value` piece. */
  function ParsePair(piece: string): Option<(seq<Byte>, seq<Byte>)> {
    var kv := Split(piece, '=');
    if |kv| != 2 then None
    else match (DecodeBytes(kv[0]), DecodeBytes(kv[1]))
      case (Some(k), Some(v)) => Some((k, v))
      case _ => None
  }

  function ParsePieces(pieces: seq<string>): Option<seq<(seq<Byte>, seq<Byte>)>> {
    if pieces == [] then Some([])
    else match (ParsePair(pieces[0]), ParsePieces(pieces[1..]))
      case (Some(p), Some(ps)) => Some([p] + ps)
      case _ => None
  }

  /** A reader of form-encoded queries: the reference against which
      BuildQuery is checked. */
  function ParseQuery(q: string): Option<seq<(seq<Byte>, seq<Byte>)>> {
    ParsePieces(Split(q, '&'))
  }

  lemma ParseEncodedPair(key: string, value: string)
    ensures ParsePair(UrlEncode(key) + "=" + UrlEncode(value)) == Some((Utf8(key), Utf8(value)))
  {
    var ek, ev := UrlEncode(key), UrlEncode(value);
    assert Join([ek, ev], "=") == ek + "=" + ev;
    SplitJoin([ek, ev], '=');
    DecodeEncodeBytes(Utf8(key));
    DecodeEncodeBytes(Utf8(value));
  }

  lemma {:induction false} ParseEncodedPieces(params: seq<(string, string)>)
    ensures ParsePieces(EncodePairs(params)) == Some(PairBytes(params))
  {
    if params != [] {
      ParseEncodedPair(params[0].0, params[0].1);
      ParseEncodedPieces(params[1..]);
      assert EncodePairs(params)[1..] == EncodePairs(params[1..]);
      assert PairBytes(params) == [PairBytes(params)[0]] + PairBytes(params[1..]);
    }
  }

  /** Reading a built query back recovers every key and value, in order:
      the query http_build_query() writes is unambiguous. */
  lemma ParseBuildQuery(params: seq<(string, string)>)
    requires |params| >= 1
    ensures ParseQuery(BuildQuery(params)) == Some(PairBytes(params))
  {
    var pieces := EncodePairs(params);
    forall k | 0 <= k < |pieces| ensures '&' !in pieces[k] {
      assert pieces[k] == UrlEncode(params[k].0) + "=" + UrlEncode(params[k].1);
    }
    SplitJoin(pieces, '&');
    ParseEncodedPieces(params);
  }

  lemma {:induction false} EncodePairsAppend(params: seq<(string, string)>, key: string, value: string)
    ensures EncodePairs(params + [(key, value)]) == EncodePairs(params) + [UrlEncode(key) + "=" + UrlEncode(value)]
  {
    if params != [] {
      assert (params + [(key, value)])[1..] == params[1..] + [(key, value)];
      EncodePairsAppend(params[1..], key, value);
    }
  }

  /** Appending a pair appends its `key=value` piece after an '&'. */
  lemma BuildQueryAppend(params: seq<(string, string)>, key: string, value: string)
    requires |params| >= 1
    ensures BuildQuery(params + [(key, value)]) == BuildQuery(params) + "&" + UrlEncode(key) + "=" + UrlEncode(value)
  {
    var x := UrlEncode(key) + "=" + UrlEncode(value);
    EncodePairsAppend(params, key, value);
    JoinAppend(EncodePairs(params), x, "&");
    var q := BuildQuery(params);
    assert q + "&" + x == q + "&" + UrlEncode(key) + "=" + UrlEncode(value);
  }

  lemma {:induction false} JoinAppend(xs: seq<string>, x: string, sep: string)
    requires |xs| >= 1
    ensures Join(xs + [x], sep) == Join(xs, sep) + sep + x
  {
    if |xs| > 1 {
      JoinAppend(xs[1..], x, sep);
      assert (xs + [x])[1..] == xs[1..] + [x];
    }
  }
}
