/**
 * The base64url codec of src/utils.ts. `btoa` and `atob` follow section 4 of RFC 4648 and the forgiving decoder of the
 * WHATWG Infra standard; binary strings hold characters below 256.
 */
module Base64Url {
  import opened Wrappers
  import opened Percent

  type sextet = n: int | 0 <= n < 64

  /** The base64 alphabet. */
  function Digit(n: sextet): char {
    if n < 26 then (n + 65) as char
    else if n < 52 then (n + 71) as char
    else if n < 62 then (n - 4) as char
    else if n == 62 then '+'
    else '/'
  }

  /** The value of an alphabet character, or 64 for any other. */
  function DigitValueOf(c: char): (v: int)
    ensures 0 <= v <= 64
  {
    if 'A' <= c <= 'Z' then c as int - 65
    else if 'a' <= c <= 'z' then c as int - 71
    else if '0' <= c <= '9' then c as int + 4
    else if c == '+' then 62
    else if c == '/' then 63
    else 64
  }

  /** Three bytes make four groups of six bits; a remainder is filled up with zero bits. */
  function Sextets(s: string): (v: seq<sextet>)
    requires Bytes(s)
    ensures |v| == (4 * |s| + 2) / 3
  {
    if |s| == 0 then []
    else if |s| == 1 then [High(s[0]), Middle(s[0], 0 as char)]
    else if |s| == 2 then [High(s[0]), Middle(s[0], s[1]), Lower(s[1], 0 as char)]
    else [High(s[0]), Middle(s[0], s[1]), Lower(s[1], s[2]), Low(s[2])] + Sextets(s[3..])
  }

  function High(a: char): sextet
    requires IsByte(a)
  {
    a as int / 4
  }

  function Middle(a: char, b: char): sextet
    requires IsByte(a) && IsByte(b)
  {
    a as int % 4 * 16 + b as int / 16
  }

  function Lower(b: char, c: char): sextet
    requires IsByte(b) && IsByte(c)
  {
    b as int % 16 * 4 + c as int / 64
  }

  function Low(c: char): sextet
    requires IsByte(c)
  {
    c as int % 64
  }

  /** The whole bytes among groups of six bits. */
  function Octets(v: seq<sextet>): (s: string)
    ensures Bytes(s)
  {
    if |v| < 2 then ""
    else if |v| == 2 then [First(v[0], v[1])]
    else if |v| == 3 then [First(v[0], v[1]), Second(v[1], v[2])]
    else [First(v[0], v[1]), Second(v[1], v[2]), Third(v[2], v[3])] + Octets(v[4..])
  }

  function First(p: int, q: int): char
    requires 0 <= p < 64 && 0 <= q < 64
  {
    (p * 4 + q / 16) as char
  }

  function Second(q: int, r: int): char
    requires 0 <= q < 64 && 0 <= r < 64
  {
    (q % 16 * 16 + r / 4) as char
  }

  function Third(r: int, t: int): char
    requires 0 <= r < 64 && 0 <= t < 64
  {
    (r % 4 * 64 + t) as char
  }

  function Digits(v: seq<sextet>): (t: string)
    ensures |t| == |v|
    ensures forall i :: 0 <= i < |v| ==> t[i] == Digit(v[i])
  {
    if v == [] then "" else [Digit(v[0])] + Digits(v[1..])
  }

  predicate AllDigits(s: string) {
    forall i :: 0 <= i < |s| ==> DigitValueOf(s[i]) < 64
  }

  function Values(t: string): (v: seq<sextet>)
    requires AllDigits(t)
    ensures |v| == |t|
    ensures forall i :: 0 <= i < |v| ==> v[i] == DigitValueOf(t[i])
  {
    if t == "" then [] else [DigitValueOf(t[0])] + Values(t[1..])
  }

  function Padding(n: nat): string {
    if n % 3 == 0 then "" else if n % 3 == 1 then "==" else "="
  }

  /** `btoa` on a binary string. */
  function Btoa(s: string): string
    requires Bytes(s)
  {
    Digits(Sextets(s)) + Padding(|s|)
  }

  predicate IsBlank(c: char) {
    c in "\t\n\r " || c as int == 12
  }

  function DropSpaces(s: string): string {
    if s == "" then "" else (if IsBlank(s[0]) then "" else [s[0]]) + DropSpaces(s[1..])
  }

  /** One or two trailing `=` are dropped from a text whose length is a multiple of four. */
  function DropPadding(s: string): string {
    if |s| % 4 != 0 || |s| == 0 || s[|s| - 1] != '=' then s
    else if s[|s| - 2] == '=' then s[..|s| - 2]
    else s[..|s| - 1]
  }

  /** `atob`; `None` is the exception it throws. */
  function Atob(s: string): (r: Option<string>)
    ensures r.Some? ==> Bytes(r.value)
  {
    var t := DropPadding(DropSpaces(s));
    if |t| % 4 == 1 || !AllDigits(t) then None else Some(Octets(Values(t)))
  }

  /** The replacement table of `urlEncodeB64`. */
  function UrlEncodeB64(s: string): string {
    if s == "" then ""
    else
      (match s[0] case '+' => "-" case '/' => "_" case '=' => "" case c => [c]) + UrlEncodeB64(s[1..])
  }

  /** `input.replace(/_/g, '/').replace(/-/g, '+')` */
  function UrlDecodeChars(s: string): string {
    if s == "" then ""
    else [if s[0] == '_' then '/' else if s[0] == '-' then '+' else s[0]] + UrlDecodeChars(s[1..])
  }

  /** `bufferToBase64UrlEncoded` */
  function Encode(bytes: string): string
    requires Bytes(bytes)
  {
    UrlEncodeB64(Btoa(bytes))
  }

  /** `urlDecodeB64` down to bytes: `atob`, every byte escaped, and the escapes decoded again. */
  function Decode(text: string): Option<string> {
    var bytes := Atob(UrlDecodeChars(text));
    if bytes.None? then None else DecodeComponent(EscapeAll(bytes.value))
  }

  // ----- padding and alphabet -----

  lemma {:induction false} UrlEncodeAppend(a: string, b: string)
    ensures UrlEncodeB64(a + b) == UrlEncodeB64(a) + UrlEncodeB64(b)
  {
    if a == "" {
      assert a + b == b;
    } else {
      assert (a + b)[1..] == a[1..] + b;
      UrlEncodeAppend(a[1..], b);
    }
  }

  /** The replacement drops exactly the padding. */
  lemma EncodeIsUnpadded(s: string)
    requires Bytes(s)
    ensures Encode(s) == UrlEncodeB64(Digits(Sextets(s)))
  {
    UrlEncodeAppend(Digits(Sextets(s)), Padding(|s|));
    assert "="[1..] == "" && "=="[1..] == "=";
    assert UrlEncodeB64("=") == "" && UrlEncodeB64("==") == "";
  }

  predicate UrlSafe(c: char) {
    'A' <= c <= 'Z' || 'a' <= c <= 'z' || '0' <= c <= '9' || c == '-' || c == '_'
  }

  /** On digits the replacement keeps the length, lands in the URL-safe alphabet, and is undone by the decoder's. */
  lemma {:induction false} ReplacementInvertible(s: string)
    requires AllDigits(s)
    ensures |UrlEncodeB64(s)| == |s|
    ensures forall i :: 0 <= i < |s| ==> UrlSafe(UrlEncodeB64(s)[i])
    ensures UrlDecodeChars(UrlEncodeB64(s)) == s
  {
    if s != "" {
      ReplacementInvertible(s[1..]);
      var rest := UrlEncodeB64(s[1..]);
      var c := if s[0] == '+' then '-' else if s[0] == '/' then '_' else s[0];
      assert s[0] != '=' && UrlEncodeB64(s) == [c] + rest;
      assert ([c] + rest)[1..] == rest;
      assert UrlSafe(c);
      assert s == [s[0]] + s[1..];
    }
  }

  lemma {:induction false} NoSpacesDropped(s: string)
    requires forall i :: 0 <= i < |s| ==> !IsBlank(s[i])
    ensures DropSpaces(s) == s
  {
    if s != "" {
      NoSpacesDropped(s[1..]);
    }
  }

  lemma DigitNotBlank(c: char)
    requires DigitValueOf(c) < 64
    ensures !IsBlank(c)
  {
  }

  lemma DigitsValues(v: seq<sextet>)
    ensures AllDigits(Digits(v)) && Values(Digits(v)) == v
  {
    forall i | 0 <= i < |v|
      ensures DigitValueOf(Digits(v)[i]) == v[i]
    {
      DigitValue(v[i]);
    }
  }

  lemma NoPaddingDropped(s: string)
    requires AllDigits(s)
    ensures DropPadding(s) == s
  {
    if s != "" {
      assert DigitValueOf(s[|s| - 1]) < 64;
    }
  }

  lemma DigitsDecode(v: seq<sextet>)
    requires |v| % 4 != 1
    ensures AllDigits(Digits(v)) && Atob(Digits(v)) == Some(Octets(v))
  {
    DigitsValues(v);
    forall i | 0 <= i < |Digits(v)|
      ensures !IsBlank(Digits(v)[i])
    {
      DigitNotBlank(Digits(v)[i]);
    }
    NoSpacesDropped(Digits(v));
    NoPaddingDropped(Digits(v));
  }

  lemma DigitValue(n: sextet)
    ensures DigitValueOf(Digit(n)) == n
  {
  }

  // ----- bits -----

  /** The four sextets of three bytes determine the bytes. */
  lemma Regroup(a: char, b: char, c: char)
    requires IsByte(a) && IsByte(b) && IsByte(c)
    ensures First(High(a), Middle(a, b)) == a
    ensures Second(Middle(a, b), Lower(b, c)) == b
    ensures Third(Lower(b, c), Low(c)) == c
  {
  }

  lemma OctetsFour(p: sextet, q: sextet, r: sextet, t: sextet, rest: seq<sextet>)
    ensures Octets([p, q, r, t] + rest) == [First(p, q), Second(q, r), Third(r, t)] + Octets(rest)
  {
    assert ([p, q, r, t] + rest)[4..] == rest;
  }

  lemma GroupBack(a: char, b: char, c: char, rest: seq<sextet>)
    requires IsByte(a) && IsByte(b) && IsByte(c)
    ensures Octets([High(a), Middle(a, b), Lower(b, c), Low(c)] + rest) == [a, b, c] + Octets(rest)
  {
    Regroup(a, b, c);
    OctetsFour(High(a), Middle(a, b), Lower(b, c), Low(c), rest);
  }

  lemma Remainder(s: string)
    requires Bytes(s) && |s| < 3
    ensures Octets(Sextets(s)) == s
  {
    if |s| == 1 {
      Regroup(s[0], 0 as char, 0 as char);
    } else if |s| == 2 {
      Regroup(s[0], s[1], 0 as char);
    }
  }

  lemma {:induction false} BitsRoundTrip(s: string)
    requires Bytes(s)
    ensures Octets(Sextets(s)) == s
  {
    if |s| < 3 {
      Remainder(s);
    } else {
      var a, b, c, rest := s[0], s[1], s[2], s[3..];
      BitsRoundTrip(rest);
      GroupBack(a, b, c, Sextets(rest));
      assert s == [a, b, c] + rest;
    }
  }

  lemma NeverOneDigitOver(s: string)
    requires Bytes(s)
    ensures |Sextets(s)| % 4 != 1
  {
    var n := |s|;
    assert n == n / 3 * 3 + n % 3;
  }

  // ----- round trip -----

  /**
   * The codec of section 5 of RFC 4648 without padding: decoding inverts encoding on every byte string, the text has
   * ceil(4n/3) characters, all in the URL-safe alphabet.
   */
  lemma RoundTrip(bytes: string)
    requires Bytes(bytes)
    ensures Decode(Encode(bytes)) == Some(bytes)
    ensures |Encode(bytes)| == (4 * |bytes| + 2) / 3
    ensures forall i :: 0 <= i < |Encode(bytes)| ==> UrlSafe(Encode(bytes)[i])
  {
    EncodeIsUnpadded(bytes);
    BitsRoundTrip(bytes);
    NeverOneDigitOver(bytes);
    DigitsDecode(Sextets(bytes));
    ReplacementInvertible(Digits(Sextets(bytes)));
    EscapeAllRoundTrip(bytes);
  }

  /** Distinct digests have distinct code challenges. */
  lemma EncodeInjective(a: string, b: string)
    requires Bytes(a) && Bytes(b) && Encode(a) == Encode(b)
    ensures a == b
  {
    RoundTrip(a);
    RoundTrip(b);
  }

  /** The code challenge of a 32-byte digest has the 43 characters of section 4.2 of RFC 7636. */
  lemma ChallengeLength(digest: string)
    requires Bytes(digest) && |digest| == 32
    ensures |Encode(digest)| == 43
  {
    RoundTrip(digest);
  }
}
