/**
 * Percent-encoding (section 2.1 of RFC 3986) as `encodeURIComponent` and `decodeURIComponent` do it. Strings are seen
 * as their UTF-8 bytes, one character below 256 per byte.
 */
module Percent {
  import opened Wrappers

  predicate IsByte(c: char) {
    c as int < 256
  }

  predicate Bytes(s: string) {
    forall i :: 0 <= i < |s| ==> IsByte(s[i])
  }

  /** The characters that `encodeURIComponent` leaves alone. */
  predicate Plain(c: char) {
    'A' <= c <= 'Z' || 'a' <= c <= 'z' || '0' <= c <= '9' || c in "-_.!~*'()"
  }

  predicate PlainText(s: string) {
    forall i :: 0 <= i < |s| ==> Plain(s[i])
  }

  function HexDigit(n: int): char
    requires 0 <= n < 16
  {
    if n < 10 then (n + 48) as char else (n + 55) as char
  }

  function HexValue(c: char): (v: int)
    ensures 0 <= v <= 16
  {
    if '0' <= c <= '9' then c as int - 48
    else if 'A' <= c <= 'F' then c as int - 55
    else if 'a' <= c <= 'f' then c as int - 87
    else 16
  }

  function EncodeByte(c: char): string
    requires IsByte(c)
  {
    if Plain(c) then [c] else ['%', HexDigit(c as int / 16), HexDigit(c as int % 16)]
  }

  /** `encodeURIComponent` */
  function EncodeComponent(s: string): string
    requires Bytes(s)
  {
    if s == "" then "" else EncodeByte(s[0]) + EncodeComponent(s[1..])
  }

  /** `decodeURIComponent` down to bytes; `None` is the `URIError` of a broken escape. */
  function DecodeComponent(t: string): Option<string> {
    if t == "" then Some("")
    else if t[0] != '%' then
      var rest := DecodeComponent(t[1..]);
      if rest.None? then None else Some([t[0]] + rest.value)
    else if |t| < 3 || HexValue(t[1]) == 16 || HexValue(t[2]) == 16 then None
    else
      var rest := DecodeComponent(t[3..]);
      if rest.None? then None else Some([(HexValue(t[1]) * 16 + HexValue(t[2])) as char] + rest.value)
  }

  /** Encoded text is made of plain characters and `%`. */
  predicate Encoded(s: string) {
    forall i :: 0 <= i < |s| ==> Plain(s[i]) || s[i] == '%'
  }

  lemma {:induction false} EncodedText(s: string)
    requires Bytes(s)
    ensures Encoded(EncodeComponent(s)) && |EncodeComponent(s)| >= |s|
  {
    if s != "" {
      EncodedText(s[1..]);
    }
  }

  lemma {:induction false} PlainStays(s: string)
    requires Bytes(s) && PlainText(s)
    ensures EncodeComponent(s) == s
  {
    if s != "" {
      PlainStays(s[1..]);
      assert s == [s[0]] + s[1..];
    }
  }

  /** The escape of the first character that is not plain shows. */
  lemma {:induction false} EscapeShows(s: string)
    requires Bytes(s) && !PlainText(s)
    ensures |EncodeComponent(s)| > |s| && '%' in EncodeComponent(s)
  {
    if Plain(s[0]) {
      assert s == [s[0]] + s[1..];
      EscapeShows(s[1..]);
    } else {
      EncodedText(s[1..]);
      assert EncodeByte(s[0])[0] == '%';
    }
  }

  /** Encoded text is plain but for its escapes, and is the text itself exactly when that is plain. */
  lemma EncodeFacts(s: string)
    requires Bytes(s)
    ensures Encoded(EncodeComponent(s))
    ensures |EncodeComponent(s)| >= |s|
    ensures PlainText(s) ==> EncodeComponent(s) == s
    ensures !PlainText(s) ==> |EncodeComponent(s)| > |s| && !PlainText(EncodeComponent(s))
  {
    EncodedText(s);
    if PlainText(s) {
      PlainStays(s);
    } else {
      EscapeShows(s);
    }
  }

  lemma HexFacts(c: char)
    requires IsByte(c)
    ensures HexValue(HexDigit(c as int / 16)) == c as int / 16 && HexValue(HexDigit(c as int % 16)) == c as int % 16
  {
  }

  lemma DecodeFirst(c: char, rest: string)
    requires IsByte(c)
    ensures DecodeComponent(EncodeByte(c) + rest) ==
            if DecodeComponent(rest).None? then None else Some([c] + DecodeComponent(rest).value)
  {
    if Plain(c) {
      assert c != '%' && (EncodeByte(c) + rest)[1..] == rest;
    } else {
      HexFacts(c);
      assert (EncodeByte(c) + rest)[3..] == rest;
    }
  }

  /** Decoding inverts encoding. */
  lemma {:induction false} PercentRoundTrip(s: string)
    requires Bytes(s)
    ensures DecodeComponent(EncodeComponent(s)) == Some(s)
  {
    if s != "" {
      PercentRoundTrip(s[1..]);
      DecodeFirst(s[0], EncodeComponent(s[1..]));
      assert s == [s[0]] + s[1..];
    }
  }

  lemma {:induction false} PlainDecodes(s: string)
    requires '%' !in s
    ensures DecodeComponent(s) == Some(s)
  {
    if s != "" {
      PlainDecodes(s[1..]);
      assert s == [s[0]] + s[1..];
    }
  }

  // ----- what is encoded and what decodes -----

  predicate HexText(c: char) {
    c in "0123456789ABCDEFabcdef"
  }

  lemma HexTextIs(c: char)
    ensures HexValue(c) < 16 <==> HexText(c)
  {
  }

  /** The escape of a byte, in upper case as section 2.1 of RFC 3986 prefers; the unreserved marks of old stay. */
  lemma EscapeIs(c: char)
    requires IsByte(c)
    ensures EncodeByte(c) ==
            if 'A' <= c <= 'Z' || 'a' <= c <= 'z' || '0' <= c <= '9' || c in "-_.!~*'()" then [c]
            else ['%', "0123456789ABCDEF"[c as int / 16], "0123456789ABCDEF"[c as int % 16]]
  {
  }

  /** A percent sign with two hexadecimal digits after it. */
  predicate EscapeAt(t: string, i: int) {
    0 <= i && i + 2 < |t| && HexText(t[i + 1]) && HexText(t[i + 2])
  }

  /** Every percent sign starts an escape. */
  predicate AllEscapes(t: string) {
    forall i :: 0 <= i < |t| && t[i] == '%' ==> EscapeAt(t, i)
  }

  lemma EscapesAfter(t: string, n: nat)
    requires n <= |t| && forall i :: 0 <= i < n ==> t[i] != '%' || EscapeAt(t, i)
    ensures AllEscapes(t) <==> AllEscapes(t[n..])
  {
    var rest := t[n..];
    forall j | 0 <= j < |rest|
      ensures rest[j] == t[j + n] && (EscapeAt(rest, j) <==> EscapeAt(t, j + n))
    {
    }
    if AllEscapes(rest) {
      forall i | 0 <= i < |t| && t[i] == '%'
        ensures EscapeAt(t, i)
      {
        if i >= n {
          assert rest[i - n] == t[i];
        }
      }
    }
  }

  lemma HexNoPercent(c: char)
    requires HexText(c)
    ensures c != '%'
  {
  }

  lemma DecodesFirst(t: string)
    requires t != ""
    ensures t[0] != '%' ==> (DecodeComponent(t).Some? <==> DecodeComponent(t[1..]).Some?)
    ensures t[0] == '%' && EscapeAt(t, 0) ==> (DecodeComponent(t).Some? <==> DecodeComponent(t[3..]).Some?)
    ensures t[0] == '%' && !EscapeAt(t, 0) ==> DecodeComponent(t) == None
  {
    if |t| >= 3 {
      HexTextIs(t[1]);
      HexTextIs(t[2]);
    }
  }

  lemma EscapesFirst(t: string)
    requires t != ""
    ensures t[0] != '%' ==> (AllEscapes(t) <==> AllEscapes(t[1..]))
    ensures t[0] == '%' && EscapeAt(t, 0) ==> (AllEscapes(t) <==> AllEscapes(t[3..]))
    ensures t[0] == '%' && !EscapeAt(t, 0) ==> !AllEscapes(t)
  {
    if t[0] != '%' {
      EscapesAfter(t, 1);
    } else if EscapeAt(t, 0) {
      HexNoPercent(t[1]);
      HexNoPercent(t[2]);
      EscapesAfter(t, 3);
    }
  }

  /** Decoding succeeds exactly when every percent sign starts an escape. */
  lemma {:induction false} DecodesExactly(t: string)
    ensures DecodeComponent(t).Some? <==> AllEscapes(t)
  {
    if t != "" {
      DecodesFirst(t);
      EscapesFirst(t);
      if t[0] != '%' {
        DecodesExactly(t[1..]);
      } else if EscapeAt(t, 0) {
        DecodesExactly(t[3..]);
      }
    }
  }

  /** `n.toString(16)` */
  function Hex(n: int): string
    requires 0 <= n < 256
  {
    if n < 16 then [LowerHexDigit(n)] else [LowerHexDigit(n / 16), LowerHexDigit(n % 16)]
  }

  function LowerHexDigit(n: int): char
    requires 0 <= n < 16
  {
    if n < 10 then (n + 48) as char else (n + 87) as char
  }

  /** `'%' + ('00' + hex).slice(-2)` for every byte, as in `decodeB64`. */
  function EscapeAll(s: string): string
    requires Bytes(s)
  {
    if s == "" then ""
    else
      var padded := "00" + Hex(s[0] as int);
      "%" + padded[|padded| - 2..] + EscapeAll(s[1..])
  }

  lemma EscapedByte(c: char)
    requires IsByte(c)
    ensures var padded := "00" + Hex(c as int);
            padded[|padded| - 2..] == [LowerHexDigit(c as int / 16), LowerHexDigit(c as int % 16)]
    ensures HexValue(LowerHexDigit(c as int / 16)) == c as int / 16
    ensures HexValue(LowerHexDigit(c as int % 16)) == c as int % 16
  {
  }

  /** Escaping every byte and decoding the escapes is the identity. */
  lemma {:induction false} EscapeAllRoundTrip(s: string)
    requires Bytes(s)
    ensures DecodeComponent(EscapeAll(s)) == Some(s)
  {
    if s != "" {
      EscapeAllRoundTrip(s[1..]);
      EscapedByte(s[0]);
      var hi, lo := LowerHexDigit(s[0] as int / 16), LowerHexDigit(s[0] as int % 16);
      assert EscapeAll(s) == ['%', hi, lo] + EscapeAll(s[1..]);
      assert (['%', hi, lo] + EscapeAll(s[1..]))[3..] == EscapeAll(s[1..]);
      assert s == [s[0]] + s[1..];
    }
  }
}
