/**
 * Base64url as section 5 of RFC 4648 describes it, bit by bit and by its table of characters, and the proof that the
 * encoder of src/utils.ts produces it.
 */
module Base64Table {
  import opened Wrappers
  import opened Percent
  import Base64Url

  /** The table of section 5: the character for each value. */
  function TableChar(v: int): char
    requires 0 <= v < 64
  {
    if v < 13 then "ABCDEFGHIJKLM"[v]
    else if v < 26 then "NOPQRSTUVWXYZ"[v - 13]
    else if v < 39 then "abcdefghijklm"[v - 26]
    else if v < 52 then "nopqrstuvwxyz"[v - 39]
    else "0123456789-_"[v - 52]
  }

  /** Bit `k` of a number below 256, the lowest being bit 0. */
  function Bit(v: int, k: int): int
    requires 0 <= k < 8
  {
    if k == 0 then v % 2 else if k == 1 then v / 2 % 2 else if k == 2 then v / 4 % 2 else if k == 3 then v / 8 % 2
    else if k == 4 then v / 16 % 2 else if k == 5 then v / 32 % 2 else if k == 6 then v / 64 % 2 else v / 128 % 2
  }

  /** Bit `i` of a byte sequence, from the highest bit of the first byte on. */
  function ByteBit(bytes: string, i: nat): int
    requires i < 8 * |bytes|
  {
    Bit(bytes[i / 8] as int, 7 - i % 8)
  }

  /** Bit `i` of a sequence of six-bit values, likewise. */
  function SextetBit(values: seq<int>, i: nat): int
    requires i < 6 * |values|
  {
    Bit(values[i / 6], 5 - i % 6)
  }

  /** `values` are the bits of `bytes` in groups of six, with zero bits after the last. */
  predicate Grouped(values: seq<int>, bytes: string) {
    forall i :: 0 <= i < 6 * |values| ==>
      SextetBit(values, i) == if i < 8 * |bytes| then ByteBit(bytes, i) else 0
  }

  /** `text` writes these values with the characters of the table. */
  predicate Written(text: string, values: seq<int>) {
    |text| == |values| && forall j :: 0 <= j < |values| ==> 0 <= values[j] < 64 && text[j] == TableChar(values[j])
  }

  // ----- bits -----

  lemma Halves(v: int)
    requires 0 <= v < 256
    ensures v / 4 == v / 2 / 2 && v / 8 == v / 4 / 2 && v / 16 == v / 8 / 2
  {
  }

  lemma MoreHalves(v: int)
    requires 0 <= v < 256
    ensures v / 32 == v / 16 / 2 && v / 64 == v / 32 / 2 && v / 128 == v / 64 / 2 && v / 128 == v / 128 % 2
  {
  }

  lemma HalfAndRest(x: int)
    ensures x == 2 * (x / 2) + x % 2
  {
  }

  /** A number below 256 is the sum of its bits. */
  lemma SumOfBits(v: int)
    requires 0 <= v < 256
    ensures forall k :: 0 <= k < 8 ==> IsBit(Bit(v, k))
    ensures v == 128 * Bit(v, 7) + 64 * Bit(v, 6) + 32 * Bit(v, 5) + 16 * Bit(v, 4) +
                 8 * Bit(v, 3) + 4 * Bit(v, 2) + 2 * Bit(v, 1) + Bit(v, 0)
  {
    Halves(v);
    MoreHalves(v);
    HalfAndRest(v);
    HalfAndRest(v / 2);
    HalfAndRest(v / 4);
    HalfAndRest(v / 8);
    HalfAndRest(v / 16);
    HalfAndRest(v / 32);
    HalfAndRest(v / 64);
    assert Bit(v, 0) == v % 2 && Bit(v, 1) == v / 2 % 2 && Bit(v, 2) == v / 4 % 2 && Bit(v, 3) == v / 8 % 2;
    assert Bit(v, 4) == v / 16 % 2 && Bit(v, 5) == v / 32 % 2 && Bit(v, 6) == v / 64 % 2 && Bit(v, 7) == v / 128 % 2;
  }

  predicate IsBit(b: int) {
    b == 0 || b == 1
  }

  /** A sum of six bits has those bits. */
  lemma BitsOfSum(p: int, q: int, r: int, s: int, t: int, u: int)
    requires IsBit(p) && IsBit(q) && IsBit(r) && IsBit(s) && IsBit(t) && IsBit(u)
    ensures var v := 32 * p + 16 * q + 8 * r + 4 * s + 2 * t + u;
            && Bit(v, 5) == p && Bit(v, 4) == q && Bit(v, 3) == r && Bit(v, 2) == s && Bit(v, 1) == t && Bit(v, 0) == u
  {
  }

  /** `v` has these six bits, the highest first. */
  predicate SixBits(v: int, p: int, q: int, r: int, s: int, t: int, u: int) {
    Bit(v, 5) == p && Bit(v, 4) == q && Bit(v, 3) == r && Bit(v, 2) == s && Bit(v, 1) == t && Bit(v, 0) == u
  }

  lemma HighBits(a: char)
    requires IsByte(a)
    ensures var x := a as int;
            SixBits(Base64Url.High(a), Bit(x, 7), Bit(x, 6), Bit(x, 5), Bit(x, 4), Bit(x, 3), Bit(x, 2))
  {
    var x := a as int;
    SumOfBits(x);
    BitsOfSum(Bit(x, 7), Bit(x, 6), Bit(x, 5), Bit(x, 4), Bit(x, 3), Bit(x, 2));
    assert Base64Url.High(a) ==
           32 * Bit(x, 7) + 16 * Bit(x, 6) + 8 * Bit(x, 5) + 4 * Bit(x, 4) + 2 * Bit(x, 3) + Bit(x, 2);
  }

  lemma Remainders(h: int, l: int)
    ensures 0 <= l < 4 ==> (4 * h + l) % 4 == l
    ensures 0 <= l < 16 ==> (16 * h + l) % 16 == l
    ensures 0 <= l < 64 ==> (64 * h + l) % 64 == l
  {
  }

  lemma LowTwo(x: int)
    requires 0 <= x < 256
    ensures x % 4 == 2 * Bit(x, 1) + Bit(x, 0)
  {
    SumOfBits(x);
    Remainders(32 * Bit(x, 7) + 16 * Bit(x, 6) + 8 * Bit(x, 5) + 4 * Bit(x, 4) + 2 * Bit(x, 3) + Bit(x, 2),
      2 * Bit(x, 1) + Bit(x, 0));
  }

  lemma LowFour(x: int)
    requires 0 <= x < 256
    ensures x % 16 == 8 * Bit(x, 3) + 4 * Bit(x, 2) + 2 * Bit(x, 1) + Bit(x, 0)
  {
    SumOfBits(x);
    Remainders(8 * Bit(x, 7) + 4 * Bit(x, 6) + 2 * Bit(x, 5) + Bit(x, 4),
      8 * Bit(x, 3) + 4 * Bit(x, 2) + 2 * Bit(x, 1) + Bit(x, 0));
  }

  lemma LowSix(x: int)
    requires 0 <= x < 256
    ensures x % 64 == 32 * Bit(x, 5) + 16 * Bit(x, 4) + 8 * Bit(x, 3) + 4 * Bit(x, 2) + 2 * Bit(x, 1) + Bit(x, 0)
  {
    SumOfBits(x);
    Remainders(2 * Bit(x, 7) + Bit(x, 6),
      32 * Bit(x, 5) + 16 * Bit(x, 4) + 8 * Bit(x, 3) + 4 * Bit(x, 2) + 2 * Bit(x, 1) + Bit(x, 0));
  }

  lemma HighFour(y: int)
    requires 0 <= y < 256
    ensures y / 16 == 8 * Bit(y, 7) + 4 * Bit(y, 6) + 2 * Bit(y, 5) + Bit(y, 4)
  {
    SumOfBits(y);
  }

  lemma HighTwo(y: int)
    requires 0 <= y < 256
    ensures y / 64 == 2 * Bit(y, 7) + Bit(y, 6)
  {
    SumOfBits(y);
  }

  lemma AreBits(x: int)
    requires 0 <= x < 256
    ensures forall k :: 0 <= k < 8 ==> IsBit(Bit(x, k))
  {
    SumOfBits(x);
  }

  /** A number that is a sum of six bits has those bits. */
  lemma SixBitsOf(v: int, p: int, q: int, r: int, s: int, t: int, u: int)
    requires IsBit(p) && IsBit(q) && IsBit(r) && IsBit(s) && IsBit(t) && IsBit(u)
    requires v == 32 * p + 16 * q + 8 * r + 4 * s + 2 * t + u
    ensures SixBits(v, p, q, r, s, t, u)
  {
    BitsOfSum(p, q, r, s, t, u);
  }

  lemma MiddleBits(a: char, b: char)
    requires IsByte(a) && IsByte(b)
    ensures var x, y := a as int, b as int;
            SixBits(Base64Url.Middle(a, b), Bit(x, 1), Bit(x, 0), Bit(y, 7), Bit(y, 6), Bit(y, 5), Bit(y, 4))
  {
    var x, y := a as int, b as int;
    AreBits(x);
    AreBits(y);
    LowTwo(x);
    HighFour(y);
    SixBitsOf(x % 4 * 16 + y / 16, Bit(x, 1), Bit(x, 0), Bit(y, 7), Bit(y, 6), Bit(y, 5), Bit(y, 4));
  }

  lemma LowerBits(b: char, c: char)
    requires IsByte(b) && IsByte(c)
    ensures var x, y := b as int, c as int;
            SixBits(Base64Url.Lower(b, c), Bit(x, 3), Bit(x, 2), Bit(x, 1), Bit(x, 0), Bit(y, 7), Bit(y, 6))
  {
    var x, y := b as int, c as int;
    AreBits(x);
    AreBits(y);
    LowFour(x);
    HighTwo(y);
    SixBitsOf(x % 16 * 4 + y / 64, Bit(x, 3), Bit(x, 2), Bit(x, 1), Bit(x, 0), Bit(y, 7), Bit(y, 6));
  }

  lemma LowBits(c: char)
    requires IsByte(c)
    ensures var x := c as int;
            SixBits(Base64Url.Low(c), Bit(x, 5), Bit(x, 4), Bit(x, 3), Bit(x, 2), Bit(x, 1), Bit(x, 0))
  {
    var x := c as int;
    AreBits(x);
    LowSix(x);
    SixBitsOf(x % 64, Bit(x, 5), Bit(x, 4), Bit(x, 3), Bit(x, 2), Bit(x, 1), Bit(x, 0));
  }

  /** The first four values of three bytes. */
  lemma GroupBits(a: char, b: char, c: char, i: nat)
    requires IsByte(a) && IsByte(b) && IsByte(c) && i < 24
    ensures var values: seq<int> :=
              [Base64Url.High(a), Base64Url.Middle(a, b), Base64Url.Lower(b, c), Base64Url.Low(c)];
            SextetBit(values, i) == ByteBit([a, b, c], i)
  {
    if i < 6 {
      HighBits(a);
    } else if i < 12 {
      MiddleBits(a, b);
    } else if i < 18 {
      LowerBits(b, c);
    } else {
      LowBits(c);
    }
  }

  lemma RemainderBits(s: string, i: nat)
    requires Bytes(s) && |s| < 3 && i < 6 * |Base64Url.Sextets(s)|
    ensures SextetBit(Base64Url.Sextets(s), i) == if i < 8 * |s| then ByteBit(s, i) else 0
  {
    var zero := 0 as char;
    if |s| == 1 {
      GroupBits(s[0], zero, zero, i);
    } else {
      GroupBits(s[0], s[1], zero, i);
    }
    assert Bit(0, 7 - i % 8) == 0;
  }

  lemma Later(i: int)
    requires i >= 24
    ensures i / 6 == (i - 24) / 6 + 4 && i % 6 == (i - 24) % 6
    ensures i / 8 == (i - 24) / 8 + 3 && i % 8 == (i - 24) % 8
  {
  }

  /** Past the first group the bits are those of what follows it. */
  lemma LaterBits(head: seq<int>, tail: seq<int>, s: string, i: nat)
    requires |head| == 4 && 24 <= i < 6 * (4 + |tail|) && |s| >= 3
    ensures SextetBit(head + tail, i) == SextetBit(tail, i - 24)
    ensures i < 8 * |s| ==> ByteBit(s, i) == ByteBit(s[3..], i - 24)
  {
    Later(i);
    assert (head + tail)[i / 6] == tail[i / 6 - 4];
  }

  /** The values of the first three bytes. */
  function FirstFour(s: string): seq<int>
    requires Bytes(s) && |s| >= 3
  {
    [Base64Url.High(s[0]), Base64Url.Middle(s[0], s[1]), Base64Url.Lower(s[1], s[2]), Base64Url.Low(s[2])]
  }

  lemma FirstBits(s: string, i: nat)
    requires Bytes(s) && |s| >= 3 && i < 24
    ensures SextetBit(Base64Url.Sextets(s), i) == ByteBit(s, i)
  {
    GroupBits(s[0], s[1], s[2], i);
    SameBits(Base64Url.Sextets(s), FirstFour(s), i);
    assert [s[0], s[1], s[2]][i / 8] == s[i / 8];
  }

  lemma SameBits(values: seq<int>, head: seq<int>, i: nat)
    requires i < 6 * |head| && head <= values
    ensures SextetBit(values, i) == SextetBit(head, i)
  {
    assert values[i / 6] == head[i / 6];
  }

  lemma {:induction false} SextetBits(s: string, i: nat)
    requires Bytes(s) && i < 6 * |Base64Url.Sextets(s)|
    ensures SextetBit(Base64Url.Sextets(s), i) == if i < 8 * |s| then ByteBit(s, i) else 0
    decreases |s|
  {
    if |s| < 3 {
      RemainderBits(s, i);
    } else if i < 24 {
      FirstBits(s, i);
    } else {
      var head: seq<int> := FirstFour(s);
      SextetBits(s[3..], i - 24);
      assert Base64Url.Sextets(s) == head + Base64Url.Sextets(s[3..]);
      LaterBits(head, Base64Url.Sextets(s[3..]), s, i);
    }
  }

  // ----- characters -----

  /** The replacement that the encoder makes for one digit. */
  function Replaced(c: char): char {
    if c == '+' then '-' else if c == '/' then '_' else c
  }

  lemma {:induction false} ReplacedAt(s: string, j: nat)
    requires Base64Url.AllDigits(s) && j < |s|
    ensures |Base64Url.UrlEncodeB64(s)| == |s| && Base64Url.UrlEncodeB64(s)[j] == Replaced(s[j])
  {
    Base64Url.ReplacementInvertible(s);
    assert s[0] != '=' && Base64Url.UrlEncodeB64(s) == [Replaced(s[0])] + Base64Url.UrlEncodeB64(s[1..]);
    if j > 0 {
      ReplacedAt(s[1..], j - 1);
    }
  }

  lemma TableEntry(v: int)
    requires 0 <= v < 64
    ensures Replaced(Base64Url.Digit(v)) == TableChar(v)
  {
  }

  /** No character stands for two values. */
  lemma TableDistinct(v: int, w: int)
    requires 0 <= v < w < 64
    ensures TableChar(v) != TableChar(w)
  {
    TableEntry(v);
    TableEntry(w);
  }

  // ----- the encoder -----

  /** The encoder writes, with the table, the bits of the bytes in groups of six and zero bits after the last. */
  lemma EncodeFollowsTable(bytes: string) returns (values: seq<int>)
    requires Bytes(bytes)
    ensures Written(Base64Url.Encode(bytes), values) && Grouped(values, bytes)
    ensures |values| == (4 * |bytes| + 2) / 3
  {
    var sextets := Base64Url.Sextets(bytes);
    var digits := Base64Url.Digits(sextets);
    values := sextets;
    Base64Url.EncodeIsUnpadded(bytes);
    Base64Url.DigitsValues(sextets);
    Base64Url.ReplacementInvertible(digits);
    forall j | 0 <= j < |values|
      ensures Base64Url.Encode(bytes)[j] == TableChar(values[j])
    {
      ReplacedAt(digits, j);
      TableEntry(values[j]);
    }
    forall i | 0 <= i < 6 * |values|
      ensures SextetBit(values, i) == if i < 8 * |bytes| then ByteBit(bytes, i) else 0
    {
      SextetBits(bytes, i);
    }
  }

  // ----- padded base64 -----

  lemma {:induction false} SpacesDroppedApart(a: string, b: string)
    ensures Base64Url.DropSpaces(a + b) == Base64Url.DropSpaces(a) + Base64Url.DropSpaces(b)
  {
    if a == "" {
      assert a + b == b;
    } else {
      assert (a + b)[1..] == a[1..] + b;
      SpacesDroppedApart(a[1..], b);
    }
  }

  lemma LoneBlank(c: char)
    requires c in "\t\n\r " || c as int == 12
    ensures Base64Url.DropSpaces([c]) == ""
  {
    assert [c][1..] == "" && Base64Url.IsBlank(c);
  }

  /** `atob` does not see blanks, wherever they stand. */
  lemma AtobIgnoresBlanks(a: string, c: char, b: string)
    requires c in "\t\n\r " || c as int == 12
    ensures Base64Url.Atob(a + [c] + b) == Base64Url.Atob(a + b)
  {
    SpacesDroppedApart(a + [c], b);
    SpacesDroppedApart(a, [c]);
    SpacesDroppedApart(a, b);
    LoneBlank(c);
    assert Base64Url.DropSpaces(a) + "" == Base64Url.DropSpaces(a);
  }

  /** `btoa` pads to a multiple of four characters, and `atob` inverts it. */
  lemma PaddedRoundTrip(bytes: string)
    requires Bytes(bytes)
    ensures |Base64Url.Btoa(bytes)| % 4 == 0
    ensures Base64Url.Atob(Base64Url.Btoa(bytes)) == Some(bytes)
  {
    var sextets := Base64Url.Sextets(bytes);
    BtoaLength(bytes);
    Base64Url.BitsRoundTrip(bytes);
    Base64Url.NeverOneDigitOver(bytes);
    Base64Url.DigitsDecode(sextets);
    Base64Url.DigitsValues(sextets);
    PaddingUnseen(Base64Url.Digits(sextets), |bytes|);
  }

  lemma PaddingUnseen(digits: string, n: nat)
    requires Base64Url.AllDigits(digits) && |digits| == (4 * n + 2) / 3
    ensures Base64Url.Atob(digits + Base64Url.Padding(n)) == Base64Url.Atob(digits)
  {
    NoBlanks(digits, Base64Url.Padding(n));
    NoBlanks(digits, "");
    assert digits + "" == digits;
    PaddingDropped(digits, n);
    Base64Url.NoPaddingDropped(digits);
  }

  lemma PaddedLength(n: nat)
    ensures ((4 * n + 2) / 3 + |Base64Url.Padding(n)|) % 4 == 0
  {
    var q := n / 3;
    if n % 3 == 0 {
      assert (4 * n + 2) / 3 == 4 * q;
    } else if n % 3 == 1 {
      assert (4 * n + 2) / 3 == 4 * q + 2;
    } else {
      assert (4 * n + 2) / 3 == 4 * q + 3;
    }
  }

  lemma BtoaLength(bytes: string)
    requires Bytes(bytes)
    ensures |Base64Url.Btoa(bytes)| % 4 == 0
  {
    PaddedLength(|bytes|);
  }

  lemma NoBlanks(digits: string, padding: string)
    requires Base64Url.AllDigits(digits) && (padding == "" || padding == "=" || padding == "==")
    ensures Base64Url.DropSpaces(digits + padding) == digits + padding
  {
    forall i | 0 <= i < |digits + padding|
      ensures !Base64Url.IsBlank((digits + padding)[i])
    {
      if i < |digits| {
        Base64Url.DigitNotBlank(digits[i]);
      }
    }
    Base64Url.NoSpacesDropped(digits + padding);
  }

  lemma PaddingDropped(digits: string, n: nat)
    requires Base64Url.AllDigits(digits) && |digits| == (4 * n + 2) / 3
    ensures Base64Url.DropPadding(digits + Base64Url.Padding(n)) == digits
  {
    PaddedLength(n);
    if digits != "" {
      assert Base64Url.DigitValueOf(digits[|digits| - 1]) < 64;
    }
    if n == 0 {
      assert digits + "" == digits;
    }
  }

  /** Digits alone decode exactly when their number can be cut into whole bytes: one digit over is an error. */
  lemma DigitsDecodeExactly(t: string)
    requires Base64Url.AllDigits(t)
    ensures Base64Url.Atob(t).Some? <==> |t| % 4 != 1
  {
    NoBlanks(t, "");
    assert t + "" == t;
    Base64Url.NoPaddingDropped(t);
  }

  lemma SpacesKeep(a: string, c: char, b: string)
    requires !Base64Url.IsBlank(c)
    ensures Base64Url.DropSpaces(a + [c] + b) == Base64Url.DropSpaces(a) + [c] + Base64Url.DropSpaces(b)
  {
    SpacesDroppedApart(a + [c], b);
    SpacesDroppedApart(a, [c]);
    assert [c][1..] == "" && [c] + "" == [c];
  }

  /** Dropping padding drops nothing else. */
  lemma PaddingOnly(t: string, i: nat)
    requires i < |t| && t[i] != '='
    ensures i < |Base64Url.DropPadding(t)| && Base64Url.DropPadding(t)[i] == t[i]
  {
  }

  /** A character outside the alphabet, other than blanks and padding, makes `atob` throw. */
  lemma AtobRejects(a: string, c: char, b: string)
    requires (forall v :: 0 <= v < 64 ==> Base64Url.Digit(v) != c) && !Base64Url.IsBlank(c) && c != '='
    ensures Base64Url.Atob(a + [c] + b) == None
  {
    SpacesKeep(a, c, b);
    DigitBack(c);
    var i, t := |Base64Url.DropSpaces(a)|, Base64Url.DropSpaces(a + [c] + b);
    assert t[i] == c;
    PaddingOnly(t, i);
    assert !Base64Url.AllDigits(Base64Url.DropPadding(t));
  }

  lemma DigitBack(c: char)
    ensures Base64Url.DigitValueOf(c) < 64 ==> Base64Url.Digit(Base64Url.DigitValueOf(c)) == c
  {
  }
}
