/** src/scope.ts: `getUniqueScopes` and `dedupe`. */
module Scope {
  import opened Strings

  /** The characters that both `trim` and the regular expression `\s` treat as white space. */
  predicate IsSpace(c: char) {
    var n := c as int;
    9 <= n <= 13 || n == 0x20 || n == 0xA0 || n == 0x1680 || 0x2000 <= n <= 0x200A ||
    n == 0x2028 || n == 0x2029 || n == 0x202F || n == 0x205F || n == 0x3000 || n == 0xFEFF
  }

  predicate NoSpace(s: string) {
    forall c :: c in s ==> !IsSpace(c)
  }

  function TrimStart(s: string): (t: string)
    ensures |t| <= |s|
    ensures t != "" ==> !IsSpace(t[0])
  {
    if s != "" && IsSpace(s[0]) then TrimStart(s[1..]) else s
  }

  function TrimEnd(s: string): string {
    if s != "" && IsSpace(s[|s| - 1]) then TrimEnd(s[..|s| - 1]) else s
  }

  function Trim(s: string): string {
    TrimEnd(TrimStart(s))
  }

  /** Length of the leading run of characters that are not white space. */
  function Run(s: string): (n: nat)
    ensures n <= |s|
    ensures NoSpace(s[..n])
    ensures n < |s| ==> IsSpace(s[n])
  {
    if s == "" || IsSpace(s[0]) then 0 else 1 + Run(s[1..])
  }

  /** `s.split(/\s+/)`: cut at maximal runs of white space, keeping empty outer pieces. */
  function SplitSpaces(s: string): seq<string>
    decreases |s|
  {
    var n := Run(s);
    if n == |s| then [s] else [s[..n]] + SplitSpaces(TrimStart(s[n + 1..]))
  }

  /** `Array.from(new Set(xs))`: insertion order, later duplicates dropped. */
  function Dedupe<T(==)>(xs: seq<T>): (d: seq<T>)
    ensures forall i :: 0 <= i < |d| ==> d[i] in xs
  {
    if xs == [] then []
    else
      var rest, x := Dedupe(xs[..|xs| - 1]), xs[|xs| - 1];
      if x in rest then rest else rest + [x]
  }

  /** `getUniqueScopes(...scopes)`; an undefined argument joins as the empty string. */
  function UniqueScopes(scopes: seq<string>): string {
    Join(Dedupe(SplitSpaces(Trim(Join(scopes, " ")))), " ")
  }

  // ----- What a scope string means: its list of tokens -----

  function Words(s: string): seq<string>
    decreases |s|
  {
    var t := TrimStart(s);
    if t == "" then [] else [t[..Run(t)]] + Words(t[Run(t)..])
  }

  function AllWords(scopes: seq<string>): seq<string> {
    if scopes == [] then [] else Words(scopes[0]) + AllWords(scopes[1..])
  }

  predicate Token(w: string) {
    w != "" && NoSpace(w)
  }

  ghost predicate Distinct<T(!new)>(xs: seq<T>) {
    forall i, j :: 0 <= i < j < |xs| ==> xs[i] != xs[j]
  }

  // ----- Laws of Dedupe -----

  lemma DedupeSnoc<T>(xs: seq<T>, x: T)
    ensures Dedupe(xs + [x]) == if x in Dedupe(xs) then Dedupe(xs) else Dedupe(xs) + [x]
  {
    assert (xs + [x])[..|xs|] == xs;
  }

  lemma {:induction false} DedupeMembers<T>(xs: seq<T>)
    ensures forall x :: x in Dedupe(xs) <==> x in xs
  {
    if xs != [] {
      DedupeMembers(xs[..|xs| - 1]);
      assert xs == xs[..|xs| - 1] + [xs[|xs| - 1]];
    }
  }

  function FirstIndex<T(==)>(xs: seq<T>, x: T): (i: nat)
    ensures i <= |xs|
    ensures x in xs ==> i < |xs| && xs[i] == x
    ensures forall j :: 0 <= j < i ==> xs[j] != x
  {
    if xs == [] then 0 else if xs[0] == x then 0 else 1 + FirstIndex(xs[1..], x)
  }

  lemma FirstIndexSnoc<T>(xs: seq<T>, x: T, y: T)
    requires y in xs
    ensures FirstIndex(xs + [x], y) == FirstIndex(xs, y)
  {
    var i, j := FirstIndex(xs, y), FirstIndex(xs + [x], y);
    assert (xs + [x])[i] == y;
    assert forall k :: 0 <= k < i ==> (xs + [x])[k] == xs[k];
  }

  /** The result lists each element once, in the order of first occurrences. */
  lemma {:induction false} DedupeOrder<T>(xs: seq<T>)
    ensures forall i, j :: 0 <= i < j < |Dedupe(xs)| ==>
              FirstIndex(xs, Dedupe(xs)[i]) < FirstIndex(xs, Dedupe(xs)[j])
  {
    if xs != [] {
      var ys, x := xs[..|xs| - 1], xs[|xs| - 1];
      DedupeOrder(ys);
      DedupeMembers(ys);
      assert xs == ys + [x];
      forall y | y in ys
        ensures FirstIndex(xs, y) == FirstIndex(ys, y) < |ys|
      {
        FirstIndexSnoc(ys, x, y);
      }
      assert forall i :: 0 <= i < |Dedupe(ys)| ==> FirstIndex(xs, Dedupe(ys)[i]) == FirstIndex(ys, Dedupe(ys)[i]);
      if x !in Dedupe(ys) {
        assert FirstIndex(xs, x) == |ys|;
      }
    }
  }

  lemma DedupeDistinct<T(!new)>(xs: seq<T>)
    ensures Distinct(Dedupe(xs))
  {
    DedupeOrder(xs);
  }

  lemma {:induction false} DedupeFixed<T(!new)>(xs: seq<T>)
    requires Distinct(xs)
    ensures Dedupe(xs) == xs
  {
    if xs != [] {
      DedupeFixed(xs[..|xs| - 1]);
      assert xs == xs[..|xs| - 1] + [xs[|xs| - 1]];
    }
  }

  /** A prefix may be deduplicated first. */
  lemma {:induction false} DedupePrefix<T(!new)>(xs: seq<T>, ys: seq<T>)
    ensures Dedupe(Dedupe(xs) + ys) == Dedupe(xs + ys)
    decreases |ys|
  {
    if ys == [] {
      DedupeDistinct(xs);
      DedupeFixed(Dedupe(xs));
      assert xs + ys == xs && Dedupe(xs) + ys == Dedupe(xs);
    } else {
      var zs, y := ys[..|ys| - 1], ys[|ys| - 1];
      DedupePrefix(xs, zs);
      assert xs + ys == (xs + zs) + [y] && Dedupe(xs) + ys == (Dedupe(xs) + zs) + [y];
      DedupeSnoc(xs + zs, y);
      DedupeSnoc(Dedupe(xs) + zs, y);
    }
  }

  /** Elements seen already change nothing. */
  lemma {:induction false} DedupeSeen<T>(xs: seq<T>, ys: seq<T>)
    requires forall y :: y in ys ==> y in xs
    ensures Dedupe(xs + ys) == Dedupe(xs)
    decreases |ys|
  {
    if ys == [] {
      assert xs + ys == xs;
    } else {
      var zs, y := ys[..|ys| - 1], ys[|ys| - 1];
      assert ys == zs + [y];
      DedupeSeen(xs, zs);
      assert xs + ys == (xs + zs) + [y];
      DedupeSnoc(xs + zs, y);
      DedupeMembers(xs + zs);
    }
  }

  lemma DedupeSuffixSeen<T>(xs: seq<T>, zs: seq<T>, y: T)
    requires y in zs
    ensures Dedupe(xs + (zs + [y])) == Dedupe(xs + zs)
  {
    assert xs + (zs + [y]) == (xs + zs) + [y];
    DedupeSnoc(xs + zs, y);
    DedupeMembers(xs + zs);
  }

  lemma DedupeSuffixNew<T>(xs: seq<T>, zs: seq<T>, dz: seq<T>, y: T)
    requires Dedupe(xs + dz) == Dedupe(xs + zs)
    ensures Dedupe(xs + (dz + [y])) == Dedupe(xs + (zs + [y]))
  {
    assert xs + (zs + [y]) == (xs + zs) + [y] && xs + (dz + [y]) == (xs + dz) + [y];
    DedupeSnoc(xs + zs, y);
    DedupeSnoc(xs + dz, y);
  }

  lemma {:induction false} DedupeSuffix<T(!new)>(xs: seq<T>, ys: seq<T>)
    ensures Dedupe(xs + Dedupe(ys)) == Dedupe(xs + ys)
    decreases |ys|
  {
    if ys != [] {
      var zs, y := ys[..|ys| - 1], ys[|ys| - 1];
      DedupeSuffix(xs, zs);
      DedupeMembers(zs);
      assert ys == zs + [y];
      if y in zs {
        DedupeSuffixSeen(xs, zs, y);
      } else {
        DedupeSuffixNew(xs, zs, Dedupe(zs), y);
      }
    }
  }

  /** Any stretch of the list may be deduplicated first. */
  lemma DedupeMiddle<T(!new)>(xs: seq<T>, ys: seq<T>, zs: seq<T>)
    ensures Dedupe(xs + Dedupe(ys) + zs) == Dedupe(xs + ys + zs)
  {
    DedupePrefix(xs + Dedupe(ys), zs);
    DedupeSuffix(xs, ys);
    DedupePrefix(xs + ys, zs);
  }

  /** A stretch whose elements all occur earlier may be left out. */
  lemma DedupeRepeat<T(!new)>(xs: seq<T>, ys: seq<T>, zs: seq<T>)
    requires forall y :: y in ys ==> y in xs
    ensures Dedupe(xs + ys + zs) == Dedupe(xs + zs)
  {
    DedupePrefix(xs + ys, zs);
    DedupeSeen(xs, ys);
    DedupePrefix(xs, zs);
  }

  lemma DedupeLead<T(!new)>(p: seq<T>, q: seq<T>, r: seq<T>, s: seq<T>)
    ensures Dedupe(Dedupe(p + q) + r + s) == Dedupe(p + q + r + s)
  {
    DedupePrefix(p + q, r + s);
    assert Dedupe(p + q) + (r + s) == Dedupe(p + q) + r + s && p + q + (r + s) == p + q + r + s;
  }

  lemma DedupeInner<T(!new)>(p: seq<T>, q: seq<T>, r: seq<T>, s: seq<T>, t: seq<T>)
    ensures Dedupe(p + q + Dedupe(r + s) + t) == Dedupe(p + q + r + s + t)
  {
    DedupeMiddle(p + q, r + s, t);
    assert p + q + (r + s) + t == p + q + r + s + t;
  }

  // ----- Laws of Words -----

  lemma {:induction false} TrimStartAppend(a: string, b: string)
    ensures TrimStart(a) == "" ==> TrimStart(a + b) == TrimStart(b)
    ensures TrimStart(a) != "" ==> TrimStart(a + b) == TrimStart(a) + b
  {
    if a == "" {
      assert a + b == b;
    } else if IsSpace(a[0]) {
      assert (a + b)[1..] == a[1..] + b;
      TrimStartAppend(a[1..], b);
    }
  }

  lemma {:induction false} RunAppend(a: string, c: char, b: string)
    requires IsSpace(c)
    ensures Run(a + [c] + b) == Run(a)
  {
    if a != "" && !IsSpace(a[0]) {
      assert (a + [c] + b)[1..] == a[1..] + [c] + b;
      RunAppend(a[1..], c, b);
    }
  }

  lemma {:induction false} TrimStartIdempotent(s: string)
    ensures TrimStart(TrimStart(s)) == TrimStart(s)
  {
  }

  lemma WordsTrim(s: string)
    ensures Words(s) == Words(TrimStart(s))
  {
    TrimStartIdempotent(s);
  }

  lemma WordsHead(t: string)
    requires t != "" && !IsSpace(t[0])
    ensures Words(t) == [t[..Run(t)]] + Words(t[Run(t)..])
  {
    assert TrimStart(t) == t;
  }

  lemma TrimStartJoined(a: string, c: char, b: string)
    requires IsSpace(c)
    ensures TrimStart(a + [c] + b) == if TrimStart(a) == "" then TrimStart(b) else TrimStart(a) + [c] + b
  {
    var rest := [c] + b;
    assert rest[1..] == b;
    assert a + [c] + b == a + rest && TrimStart(a) + [c] + b == TrimStart(a) + rest;
    TrimStartAppend(a, rest);
  }

  lemma WordsAppendBlank(a: string, c: char, b: string)
    requires IsSpace(c) && TrimStart(a) == ""
    ensures Words(a) == [] && Words(a + [c] + b) == Words(b)
  {
    TrimStartJoined(a, c, b);
    WordsTrim(a + [c] + b);
    WordsTrim(b);
  }

  /** The first token of a text that has one, and what follows it. */
  function Cut(a: string): (r: (string, string))
    requires TrimStart(a) != ""
    ensures |r.1| < |a|
  {
    var t := TrimStart(a);
    (t[..Run(t)], t[Run(t)..])
  }

  lemma WordsAppendToken(a: string, c: char, b: string)
    requires IsSpace(c) && TrimStart(a) != ""
    ensures Words(a) == [Cut(a).0] + Words(Cut(a).1)
    ensures Words(a + [c] + b) == [Cut(a).0] + Words(Cut(a).1 + [c] + b)
  {
    TrimStartJoined(a, c, b);
    WordsTrim(a + [c] + b);
    var t := TrimStart(a);
    var n, u := Run(t), t + [c] + b;
    RunAppend(t, c, b);
    WordsHead(u);
    assert u[..n] == t[..n] && u[n..] == t[n..] + [c] + b;
  }

  lemma WordsAppendRest(a: string, c: char, b: string, rest: seq<string>, more: seq<string>)
    requires IsSpace(c) && TrimStart(a) != ""
    requires Words(Cut(a).1) == rest && Words(Cut(a).1 + [c] + b) == rest + more
    ensures Words(a + [c] + b) == Words(a) + more
  {
    WordsAppendToken(a, c, b);
    assert [Cut(a).0] + (rest + more) == ([Cut(a).0] + rest) + more;
  }

  /** White space separates: the tokens of two texts joined by it are the tokens of each. */
  lemma {:induction false} WordsAppend(a: string, c: char, b: string)
    requires IsSpace(c)
    ensures Words(a + [c] + b) == Words(a) + Words(b)
    decreases |a|
  {
    if TrimStart(a) == "" {
      WordsAppendBlank(a, c, b);
    } else {
      WordsAppend(Cut(a).1, c, b);
      WordsAppendRest(a, c, b, Words(Cut(a).1), Words(b));
    }
  }

  lemma {:induction false} RunToken(w: string)
    requires NoSpace(w)
    ensures Run(w) == |w|
  {
  }

  lemma WordsToken(w: string)
    requires Token(w)
    ensures Words(w) == [w]
  {
    RunToken(w);
    assert w[0] in w && TrimStart(w) == w;
    assert w[..|w|] == w && w[|w|..] == "";
  }

  lemma {:induction false} WordsAreTokens(s: string)
    ensures forall w :: w in Words(s) ==> Token(w)
    decreases |s|
  {
    var t := TrimStart(s);
    if t != "" {
      WordsAreTokens(t[Run(t)..]);
    }
  }

  lemma {:induction false} WordsJoin(ws: seq<string>)
    requires forall w :: w in ws ==> Token(w)
    ensures Words(Join(ws, " ")) == ws
  {
    if |ws| == 1 {
      WordsToken(ws[0]);
    } else if |ws| > 1 {
      WordsToken(ws[0]);
      WordsJoin(ws[1..]);
      WordsAppend(ws[0], ' ', Join(ws[1..], " "));
    }
  }

  lemma {:induction false} WordsJoinAll(scopes: seq<string>)
    ensures Words(Join(scopes, " ")) == AllWords(scopes)
  {
    if |scopes| == 1 {
      assert scopes[1..] == [];
    } else if |scopes| > 1 {
      WordsJoinAll(scopes[1..]);
      WordsAppend(scopes[0], ' ', Join(scopes[1..], " "));
    }
  }

  // ----- trim and split(/\s+/) compute the tokens -----

  predicate Trimmed(s: string) {
    s != "" ==> !IsSpace(s[0]) && !IsSpace(s[|s| - 1])
  }

  lemma {:induction false} TrimEndKeepsWords(s: string)
    ensures Words(TrimEnd(s)) == Words(s)
    ensures s != "" && !IsSpace(s[0]) ==> Trimmed(TrimEnd(s)) && TrimEnd(s) != ""
    ensures s == "" ==> TrimEnd(s) == ""
  {
    if s != "" && IsSpace(s[|s| - 1]) {
      var r := s[..|s| - 1];
      TrimEndKeepsWords(r);
      assert s == r + [s[|s| - 1]] + "";
      WordsAppend(r, s[|s| - 1], "");
      assert Words(r) + Words("") == Words(r);
    }
  }

  lemma TrimKeepsWords(s: string)
    ensures Words(Trim(s)) == Words(s)
    ensures Trimmed(Trim(s))
    ensures Words(s) == [] <==> Trim(s) == ""
  {
    var t := TrimStart(s);
    TrimStartIdempotent(s);
    assert Words(t) == Words(s);
    TrimEndKeepsWords(t);
  }

  lemma {:induction false} TrimStartEnd(s: string)
    requires s != "" && !IsSpace(s[|s| - 1])
    ensures TrimStart(s) != "" && TrimStart(s)[|TrimStart(s)| - 1] == s[|s| - 1]
  {
    if IsSpace(s[0]) {
      TrimStartEnd(s[1..]);
    }
  }

  /** On a trimmed, non-empty text the split yields exactly its tokens. */
  lemma {:induction false} SplitSpacesIsWords(s: string)
    requires Trimmed(s) && s != ""
    ensures SplitSpaces(s) == Words(s)
    decreases |s|
  {
    var n := Run(s);
    assert TrimStart(s) == s;
    if n == |s| {
      assert s[..n] == s && s[n..] == "";
    } else {
      var rest := s[n + 1..];
      assert rest[|rest| - 1] == s[|s| - 1];
      TrimStartEnd(rest);
      TrimStartIdempotent(rest);
      SplitSpacesIsWords(TrimStart(rest));
      assert s[n..][1..] == rest;
      assert Words(s[n..]) == Words(rest) == Words(TrimStart(rest));
    }
  }

  // ----- getUniqueScopes -----

  /** The value of `getUniqueScopes`: the distinct tokens of all arguments, single-spaced. */
  lemma UniqueScopesIs(scopes: seq<string>)
    ensures UniqueScopes(scopes) == Join(Dedupe(AllWords(scopes)), " ")
  {
    var all := Join(scopes, " ");
    WordsJoinAll(scopes);
    TrimKeepsWords(all);
    if Trim(all) == "" {
      assert SplitSpaces("") == [""];
      assert Dedupe([""]) == [""];
    } else {
      SplitSpacesIsWords(Trim(all));
    }
  }

  /** The tokens of the result, read back: distinct, complete, and in first-occurrence order. */
  lemma UniqueScopesTokens(scopes: seq<string>)
    ensures Words(UniqueScopes(scopes)) == Dedupe(AllWords(scopes))
    ensures Distinct(Words(UniqueScopes(scopes)))
    ensures forall w :: w in Words(UniqueScopes(scopes)) <==> exists i :: 0 <= i < |scopes| && w in Words(scopes[i])
  {
    UniqueScopesIs(scopes);
    AllWordsAreTokens(scopes);
    DedupeMembers(AllWords(scopes));
    WordsJoin(Dedupe(AllWords(scopes)));
    DedupeDistinct(AllWords(scopes));
  }

  lemma {:induction false} AllWordsAreTokens(scopes: seq<string>)
    ensures forall w :: w in AllWords(scopes) ==> Token(w)
    ensures forall w :: w in AllWords(scopes) <==> exists i :: 0 <= i < |scopes| && w in Words(scopes[i])
  {
    if scopes != [] {
      WordsAreTokens(scopes[0]);
      AllWordsAreTokens(scopes[1..]);
      forall w | w in AllWords(scopes[1..])
        ensures exists i :: 0 <= i < |scopes| && w in Words(scopes[i])
      {
        var i :| 0 <= i < |scopes[1..]| && w in Words(scopes[1..][i]);
        assert w in Words(scopes[i + 1]);
      }
      forall w | exists i :: 0 <= i < |scopes| && w in Words(scopes[i])
        ensures w in AllWords(scopes)
      {
        var i :| 0 <= i < |scopes| && w in Words(scopes[i]);
        if i > 0 {
          assert w in Words(scopes[1..][i - 1]);
        }
      }
    }
  }

  lemma {:induction false} AllWordsAppend(a: seq<string>, b: seq<string>)
    ensures AllWords(a + b) == AllWords(a) + AllWords(b)
  {
    if a == [] {
      assert a + b == b;
    } else {
      assert (a + b)[1..] == a[1..] + b;
      AllWordsAppend(a[1..], b);
    }
  }

  lemma AllWordsOne(s: string)
    ensures AllWords([s]) == Words(s)
  {
    assert [s][1..] == [];
  }

  /** Nesting flattens: any run of arguments may be normalised first. */
  lemma UniqueScopesNest(before: seq<string>, inner: seq<string>, after: seq<string>)
    ensures UniqueScopes(before + [UniqueScopes(inner)] + after) == UniqueScopes(before + inner + after)
  {
    UniqueScopesIs(before + [UniqueScopes(inner)] + after);
    UniqueScopesIs(before + inner + after);
    UniqueScopesTokens(inner);
    AllWordsOne(UniqueScopes(inner));
    AllWordsAppend(before + [UniqueScopes(inner)], after);
    AllWordsAppend(before, [UniqueScopes(inner)]);
    AllWordsAppend(before + inner, after);
    AllWordsAppend(before, inner);
    DedupeMiddle(AllWords(before), AllWords(inner), AllWords(after));
  }

  lemma UniqueScopesIdempotent(scopes: seq<string>)
    ensures UniqueScopes([UniqueScopes(scopes)]) == UniqueScopes(scopes)
  {
    UniqueScopesNest([], scopes, []);
    assert [] + [UniqueScopes(scopes)] + [] == [UniqueScopes(scopes)];
    assert [] + scopes + [] == scopes;
  }

  /** Re-adding, in front, scopes that already lead the list changes nothing. */
  lemma UniqueScopesReadd(lead: seq<string>, rest: seq<string>)
    ensures UniqueScopes(lead + [UniqueScopes(lead + rest)]) == UniqueScopes(lead + rest)
  {
    UniqueScopesNest(lead, lead + rest, []);
    assert lead + [UniqueScopes(lead + rest)] + [] == lead + [UniqueScopes(lead + rest)];
    assert lead + (lead + rest) + [] == lead + (lead + rest);
    UniqueScopesDoubled(lead, rest);
  }

  lemma UniqueScopesDoubled(lead: seq<string>, rest: seq<string>)
    ensures UniqueScopes(lead + (lead + rest)) == UniqueScopes(lead + rest)
  {
    UniqueScopesIs(lead + (lead + rest));
    UniqueScopesIs(lead + rest);
    AllWordsAppend(lead, lead + rest);
    AllWordsAppend(lead, rest);
    assert AllWords(lead) + (AllWords(lead) + AllWords(rest)) == AllWords(lead) + AllWords(lead) + AllWords(rest);
    DedupeRepeat(AllWords(lead), AllWords(lead), AllWords(rest));
  }

  /** The same when the leading scopes had been extended and normalised before. */
  lemma UniqueScopesReaddPart(d: string, s: string, extra: string, x: string)
    ensures UniqueScopes([d, s, UniqueScopes([d, UniqueScopes([s, extra]), x])]) ==
            UniqueScopes([d, UniqueScopes([s, extra]), x])
  {
    UniqueScopesNest([d], [s, extra], [x]);
    assert [d] + [UniqueScopes([s, extra])] + [x] == [d, UniqueScopes([s, extra]), x];
    assert [d] + [s, extra] + [x] == [d, s] + [extra, x];
    UniqueScopesReadd([d, s], [extra, x]);
    var r := UniqueScopes([d, s] + [extra, x]);
    assert [d, s] + [r] == [d, s, r];
  }

  // ----- what separates tokens -----

  /** The code points that ECMAScript counts as white space or line terminators. */
  const WHITE_SPACE := {
    9, 10, 11, 12, 13, 0x20, 0xA0, 0x1680, 0x2000, 0x2001, 0x2002, 0x2003, 0x2004, 0x2005, 0x2006, 0x2007, 0x2008,
    0x2009, 0x200A, 0x2028, 0x2029, 0x202F, 0x205F, 0x3000, 0xFEFF}

  lemma SpaceIsWhiteSpace(c: char)
    ensures IsSpace(c) <==> c as int in WHITE_SPACE
  {
  }

  /** White space of any kind separates arguments' tokens as separate arguments do; nothing else ends a token. */
  lemma WhiteSpaceSeparates(a: string, c: char, b: string)
    ensures c as int in WHITE_SPACE ==> UniqueScopes([a + [c] + b]) == UniqueScopes([a, b])
    ensures c as int !in WHITE_SPACE && Token(a) && Token(b) ==> UniqueScopes([a + [c] + b]) == a + [c] + b
  {
    SpaceIsWhiteSpace(c);
    AllWordsOne(a + [c] + b);
    AllWordsOne(b);
    UniqueScopesIs([a + [c] + b]);
    if IsSpace(c) {
      WordsAppend(a, c, b);
      UniqueScopesIs([a, b]);
      assert [a, b][1..] == [b];
    } else if Token(a) && Token(b) {
      WordsToken(a + [c] + b);
      assert Dedupe([a + [c] + b]) == [a + [c] + b];
    }
  }
}
