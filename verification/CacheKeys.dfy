/** `CacheKey` of src/cache/shared.ts: the `::` printer and parser of cache keys. */
module CacheKeys {
  import opened Wrappers
  import opened Strings
  import opened Colons

  const PREFIX := "@@auth0spajs@@"

  datatype CacheKey = CacheKey(prefix: string, clientId: string, audience: string, scope: string)

  /** What `fromKey` yields: a component is missing when the text has too few parts. */
  datatype ParsedKey = ParsedKey(
    prefix: string, clientId: Option<string>, audience: Option<string>, scope: Option<string>)

  function ToKey(k: CacheKey): string {
    k.prefix + SEP + k.clientId + SEP + k.audience + SEP + k.scope
  }

  function FromKey(s: string): ParsedKey {
    var parts := Split(s, SEP);
    ParsedKey(parts[0], Part(parts, 1), Part(parts, 2), Part(parts, 3))
  }

  function Part(parts: seq<string>, i: nat): Option<string> {
    if i < |parts| then Some(parts[i]) else None
  }

  function Parsed(k: CacheKey): ParsedKey {
    ParsedKey(k.prefix, Some(k.clientId), Some(k.audience), Some(k.scope))
  }

  /** The key under which a manifest for `clientId` lives in the store it indexes. */
  function ManifestKey(clientId: string): string {
    PREFIX + SEP + clientId
  }

  predicate WellFormed(k: CacheKey) {
    Clean(k.prefix) && Clean(k.clientId) && Clean(k.audience) && !Contains(k.scope, SEP)
  }

  /** The first part of `a::rest` is `a` exactly when `a` is clean, and then the rest is split alike. */
  lemma FirstPart(a: string, rest: string)
    ensures Split(a + SEP + rest, SEP)[0] == a <==> Clean(a)
    ensures Clean(a) ==> Split(a + SEP + rest, SEP) == [a] + Split(rest, SEP)
  {
    FirstCut(a, rest);
    if Clean(a) {
      SplitPeel(a, SEP, rest);
    } else {
      assert |Split(a + SEP + rest, SEP)[0]| < |a|;
    }
  }

  predicate Starts(parts: seq<string>, expected: seq<string>) {
    |expected| <= |parts| && forall i :: 0 <= i < |expected| ==> parts[i] == expected[i]
  }

  /** The last component survives exactly when it holds no separator. */
  lemma LastPart(s: string)
    ensures Starts(Split(s, SEP), [s]) <==> !Contains(s, SEP)
  {
    FindIsLeftmost(s, SEP);
    SplitWhole(s, SEP);
    if Find(s, SEP) < |s| {
      assert Split(s, SEP)[0] == s[..Find(s, SEP)];
    }
  }

  /** A component before a separator survives, with all that follows it, exactly when it is clean. */
  lemma PeelPart(a: string, rest: string, expected: seq<string>)
    ensures Starts(Split(a + SEP + rest, SEP), [a] + expected) <==> Clean(a) && Starts(Split(rest, SEP), expected)
  {
    FirstPart(a, rest);
    var whole, tail := Split(a + SEP + rest, SEP), Split(rest, SEP);
    if Clean(a) {
      assert forall i :: 0 <= i < |tail| ==> tail[i] == whole[i + 1];
      assert forall i :: 0 <= i < |expected| ==> expected[i] == ([a] + expected)[i + 1];
    } else {
      assert ([a] + expected)[0] == a;
    }
  }

  /** `fromKey` undoes `toKey` on exactly the well-formed keys. */
  lemma RoundTrip(k: CacheKey)
    ensures FromKey(ToKey(k)) == Parsed(k) <==> WellFormed(k)
  {
    var r2 := k.audience + SEP + k.scope;
    var r1 := k.clientId + SEP + r2;
    Nested(k);
    PeelPart(k.prefix, r1, [k.clientId] + ([k.audience] + [k.scope]));
    PeelPart(k.clientId, r2, [k.audience] + [k.scope]);
    PeelPart(k.audience, k.scope, [k.scope]);
    LastPart(k.scope);
    SurvivorsParse(k, Split(ToKey(k), SEP));
  }

  lemma SurvivorsParse(k: CacheKey, parts: seq<string>)
    requires parts == Split(ToKey(k), SEP)
    ensures FromKey(ToKey(k)) == Parsed(k) <==>
            Starts(parts, [k.prefix] + ([k.clientId] + ([k.audience] + [k.scope])))
  {
    assert [k.prefix] + ([k.clientId] + ([k.audience] + [k.scope])) == [k.prefix, k.clientId, k.audience, k.scope];
  }

  /** Distinct well-formed keys have distinct texts. */
  lemma ToKeyInjective(k: CacheKey, l: CacheKey)
    requires WellFormed(k) && WellFormed(l) && ToKey(k) == ToKey(l)
    ensures k == l
  {
    RoundTrip(k);
    RoundTrip(l);
  }

  /** Well-formedness cannot be dropped: `::` inside an audience makes two different keys print alike. */
  lemma ToKeyNotInjective()
    ensures exists k, l :: k != l && ToKey(k) == ToKey(l)
  {
    var k := CacheKey(PREFIX, "c", "a::b", "s");
    var l := CacheKey(PREFIX, "c", "a", "b::s");
    assert ToKey(k) == ToKey(l);
  }

  lemma Nested(k: CacheKey)
    ensures ToKey(k) == k.prefix + SEP + (k.clientId + SEP + (k.audience + SEP + k.scope))
  {
  }
}
