/** `createQueryParams` and `parseQueryResult` of src/utils.ts. */
module QueryString {
  import opened Wrappers
  import opened Strings
  import opened Percent

  /** An object's members in order; `None` is the value `undefined`. */
  type Members = seq<(string, Option<string>)>

  type Pairs = seq<(string, string)>

  /** `filter(k => typeof params[k] !== 'undefined')` */
  function Defined(params: Members): Pairs {
    if params == [] then []
    else (if params[0].1.Some? then [(params[0].0, params[0].1.value)] else []) + Defined(params[1..])
  }

  ghost predicate BytePairs(ps: Pairs) {
    forall i :: 0 <= i < |ps| ==> Bytes(ps[i].0) && Bytes(ps[i].1)
  }

  function Field(p: (string, string)): string
    requires Bytes(p.0) && Bytes(p.1)
  {
    EncodeComponent(p.0) + "=" + EncodeComponent(p.1)
  }

  function Fields(ps: Pairs): (fs: seq<string>)
    requires forall i :: 0 <= i < |ps| ==> Bytes(ps[i].0) && Bytes(ps[i].1)
    ensures |fs| == |ps|
    ensures forall i :: 0 <= i < |ps| ==> fs[i] == Field(ps[i])
  {
    if ps == [] then [] else [Field(ps[0])] + Fields(ps[1..])
  }

  /** `createQueryParams` */
  function CreateQueryParams(params: Members): string
    requires BytePairs(Defined(params))
  {
    Join(Fields(Defined(params)), "&")
  }

  /** A parsed value; `parseInt` is applied to a non-empty `expires_in` and is not looked into. */
  datatype Value = Text(text: string) | ParsedInt(text: string)

  type Object = map<string, Value>

  function BeforeHash(s: string): string {
    s[..Find(s, "#")]
  }

  /** `decodeURIComponent(undefined)` is the text "undefined". */
  function ValuePart(parts: seq<string>): string {
    if |parts| > 1 then parts[1] else "undefined"
  }

  function ParseField(field: string): (string, Option<string>) {
    var parts := Split(field, "=");
    (parts[0], DecodeComponent(ValuePart(parts)))
  }

  /** `parsedQuery[key] = text`: a text is no prototype, so that one name stays unset. */
  function Put(o: Object, key: string, text: string): Object {
    if key == PROTO then o else o[key := Text(text)]
  }

  /** The `forEach` over the fields: later members overwrite, a broken escape throws. */
  function ParseFields(fields: seq<string>): Option<Object> {
    if fields == [] then Some(map[])
    else
      var before := ParseFields(fields[..|fields| - 1]);
      var (key, val) := ParseField(fields[|fields| - 1]);
      if before.None? || val.None? then None else Some(Put(before.value, key, val.value))
  }

  const EXPIRES_IN := "expires_in"

  function FixExpiry(o: Object): Object {
    if EXPIRES_IN in o && o[EXPIRES_IN].text != "" then o[EXPIRES_IN := ParsedInt(o[EXPIRES_IN].text)] else o
  }

  function Parse(queryString: string): Option<Object> {
    var parsed := ParseFields(Split(BeforeHash(queryString), "&"));
    if parsed.None? then None else Some(FixExpiry(parsed.value))
  }

  method ParseQueryResult(queryString: string) returns (r: Option<Object>)
    ensures r == Parse(queryString)
  {
    var text := queryString;
    if Find(text, "#") < |text| {
      text := text[..Find(text, "#")];
    }
    assert text == BeforeHash(queryString);
    var queryParams := Split(text, "&");
    var parsedQuery: Object := map[];
    for i := 0 to |queryParams|
      invariant ParseFields(queryParams[..i]) == Some(parsedQuery)
    {
      assert queryParams[..i + 1][..i] == queryParams[..i];
      var (key, val) := ParseField(queryParams[i]);
      if val.None? {
        Broken(queryParams, i);
        return None;
      }
      parsedQuery := Put(parsedQuery, key, val.value);
    }
    assert queryParams[..|queryParams|] == queryParams;
    return Some(FixExpiry(parsedQuery));
  }

  /** A broken escape anywhere spoils the whole result. */
  lemma {:induction false} Broken(fields: seq<string>, i: nat)
    requires i < |fields| && ParseField(fields[i]).1.None?
    ensures ParseFields(fields) == None
  {
    if i < |fields| - 1 {
      Broken(fields[..|fields| - 1], i);
    }
  }

  // ----- query strings -----

  lemma EncodedFree(s: string)
    requires Encoded(s)
    ensures '&' !in s && '#' !in s && '=' !in s
  {
  }

  lemma SplitField(k: string, v: string)
    requires '=' !in k && '=' !in v
    ensures Split(k + "=" + v, "=") == [k, v]
  {
    FindAfterChar(k, '=', v);
    SplitPeel(k, "=", v);
    NotContainsChar(v, '=');
    SplitWhole(v, "=");
  }

  /** Parsing a field that was created yields its encoded key and its value. */
  lemma FieldRoundTrip(p: (string, string))
    requires Bytes(p.0) && Bytes(p.1)
    ensures ParseField(Field(p)) == (EncodeComponent(p.0), Some(p.1))
    ensures '&' !in Field(p) && '#' !in Field(p)
  {
    EncodeFacts(p.0);
    EncodeFacts(p.1);
    EncodedFree(EncodeComponent(p.0));
    EncodedFree(EncodeComponent(p.1));
    PercentRoundTrip(p.1);
    SplitField(EncodeComponent(p.0), EncodeComponent(p.1));
  }

  /** What the parser makes of created fields: the members under their encoded keys. */
  function Received(ps: Pairs): Object
    requires forall i :: 0 <= i < |ps| ==> Bytes(ps[i].0) && Bytes(ps[i].1)
  {
    if ps == [] then map[]
    else Put(Received(ps[..|ps| - 1]), EncodeComponent(ps[|ps| - 1].0), ps[|ps| - 1].1)
  }

  /** The members themselves, as an object. */
  function Sent(ps: Pairs): Object {
    if ps == [] then map[] else Sent(ps[..|ps| - 1])[ps[|ps| - 1].0 := Text(ps[|ps| - 1].1)]
  }

  lemma {:induction false} FieldsReceived(ps: Pairs)
    requires BytePairs(ps)
    ensures ParseFields(Fields(ps)) == Some(Received(ps))
  {
    if ps != [] {
      FieldsReceived(ps[..|ps| - 1]);
      FieldRoundTrip(ps[|ps| - 1]);
      assert Fields(ps)[..|ps| - 1] == Fields(ps[..|ps| - 1]);
    }
  }

  lemma {:induction false} JoinFree(parts: seq<string>, c: char)
    requires c != '&' && forall i :: 0 <= i < |parts| ==> c !in parts[i]
    ensures c !in Join(parts, "&")
  {
    if |parts| > 1 {
      JoinFree(parts[1..], c);
    }
  }

  lemma CreatedFields(params: Members)
    requires BytePairs(Defined(params)) && Defined(params) != []
    ensures Split(BeforeHash(CreateQueryParams(params)), "&") == Fields(Defined(params))
  {
    var fs := Fields(Defined(params));
    forall i | 0 <= i < |fs|
      ensures '&' !in fs[i] && '#' !in fs[i]
    {
      FieldRoundTrip(Defined(params)[i]);
    }
    JoinFree(fs, '#');
    var q := CreateQueryParams(params);
    NotContainsChar(q, '#');
    FindIsLeftmost(q, "#");
    assert BeforeHash(q) == q;
    SplitJoin(fs, '&');
  }

  /** Every key comes back as it was sent: it needs no encoding, and assigning it sets a member. */
  predicate KeysPlain(ps: Pairs) {
    forall i :: 0 <= i < |ps| ==> PlainText(ps[i].0) && ps[i].0 != PROTO
  }

  lemma {:induction false} PlainKeysReceived(ps: Pairs)
    requires BytePairs(ps) && KeysPlain(ps)
    ensures Received(ps) == Sent(ps)
  {
    if ps != [] {
      PlainKeysReceived(ps[..|ps| - 1]);
      EncodeFacts(ps[|ps| - 1].0);
    }
  }

  lemma PrototypePlain()
    ensures PlainText(PROTO)
  {
  }

  lemma {:induction false} ReceivedHas(ps: Pairs, i: nat)
    requires BytePairs(ps) && i < |ps| && EncodeComponent(ps[i].0) != PROTO
    ensures EncodeComponent(ps[i].0) in Received(ps)
  {
    if i < |ps| - 1 {
      ReceivedHas(ps[..|ps| - 1], i);
    }
  }

  lemma {:induction false} NeverReceived(ps: Pairs)
    requires BytePairs(ps)
    ensures PROTO !in Received(ps)
  {
    if ps != [] {
      NeverReceived(ps[..|ps| - 1]);
    }
  }

  lemma {:induction false} SentHas(ps: Pairs, i: nat)
    requires i < |ps|
    ensures ps[i].0 in Sent(ps)
  {
    if i < |ps| - 1 {
      SentHas(ps[..|ps| - 1], i);
    }
  }

  lemma {:induction false} SentText(ps: Pairs)
    ensures forall k :: k in Sent(ps) ==> Sent(ps)[k].Text?
  {
    if ps != [] {
      SentText(ps[..|ps| - 1]);
    }
  }

  lemma {:induction false} SentKey(ps: Pairs, k: string) returns (i: nat)
    requires k in Sent(ps)
    ensures i < |ps| && k == ps[i].0
  {
    i := |ps| - 1;
    if k != ps[i].0 {
      i := SentKey(ps[..|ps| - 1], k);
    }
  }

  function LongestKey(ps: Pairs): (n: nat)
    ensures forall i :: 0 <= i < |ps| ==> |ps[i].0| <= n
  {
    if ps == [] then 0
    else
      var n := LongestKey(ps[1..]);
      if |ps[0].0| > n then |ps[0].0| else n
  }

  /** If encoding maps the keys onto themselves, a key that is not plain has ever longer companions. */
  lemma {:induction false} EverLonger(ps: Pairs, i: nat, n: nat)
    requires BytePairs(ps) && i < |ps| && !PlainText(ps[i].0)
    requires forall k :: k in Received(ps) ==> k in Sent(ps)
    ensures exists j :: 0 <= j < |ps| && |ps[j].0| >= n
    decreases n - |ps[i].0|
  {
    if |ps[i].0| < n {
      EncodeFacts(ps[i].0);
      PrototypePlain();
      ReceivedHas(ps, i);
      var j := SentKey(ps, EncodeComponent(ps[i].0));
      EverLonger(ps, j, n);
    }
  }

  /** Received and sent members agree only if every key is plain and none sets the prototype. */
  lemma OnlyPlainKeysReturn(ps: Pairs)
    requires BytePairs(ps) && Received(ps) == Sent(ps)
    ensures KeysPlain(ps)
  {
    var n := LongestKey(ps) + 1;
    forall i | 0 <= i < |ps|
      ensures PlainText(ps[i].0) && ps[i].0 != PROTO
    {
      SentHas(ps, i);
      NeverReceived(ps);
      if !PlainText(ps[i].0) {
        EverLonger(ps, i, n);
      }
    }
  }

  lemma ReceivedIsSentExactly(ps: Pairs)
    requires BytePairs(ps)
    ensures Received(ps) == Sent(ps) <==> KeysPlain(ps)
  {
    if KeysPlain(ps) {
      PlainKeysReceived(ps);
    }
    if Received(ps) == Sent(ps) {
      OnlyPlainKeysReturn(ps);
    }
  }

  /** Among the members sent, `expires_in` is missing or empty; any other value comes back as a number. */
  predicate NoExpiry(ps: Pairs) {
    EXPIRES_IN in Sent(ps) ==> Sent(ps)[EXPIRES_IN].text == ""
  }

  lemma FixedIsSentExactly(ps: Pairs)
    requires BytePairs(ps)
    ensures FixExpiry(Received(ps)) == Sent(ps) <==> KeysPlain(ps) && NoExpiry(ps)
  {
    SentText(ps);
    ReceivedIsSentExactly(ps);
    assert FixExpiry(Received(ps)) != Received(ps) ==> FixExpiry(Received(ps))[EXPIRES_IN].ParsedInt?;
  }

  lemma ParsesToReceived(q: string, ps: Pairs)
    requires BytePairs(ps) && Split(BeforeHash(q), "&") == Fields(ps)
    ensures Parse(q) == Some(FixExpiry(Received(ps)))
  {
    FieldsReceived(ps);
  }

  /**
   * Parsing what was created gives the defined members back exactly when there is one, every key is made of characters
   * that need no encoding and does not set the prototype, and there is no expiry to parse: values are decoded, keys are
   * not, and an empty object comes back with one member.
   */
  lemma RoundTrip(params: Members)
    requires BytePairs(Defined(params))
    ensures Parse(CreateQueryParams(params)) == Some(Sent(Defined(params))) <==>
            Defined(params) != [] && KeysPlain(Defined(params)) && NoExpiry(Defined(params))
  {
    if Defined(params) == [] {
      EmptyParses();
    } else {
      CreatedFields(params);
      ParsesToReceived(CreateQueryParams(params), Defined(params));
      FixedIsSentExactly(Defined(params));
    }
  }

  /** The empty query string parses to one member with the empty key. */
  lemma EmptyParses()
    ensures Parse("") == Some(map["" := Text("undefined")]) != Some(map[])
  {
    assert "" in map["" := Text("undefined")];
    assert BeforeHash("") == "" && Split("", "&") == [""];
    LoneField("");
  }

  /** A field without a value has the text "undefined". */
  lemma LoneField(q: string)
    requires '=' !in q && q != EXPIRES_IN && q != PROTO
    ensures ParseFields([q]) == Some(map[q := Text("undefined")])
    ensures FixExpiry(map[q := Text("undefined")]) == map[q := Text("undefined")]
  {
    NotContainsChar(q, '=');
    SplitWhole(q, "=");
    PlainDecodes("undefined");
    assert ParseField(q) == (q, Some("undefined"));
    assert ParseFields([q][..0]) == Some(map[]);
  }

  // ----- hash, equal signs and the expiry -----

  /** A fragment after the first hash is not seen. */
  lemma HashIgnored(q: string, fragment: string)
    requires '#' !in q
    ensures Parse(q + "#" + fragment) == Parse(q)
  {
    FindAfterChar(q, '#', fragment);
    NotContainsChar(q, '#');
    FindIsLeftmost(q, "#");
    assert BeforeHash(q + "#" + fragment) == q == BeforeHash(q);
  }

  /** A value ends at a second equal sign, and what follows is not seen. */
  lemma ValueEnds(key: string, val: string, rest: string)
    requires '=' !in key && '=' !in val
    ensures ParseField(key + "=" + val + "=" + rest) == (key, DecodeComponent(val))
  {
    var field := key + "=" + val + "=" + rest;
    assert field == key + "=" + (val + "=" + rest);
    FindAfterChar(key, '=', val + "=" + rest);
    SplitPeel(key, "=", val + "=" + rest);
    FindAfterChar(val, '=', rest);
    SplitPeel(val, "=", rest);
  }

  /** A created expiry comes back parsed as a number, unless it is empty. */
  lemma ExpiryParsed(params: Members)
    requires BytePairs(Defined(params)) && KeysPlain(Defined(params))
    requires EXPIRES_IN in Sent(Defined(params)) && Sent(Defined(params))[EXPIRES_IN].text != ""
    ensures Parse(CreateQueryParams(params)) ==
            Some(Sent(Defined(params))[EXPIRES_IN := ParsedInt(Sent(Defined(params))[EXPIRES_IN].text)])
  {
    CreatedFields(params);
    ParsesToReceived(CreateQueryParams(params), Defined(params));
    PlainKeysReceived(Defined(params));
  }

  lemma {:induction false} DefinedAppend(a: Members, b: Members)
    ensures Defined(a + b) == Defined(a) + Defined(b)
  {
    if a == [] {
      assert a + b == b;
    } else {
      var first := if a[0].1.Some? then [(a[0].0, a[0].1.value)] else [];
      assert (a + b)[1..] == a[1..] + b;
      DefinedAppend(a[1..], b);
      assert first + (Defined(a[1..]) + Defined(b)) == first + Defined(a[1..]) + Defined(b);
    }
  }

  /** An undefined member leaves no trace in the query. */
  lemma UndefinedLeftOut(a: Members, key: string, b: Members)
    requires BytePairs(Defined(a + b))
    ensures BytePairs(Defined(a + [(key, None)] + b))
    ensures CreateQueryParams(a + [(key, None)] + b) == CreateQueryParams(a + b)
  {
    DefinedAppend(a + [(key, None)], b);
    DefinedAppend(a, [(key, None)]);
    DefinedAppend(a, b);
    var gone: Members := [(key, None)];
    assert gone[1..] == [] && Defined(gone) == [];
    assert Defined(a) + [] == Defined(a);
  }
}
