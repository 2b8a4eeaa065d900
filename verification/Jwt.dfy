/**
 * src/jwt.ts: decoding and validating an ID token, section 3.1.3.7 of OpenID Connect Core 1.0. Numbers are integers;
 * `JSON.parse` of the bytes of one decoded part is a parameter.
 */
module Jwt {
  import opened Wrappers
  import opened Strings
  import Percent
  import Base64Url

  datatype Json = Null | Bool(b: bool) | Num(n: int) | Str(s: string) | Arr(items: seq<Json>)
                | Obj(members: map<string, Json>)

  type Members = seq<(string, Json)>

  /** An object's own members, and those it inherits from a prototype that was assigned to it. */
  datatype Claims = Claims(own: map<string, Json>, inherited: map<string, Json>)

  /** `JSON.parse` of a text as members; `None` when it throws or yields null. */
  type Parser = string -> Option<Members>

  /** The claims that `decode` keeps out of the user profile. */
  const REGISTERED := [
    "iss", "aud", "exp", "nbf", "iat", "jti", "azp", "nonce", "auth_time", "at_hash", "c_hash", "acr", "amr", "sub_jwk",
    "cnf", "sip_from_tag", "sip_date", "sip_callid", "sip_cseq_num", "sip_via_branch", "orig", "dest", "mky", "events",
    "toe", "txn", "rph", "sid", "vot", "vtm"]

  datatype Decoded = Decoded(header: Claims, claims: Claims, user: Claims)

  /** `c[k]`, for names that the built-in prototypes do not have. */
  function At(c: Claims, k: string): Option<Json> {
    if k in c.own then Some(c.own[k]) else if k in c.inherited then Some(c.inherited[k]) else None
  }

  /** JavaScript truthiness of a claim. */
  predicate Holds(v: Option<Json>) {
    match v
    case None => false
    case Some(Null) => false
    case Some(Bool(b)) => b
    case Some(Num(n)) => n != 0
    case Some(Str(s)) => s != ""
    case Some(_) => true
  }

  predicate IsNumber(v: Option<Json>) {
    v.Some? && v.value.Num?
  }

  // ----- decode -----

  /** `c[k] = v`; arrays and null bring a prototype without claims. */
  function Put(c: Claims, k: string, v: Json): Claims {
    if k != PROTO then c.(own := c.own[k := v])
    else
      match v
      case Obj(members) => c.(inherited := members)
      case Arr(_) => c.(inherited := map[])
      case Null => c.(inherited := map[])
      case _ => c
  }

  /** `start` with the members assigned in order. */
  function Assigned(start: Claims, members: Members): Claims {
    if members == [] then start
    else Put(Assigned(start, members[..|members| - 1]), members[|members| - 1].0, members[|members| - 1].1)
  }

  /** The object that `JSON.parse` itself makes: every member is its own, whatever its name. */
  function Parsed(members: Members): Claims {
    if members == [] then Claims(map[], map[])
    else
      var before := Parsed(members[..|members| - 1]);
      before.(own := before.own[members[|members| - 1].0 := members[|members| - 1].1])
  }

  /** The members whose names are not in `registered`. */
  function Unregistered(members: Members, registered: seq<string>): Members {
    if members == [] then []
    else
      Unregistered(members[..|members| - 1], registered) +
      (if members[|members| - 1].0 in registered then [] else [members[|members| - 1]])
  }

  function User(payload: Members): Claims {
    Assigned(Claims(map[], map[]), Unregistered(payload, REGISTERED))
  }

  /** `{__raw: token}` */
  function Raw(token: string): Claims {
    Claims(map["__raw" := Str(token)], map[])
  }

  /** `JSON.parse(urlDecodeB64(part))` */
  function ParsePart(part: string, parse: Parser): Option<Members> {
    var text := Base64Url.Decode(part);
    if text.None? then None else parse(text.value)
  }

  function Decode(token: string, parse: Parser): Option<Decoded> {
    var parts := Split(token, ".");
    if |parts| != 3 || parts[0] == "" || parts[1] == "" || parts[2] == "" then None
    else
      var payload, header := ParsePart(parts[1], parse), ParsePart(parts[0], parse);
      if payload.None? || header.None? then None
      else Some(Decoded(Parsed(header.value), Assigned(Raw(token), payload.value), User(payload.value)))
  }

  /** The loop of `decode`. */
  method PartitionClaims(token: string, payload: Members) returns (claims: Claims, user: Claims)
    ensures claims == Assigned(Raw(token), payload)
    ensures user == User(payload)
  {
    var registered := REGISTERED;
    claims, user := Raw(token), Claims(map[], map[]);
    for i := 0 to |payload|
      invariant claims == Assigned(Raw(token), payload[..i])
      invariant user == Assigned(Claims(map[], map[]), Unregistered(payload[..i], registered))
    {
      var (k, v) := payload[i];
      assert payload[..i + 1][..i] == payload[..i];
      claims := Put(claims, k, v);
      KeepOrDrop(Claims(map[], map[]), payload[..i + 1], registered);
      if k !in registered {
        user := Put(user, k, v);
      }
    }
    assert payload[..|payload|] == payload;
  }

  lemma KeepOrDrop(start: Claims, members: Members, registered: seq<string>)
    requires members != []
    ensures var init, last := members[..|members| - 1], members[|members| - 1];
            var before := Assigned(start, Unregistered(init, registered));
            Assigned(start, Unregistered(members, registered)) ==
            if last.0 in registered then before else Put(before, last.0, last.1)
  {
    var kept := Unregistered(members[..|members| - 1], registered);
    assert (kept + [members[|members| - 1]])[..|kept|] == kept;
    assert kept + [] == kept;
  }

  /** The value of the last member of this name. */
  function Last(members: Members, k: string): Option<Json> {
    if members == [] then None
    else if members[|members| - 1].0 == k then Some(members[|members| - 1].1)
    else Last(members[..|members| - 1], k)
  }

  /** The members of the prototype that the payload brings along: those of its last object or null of that name. */
  function Prototype(members: Members): map<string, Json> {
    if members == [] then map[]
    else
      var (k, v) := members[|members| - 1];
      if k == PROTO && v.Obj? then v.members
      else if k == PROTO && (v.Arr? || v.Null?) then map[]
      else Prototype(members[..|members| - 1])
  }

  /** What is read after the assignments: the last value assigned, else what was there, else the prototype's member. */
  function Read(start: map<string, Json>, payload: Members, k: string): Option<Json> {
    if Last(payload, k).Some? then Last(payload, k)
    else At(Claims(start, Prototype(payload)), k)
  }

  /** The claims hold every member of the payload over the raw token; other names are read through the prototype. */
  lemma {:induction false} ClaimsMember(start: map<string, Json>, payload: Members, k: string)
    requires k != PROTO
    ensures At(Assigned(Claims(start, map[]), payload), k) == Read(start, payload, k)
    ensures Assigned(Claims(start, map[]), payload).inherited == Prototype(payload)
    ensures k in Assigned(Claims(start, map[]), payload).own <==> k in start || Last(payload, k).Some?
  {
    if payload != [] {
      ClaimsMember(start, payload[..|payload| - 1], k);
    }
  }

  lemma LastSnoc(members: Members, m: (string, Json), k: string)
    ensures Last(members + [m], k) == if m.0 == k then Some(m.1) else Last(members, k)
  {
    assert (members + [m])[..|members|] == members;
  }

  lemma PrototypeSnoc(members: Members, others: Members, m: (string, Json))
    requires Prototype(members) == Prototype(others)
    ensures Prototype(members + [m]) == Prototype(others + [m])
    ensures m.0 != PROTO ==> Prototype(members + [m]) == Prototype(members)
  {
    assert (members + [m])[..|members|] == members && (others + [m])[..|others|] == others;
  }

  lemma {:induction false} UnregisteredMember(payload: Members, registered: seq<string>, k: string)
    requires PROTO !in registered
    ensures Last(Unregistered(payload, registered), k) == if k in registered then None else Last(payload, k)
    ensures Prototype(Unregistered(payload, registered)) == Prototype(payload)
  {
    if payload != [] {
      var init, m := payload[..|payload| - 1], payload[|payload| - 1];
      var kept := Unregistered(init, registered);
      UnregisteredMember(init, registered, k);
      assert payload == init + [m];
      LastSnoc(init, m, k);
      PrototypeSnoc(init, kept, m);
      if m.0 in registered {
        assert kept + [] == kept;
      } else {
        LastSnoc(kept, m, k);
      }
    }
  }

  lemma PrototypeUnregistered()
    ensures PROTO !in REGISTERED
  {
  }

  /**
   * The user profile holds exactly the members of the payload that are not registered claims; all other names,
   * registered claims among them, are read through the prototype.
   */
  lemma UserMember(payload: Members, k: string)
    requires k != PROTO
    ensures At(User(payload), k) ==
            if k !in REGISTERED && Last(payload, k).Some? then Last(payload, k)
            else At(Claims(map[], Prototype(payload)), k)
  {
    PrototypeUnregistered();
    UnregisteredMember(payload, REGISTERED, k);
    ClaimsMember(map[], Unregistered(payload, REGISTERED), k);
  }

  /** The claims of an ID token and of its use. */
  const PROTOCOL_CLAIMS := [
    "iss", "aud", "exp", "nbf", "iat", "jti", "azp", "nonce", "auth_time", "at_hash", "c_hash", "acr", "amr"]

  /** Protocol claims stay out of the profile, profile claims and the subject come in. */
  lemma ProfileClaims(payload: Members, k: string, v: string)
    requires k in PROTOCOL_CLAIMS
    requires v in ["sub", "name", "email", "org_id"] && Last(payload, v).Some?
    ensures At(User(payload), k) == At(Claims(map[], Prototype(payload)), k)
    ensures At(User(payload), v) == Last(payload, v)
  {
    ProtocolClaimsRegistered(k);
    ProfileClaimsUnregistered(v);
    UserMember(payload, k);
    UserMember(payload, v);
  }

  lemma ProtocolClaimsRegistered(k: string)
    requires k in PROTOCOL_CLAIMS
    ensures k in REGISTERED && k != PROTO
  {
    assert REGISTERED[..13] == PROTOCOL_CLAIMS;
    PrototypeUnregistered();
  }

  lemma ProfileClaimsUnregistered(v: string)
    requires v in ["sub", "name", "email", "org_id"]
    ensures v !in REGISTERED && v != PROTO
  {
  }

  // ----- encoded tokens -----

  /** A text that can be a part of a token. */
  predicate IsPart(text: string) {
    text != "" && Percent.Bytes(text)
  }

  function Token(header: string, payload: string, signature: string): string
    requires IsPart(header) && IsPart(payload)
  {
    Base64Url.Encode(header) + "." + (Base64Url.Encode(payload) + "." + signature)
  }

  lemma SplitThree(a: string, b: string, c: string)
    requires '.' !in a && '.' !in b && '.' !in c
    ensures Split(a + "." + (b + "." + c), ".") == [a, b, c]
  {
    FindAfterChar(a, '.', b + "." + c);
    SplitPeel(a, ".", b + "." + c);
    FindAfterChar(b, '.', c);
    SplitPeel(b, ".", c);
    NotContainsChar(c, '.');
    SplitWhole(c, ".");
  }

  lemma EncodedPart(text: string, parse: Parser)
    requires IsPart(text)
    ensures Base64Url.Encode(text) != "" && '.' !in Base64Url.Encode(text)
    ensures ParsePart(Base64Url.Encode(text), parse) == parse(text)
  {
    Base64Url.RoundTrip(text);
  }

  /** A token made of two encoded texts and a signature decodes to what the parser makes of exactly those texts. */
  lemma DecodesEncoded(header: string, payload: string, signature: string, parse: Parser)
    requires IsPart(header) && IsPart(payload) && signature != "" && '.' !in signature
    ensures var token := Token(header, payload, signature);
            Decode(token, parse) ==
            if parse(payload).None? || parse(header).None? then None
            else Some(Decoded(Parsed(parse(header).value), Assigned(Raw(token), parse(payload).value),
                              User(parse(payload).value)))
  {
    EncodedPart(header, parse);
    EncodedPart(payload, parse);
    SplitThree(Base64Url.Encode(header), Base64Url.Encode(payload), signature);
  }

  /** Decoding succeeds exactly for three dot-free, non-empty parts of which the first two parse. */
  lemma DecodesExactly(token: string, parse: Parser)
    ensures Decode(token, parse).Some? <==>
            exists h, p, s :: ThreeParts(token, h, p, s) && ParsePart(h, parse).Some? && ParsePart(p, parse).Some?
  {
    if Decode(token, parse).Some? {
      PartsOf(token);
      var parts := Split(token, ".");
      assert ThreeParts(token, parts[0], parts[1], parts[2]);
    }
    forall h, p, s | ThreeParts(token, h, p, s)
      ensures Split(token, ".") == [h, p, s]
    {
      SplitThree(h, p, s);
    }
  }

  predicate ThreeParts(token: string, h: string, p: string, s: string) {
    && h != "" && p != "" && s != "" && '.' !in h && '.' !in p && '.' !in s
    && token == h + "." + (p + "." + s)
  }

  lemma PartsOf(token: string)
    requires |Split(token, ".")| == 3
    ensures var parts := Split(token, ".");
            token == parts[0] + "." + (parts[1] + "." + parts[2]) && forall i :: 0 <= i < 3 ==> '.' !in parts[i]
  {
    var parts := Split(token, ".");
    JoinSplit(token, ".");
    SplitParts(token, '.');
    assert parts[1..][1..] == [parts[2]] && parts[1..][0] == parts[1];
    assert Join(parts[1..], ".") == parts[1] + "." + Join([parts[2]], ".");
    assert Join(parts, ".") == parts[0] + "." + Join(parts[1..], ".");
  }

  // ----- verify -----

  datatype Options = Options(
    iss: string, aud: string, idToken: Option<string>, nonce: Option<string>, organizationId: Option<string>,
    maxAge: Option<int>, leeway: Option<int>, now: Option<int>)

  datatype Error =
    | TokenMissing | Undecodable | IssuerMissing | IssuerMismatch | SubjectMissing | BadAlgorithm
    | AudienceMissing | AudienceMismatch | AzpMissing | AzpMismatch | NonceMissing | NonceMismatch
    | AuthTimeMissing | ExpMissing | IatMissing | Expired | NotYetValid | AuthTooOld | OrgMissing | OrgMismatch

  /** The range of a JavaScript `Date`, in milliseconds. */
  const MAX_DATE := 8640000000000000

  /** A date with this time value; `None` is an invalid date. */
  function Date(ms: int): Option<int> {
    if -MAX_DATE <= ms <= MAX_DATE then Some(ms) else None
  }

  /** `new Date(0)` after `setUTCSeconds(seconds)`. */
  function DateOfSeconds(seconds: int): Option<int> {
    Date(1000 * seconds)
  }

  /** `a > b` on dates; false when either is invalid. */
  predicate After(a: Option<int>, b: Option<int>) {
    a.Some? && b.Some? && a.value > b.value
  }

  /** `x || fallback` on an optional number. */
  function NonZero(x: Option<int>, fallback: int): int {
    if x.Some? && x.value != 0 then x.value else fallback
  }

  function Leeway(o: Options): int {
    NonZero(o.leeway, 60)
  }

  function ExpDate(o: Options, c: Claims): Option<int>
    requires IsNumber(At(c, "exp"))
  {
    DateOfSeconds(At(c, "exp").value.n + Leeway(o))
  }

  function NbfDate(o: Options, c: Claims): Option<int> {
    if IsNumber(At(c, "nbf")) then DateOfSeconds(At(c, "nbf").value.n - Leeway(o)) else None
  }

  /** An undefined `max_age` makes this date invalid. */
  function AuthTimeDate(o: Options, c: Claims): Option<int> {
    if !IsNumber(At(c, "auth_time")) || o.maxAge.None? then None
    else DateOfSeconds(At(c, "auth_time").value.n + o.maxAge.value + Leeway(o))
  }

  function CheckAudience(o: Options, c: Claims): Option<Error> {
    var aud := At(c, "aud");
    if !Holds(aud) || !(aud.value.Str? || aud.value.Arr?) then Some(AudienceMissing)
    else if aud.value.Arr? then
      if Str(o.aud) !in aud.value.items then Some(AudienceMismatch)
      else if |aud.value.items| > 1 then
        if !Holds(At(c, "azp")) then Some(AzpMissing)
        else if At(c, "azp") != Some(Str(o.aud)) then Some(AzpMismatch)
        else None
      else None
    else if aud.value != Str(o.aud) then Some(AudienceMismatch)
    else None
  }

  function CheckNonce(o: Options, c: Claims): Option<Error> {
    if !Truthy(o.nonce) then None
    else if !Holds(At(c, "nonce")) then Some(NonceMissing)
    else if At(c, "nonce") != Some(Str(o.nonce.value)) then Some(NonceMismatch)
    else None
  }

  function CheckTimes(o: Options, c: Claims, systemNow: int): Option<Error> {
    if NonZero(o.maxAge, 0) != 0 && !IsNumber(At(c, "auth_time")) then Some(AuthTimeMissing)
    else if !IsNumber(At(c, "exp")) then Some(ExpMissing)
    else if !IsNumber(At(c, "iat")) then Some(IatMissing)
    else
      var now := Date(NonZero(o.now, systemNow));
      if After(now, ExpDate(o, c)) then Some(Expired)
      else if After(NbfDate(o, c), now) then Some(NotYetValid)
      else if After(now, AuthTimeDate(o, c)) then Some(AuthTooOld)
      else None
  }

  function CheckOrganization(o: Options, c: Claims): Option<Error> {
    if !Truthy(o.organizationId) then None
    else if !Holds(At(c, "org_id")) then Some(OrgMissing)
    else if At(c, "org_id") != Some(Str(o.organizationId.value)) then Some(OrgMismatch)
    else None
  }

  /** The guards of `verify` on a decoded token, in their order. */
  function Check(o: Options, d: Decoded, systemNow: int): Option<Error> {
    if !Holds(At(d.claims, "iss")) then Some(IssuerMissing)
    else if At(d.claims, "iss") != Some(Str(o.iss)) then Some(IssuerMismatch)
    else if !Holds(At(d.user, "sub")) then Some(SubjectMissing)
    else if At(d.header, "alg") != Some(Str("RS256")) then Some(BadAlgorithm)
    else if CheckAudience(o, d.claims).Some? then CheckAudience(o, d.claims)
    else if CheckNonce(o, d.claims).Some? then CheckNonce(o, d.claims)
    else if CheckTimes(o, d.claims, systemNow).Some? then CheckTimes(o, d.claims, systemNow)
    else CheckOrganization(o, d.claims)
  }

  function Judge(o: Options, d: Decoded, systemNow: int): Result<Decoded, Error> {
    var error := Check(o, d, systemNow);
    if error.Some? then Err(error.value) else Ok(d)
  }

  function Verify(o: Options, parse: Parser, systemNow: int): Result<Decoded, Error> {
    if !Truthy(o.idToken) then Err(TokenMissing)
    else
      var d := Decode(o.idToken.value, parse);
      if d.None? then Err(Undecodable) else Judge(o, d.value, systemNow)
  }

  // ----- what acceptance means -----

  predicate IsText(v: Option<Json>, s: string) {
    s != "" && v == Some(Str(s))
  }

  /** Issuer, subject, algorithm, audience, nonce, organization, and the presence of the times. */
  predicate Matched(o: Options, header: Claims, c: Claims, sub: Option<Json>) {
    && IsText(At(c, "iss"), o.iss)
    && Holds(sub)
    && IsText(At(header, "alg"), "RS256")
    && (|| IsText(At(c, "aud"), o.aud)
        || (&& At(c, "aud").Some? && At(c, "aud").value.Arr? && Str(o.aud) in At(c, "aud").value.items
            && (|At(c, "aud").value.items| == 1 || IsText(At(c, "azp"), o.aud))))
    && (Truthy(o.nonce) ==> IsText(At(c, "nonce"), o.nonce.value))
    && (Truthy(o.organizationId) ==> IsText(At(c, "org_id"), o.organizationId.value))
    && (o.maxAge.Some? && o.maxAge.value != 0 ==> IsNumber(At(c, "auth_time")))
    && IsNumber(At(c, "exp")) && IsNumber(At(c, "iat"))
  }

  /** A closed interval of milliseconds; a missing end is open. */
  datatype Window = Window(from: Option<int>, upto: Option<int>) {
    predicate Has(t: int) {
      (from.Some? ==> from.value <= t) && (upto.Some? ==> t <= upto.value)
    }
  }

  function Earlier(a: Option<int>, b: Option<int>): Option<int> {
    if a.None? then b else if b.None? || a.value <= b.value then a else b
  }

  /** From `nbf` less the leeway, to the earlier of `exp` and `auth_time + max_age`, plus the leeway. */
  function TimeWindow(o: Options, c: Claims): Window
    requires IsNumber(At(c, "exp"))
  {
    Window(NbfDate(o, c), Earlier(ExpDate(o, c), AuthTimeDate(o, c)))
  }

  /** The leeway in effect, in seconds. */
  function Grace(o: Options): int {
    match o.leeway
    case None => 60
    case Some(n) => if n == 0 then 60 else n
  }

  predicate IsDate(ms: int) {
    -8640000000000000 <= ms <= 8640000000000000
  }

  /** The window in plain numbers: each end, in milliseconds, counts if it is a date at all. */
  lemma WindowEnds(o: Options, c: Claims, t: int)
    requires IsNumber(At(c, "exp"))
    ensures TimeWindow(o, c).Has(t) <==>
            && (IsDate(1000 * (At(c, "exp").value.n + Grace(o))) ==> t <= 1000 * (At(c, "exp").value.n + Grace(o)))
            && (IsNumber(At(c, "nbf")) && IsDate(1000 * (At(c, "nbf").value.n - Grace(o))) ==>
                  1000 * (At(c, "nbf").value.n - Grace(o)) <= t)
            && (IsNumber(At(c, "auth_time")) && o.maxAge.Some?
                && IsDate(1000 * (At(c, "auth_time").value.n + o.maxAge.value + Grace(o))) ==>
                  t <= 1000 * (At(c, "auth_time").value.n + o.maxAge.value + Grace(o)))
  {
  }

  /** A clock reading of zero counts as none, and none means the system's. */
  lemma ZeroIsNoReading(o: Options, parse: Parser, systemNow: int, other: int)
    ensures Verify(o.(now := Some(0)), parse, systemNow) == Verify(o.(now := None), parse, systemNow)
    ensures systemNow != 0 ==>
              Verify(o.(now := None), parse, systemNow) == Verify(o.(now := Some(systemNow)), parse, other)
  {
    if Truthy(o.idToken) && Decode(o.idToken.value, parse).Some? {
      var d := Decode(o.idToken.value, parse).value;
      SameReading(o.(now := Some(0)), o.(now := None), d, systemNow, systemNow);
      if systemNow != 0 {
        SameReading(o.(now := None), o.(now := Some(systemNow)), d, systemNow, other);
      }
    }
  }

  lemma SameReading(o: Options, p: Options, d: Decoded, now: int, other: int)
    requires p == o.(now := p.now) && NonZero(o.now, now) == NonZero(p.now, other)
    ensures Judge(o, d, now) == Judge(p, d, other)
  {
    assert CheckTimes(o, d.claims, now) == CheckTimes(p, d.claims, other);
    assert CheckAudience(o, d.claims) == CheckAudience(p, d.claims);
    assert CheckNonce(o, d.claims) == CheckNonce(p, d.claims);
    assert CheckOrganization(o, d.claims) == CheckOrganization(p, d.claims);
  }

  // ----- what a rejection means -----

  /** What is wrong with a decoded token, by the error that says so. */
  predicate Violates(o: Options, d: Decoded, now: int, e: Error) {
    var c := d.claims;
    match e
    case TokenMissing => !Truthy(o.idToken)
    case Undecodable => false
    case IssuerMissing => !Holds(At(c, "iss"))
    case IssuerMismatch => Holds(At(c, "iss")) && At(c, "iss") != Some(Str(o.iss))
    case SubjectMissing => !Holds(At(d.user, "sub"))
    case BadAlgorithm => At(d.header, "alg") != Some(Str("RS256"))
    case AudienceMissing => !Holds(At(c, "aud")) || !(At(c, "aud").value.Str? || At(c, "aud").value.Arr?)
    case AudienceMismatch =>
      && Holds(At(c, "aud")) && (At(c, "aud").value.Str? || At(c, "aud").value.Arr?)
      && At(c, "aud") != Some(Str(o.aud))
      && (At(c, "aud").Some? && At(c, "aud").value.Arr? ==> Str(o.aud) !in At(c, "aud").value.items)
    case AzpMissing => Several(c) && !Holds(At(c, "azp"))
    case AzpMismatch => Several(c) && Holds(At(c, "azp")) && At(c, "azp") != Some(Str(o.aud))
    case NonceMissing => Truthy(o.nonce) && !Holds(At(c, "nonce"))
    case NonceMismatch =>
      Truthy(o.nonce) && Holds(At(c, "nonce")) && At(c, "nonce") != Some(Str(o.nonce.value))
    case AuthTimeMissing => o.maxAge.Some? && o.maxAge.value != 0 && !IsNumber(At(c, "auth_time"))
    case ExpMissing => !IsNumber(At(c, "exp"))
    case IatMissing => !IsNumber(At(c, "iat"))
    case Expired => IsNumber(At(c, "exp")) && now > 1000 * (At(c, "exp").value.n + Grace(o))
    case NotYetValid => IsNumber(At(c, "nbf")) && now < 1000 * (At(c, "nbf").value.n - Grace(o))
    case AuthTooOld =>
      IsNumber(At(c, "auth_time")) && o.maxAge.Some?
      && now > 1000 * (At(c, "auth_time").value.n + o.maxAge.value + Grace(o))
    case OrgMissing => Truthy(o.organizationId) && !Holds(At(c, "org_id"))
    case OrgMismatch =>
      Truthy(o.organizationId) && Holds(At(c, "org_id")) && At(c, "org_id") != Some(Str(o.organizationId.value))
  }

  /** The audience claim lists more than one audience. */
  predicate Several(c: Claims) {
    At(c, "aud").Some? && At(c, "aud").value.Arr? && |At(c, "aud").value.items| > 1
  }

  lemma TimesViolated(o: Options, d: Decoded, systemNow: int)
    requires CheckTimes(o, d.claims, systemNow).Some?
    ensures Violates(o, d, NonZero(o.now, systemNow), CheckTimes(o, d.claims, systemNow).value)
  {
  }

  lemma TextsViolated(o: Options, d: Decoded, now: int)
    ensures CheckAudience(o, d.claims).Some? ==> Violates(o, d, now, CheckAudience(o, d.claims).value)
    ensures CheckNonce(o, d.claims).Some? ==> Violates(o, d, now, CheckNonce(o, d.claims).value)
    ensures CheckOrganization(o, d.claims).Some? ==> Violates(o, d, now, CheckOrganization(o, d.claims).value)
  {
  }

  /** The error of a rejected token names something that is wrong with it. */
  lemma RejectionMeans(o: Options, d: Decoded, systemNow: int)
    requires Judge(o, d, systemNow).Err?
    ensures Violates(o, d, NonZero(o.now, systemNow), Judge(o, d, systemNow).error)
  {
    TextsViolated(o, d, NonZero(o.now, systemNow));
    if CheckTimes(o, d.claims, systemNow).Some? {
      TimesViolated(o, d, systemNow);
    }
  }

  lemma CheckAudienceMeans(o: Options, c: Claims)
    ensures CheckAudience(o, c).None? <==>
            || IsText(At(c, "aud"), o.aud)
            || (&& At(c, "aud").Some? && At(c, "aud").value.Arr? && Str(o.aud) in At(c, "aud").value.items
                && (|At(c, "aud").value.items| == 1 || IsText(At(c, "azp"), o.aud)))
  {
  }

  lemma CheckTimesMeans(o: Options, c: Claims, systemNow: int)
    ensures CheckTimes(o, c, systemNow).None? <==>
            && (o.maxAge.Some? && o.maxAge.value != 0 ==> IsNumber(At(c, "auth_time")))
            && IsNumber(At(c, "exp")) && IsNumber(At(c, "iat"))
            && var now := Date(NonZero(o.now, systemNow));
               (now.Some? ==> TimeWindow(o, c).Has(now.value))
  {
  }

  /** The clock reading that `verify` uses lies in the window, or beyond the range of dates. */
  predicate InTime(o: Options, c: Claims, systemNow: int)
    requires IsNumber(At(c, "exp"))
  {
    var now := Date(NonZero(o.now, systemNow));
    now.Some? ==> TimeWindow(o, c).Has(now.value)
  }

  lemma CheckMeans(o: Options, d: Decoded, systemNow: int)
    ensures Check(o, d, systemNow).None? <==>
            Matched(o, d.header, d.claims, At(d.user, "sub")) && InTime(o, d.claims, systemNow)
  {
    CheckAudienceMeans(o, d.claims);
    CheckTimesMeans(o, d.claims, systemNow);
  }

  /**
   * `verify` accepts exactly the tokens whose claims match the options and whose time window has the clock reading; a
   * reading beyond the range of dates passes every time check.
   */
  lemma AcceptsExactly(o: Options, parse: Parser, systemNow: int)
    ensures Verify(o, parse, systemNow).Ok? <==>
            && Truthy(o.idToken)
            && Decode(o.idToken.value, parse).Some?
            && var d := Decode(o.idToken.value, parse).value;
               Matched(o, d.header, d.claims, At(d.user, "sub")) && InTime(o, d.claims, systemNow)
  {
    if Truthy(o.idToken) && Decode(o.idToken.value, parse).Some? {
      CheckMeans(o, Decode(o.idToken.value, parse).value, systemNow);
    }
  }

  /** The clock reading is compared with the window, and takes part in nothing else. */
  lemma NowMatters(o: Options, header: Claims, c: Claims, sub: Option<Json>, t: int)
    ensures Matched(o.(now := Some(t)), header, c, sub) == Matched(o, header, c, sub)
    ensures IsNumber(At(c, "exp")) ==> TimeWindow(o.(now := Some(t)), c) == TimeWindow(o, c)
  {
  }

  /** For a fixed token the accepted non-zero clock values are those of one interval, or none at all. */
  lemma AcceptedTimesAreAnInterval(o: Options, parse: Parser, systemNow: int, t: int)
    requires t != 0 && -MAX_DATE <= t <= MAX_DATE
    requires Truthy(o.idToken) && Decode(o.idToken.value, parse).Some?
    ensures var d := Decode(o.idToken.value, parse).value;
            Verify(o.(now := Some(t)), parse, systemNow).Ok? <==>
            Matched(o, d.header, d.claims, At(d.user, "sub")) && TimeWindow(o, d.claims).Has(t)
  {
    AcceptsExactly(o.(now := Some(t)), parse, systemNow);
    var d := Decode(o.idToken.value, parse).value;
    NowMatters(o, d.header, d.claims, At(d.user, "sub"), t);
  }

  /** No date that bounds the window lies on the far side of the range of dates. */
  predicate DatesInReach(o: Options, c: Claims) {
    && (IsNumber(At(c, "exp")) ==> -MAX_DATE <= 1000 * (At(c, "exp").value.n + Leeway(o)))
    && (IsNumber(At(c, "nbf")) ==> 1000 * (At(c, "nbf").value.n - Leeway(o)) <= MAX_DATE)
    && (IsNumber(At(c, "auth_time")) && o.maxAge.Some? ==>
          -MAX_DATE <= 1000 * (At(c, "auth_time").value.n + o.maxAge.value + Leeway(o)))
  }

  /** More leeway accepts everything that less leeway does; a leeway of zero counts as sixty seconds. */
  lemma LeewayWidens(o: Options, wider: Option<int>, parse: Parser, systemNow: int)
    requires NonZero(wider, 60) >= Leeway(o)
    requires Truthy(o.idToken) && Decode(o.idToken.value, parse).Some? ==>
               DatesInReach(o, Decode(o.idToken.value, parse).value.claims)
    ensures Verify(o, parse, systemNow).Ok? ==>
              Verify(o.(leeway := wider), parse, systemNow) == Verify(o, parse, systemNow)
  {
    var w := o.(leeway := wider);
    AcceptsExactly(o, parse, systemNow);
    AcceptsExactly(w, parse, systemNow);
    if Verify(o, parse, systemNow).Ok? {
      var d := Decode(o.idToken.value, parse).value;
      assert Matched(w, d.header, d.claims, At(d.user, "sub"));
      var now := Date(NonZero(o.now, systemNow));
      if now.Some? {
        WindowWidens(o, wider, d.claims, now.value);
      }
    }
  }

  lemma WindowWidens(o: Options, wider: Option<int>, c: Claims, t: int)
    requires NonZero(wider, 60) >= Leeway(o) && DatesInReach(o, c) && IsNumber(At(c, "exp"))
    requires TimeWindow(o, c).Has(t)
    ensures TimeWindow(o.(leeway := wider), c).Has(t)
  {
  }

  /** The leeway that takes `date` seconds to the bound, or just past it where that leeway would be zero. */
  function LeewayTo(bound: int, seconds: int): (l: int)
    ensures l != 0
    ensures l == bound - seconds || l == bound - seconds + 1
  {
    if bound == seconds then 1 else bound - seconds
  }

  /** A bounding date out of reach can be brought back in by more leeway, at the wrong end of the range. */
  lemma OutOfReachNarrows(o: Options, c: Claims, t: int) returns (wider: Option<int>)
    requires IsNumber(At(c, "exp")) && !DatesInReach(o, c)
    requires 1000 - MAX_DATE < t < MAX_DATE - 1000
    ensures NonZero(wider, 60) >= Leeway(o) && !TimeWindow(o.(leeway := wider), c).Has(t)
  {
    var far := MAX_DATE / 1000;
    if 1000 * (At(c, "exp").value.n + Leeway(o)) < -MAX_DATE {
      wider := Some(LeewayTo(-far, At(c, "exp").value.n));
    } else if IsNumber(At(c, "nbf")) && 1000 * (At(c, "nbf").value.n - Leeway(o)) > MAX_DATE {
      wider := Some(LeewayTo(At(c, "nbf").value.n, far));
    } else {
      wider := Some(LeewayTo(-far, At(c, "auth_time").value.n + o.maxAge.value));
    }
  }

  /**
   * At any accepted clock reading but those in the outermost second of the range of dates: every larger leeway accepts
   * too if and only if no bounding date is out of reach.
   */
  lemma LeewayWidensExactly(o: Options, parse: Parser, systemNow: int)
    requires Verify(o, parse, systemNow).Ok?
    requires 1000 - MAX_DATE < NonZero(o.now, systemNow) < MAX_DATE - 1000
    ensures (forall wider :: NonZero(wider, 60) >= Leeway(o) ==> Verify(o.(leeway := wider), parse, systemNow).Ok?) <==>
            DatesInReach(o, Verify(o, parse, systemNow).value.claims)
  {
    var c := Verify(o, parse, systemNow).value.claims;
    AcceptsExactly(o, parse, systemNow);
    if DatesInReach(o, c) {
      forall wider | NonZero(wider, 60) >= Leeway(o)
        ensures Verify(o.(leeway := wider), parse, systemNow).Ok?
      {
        LeewayWidens(o, wider, parse, systemNow);
      }
    } else {
      var wider := OutOfReachNarrows(o, c, NonZero(o.now, systemNow));
      AcceptsExactly(o.(leeway := wider), parse, systemNow);
    }
  }

  lemma FarJudged(o: Options, d: Decoded, systemNow: int)
    requires o.leeway == Some(60) && o.maxAge == None && o.now == Some(1)
    requires Matched(o, d.header, d.claims, At(d.user, "sub"))
    requires At(d.claims, "exp").value.n == -MAX_DATE / 1000 - 61 && At(d.claims, "nbf") == None
    ensures Judge(o, d, systemNow) == Ok(d)
    ensures Judge(o.(leeway := Some(61)), d, systemNow) == Err(Expired)
  {
    CheckMeans(o, d, systemNow);
    CheckAudienceMeans(o, d.claims);
    CheckAudienceMeans(o.(leeway := Some(61)), d.claims);
  }

  /** Out of reach it can narrow: 60 seconds of leeway leave the expiry date invalid, one more makes it count. */
  lemma FarExpiryNarrows(o: Options, parse: Parser, systemNow: int)
    requires o.leeway == Some(60) && o.maxAge == None && o.now == Some(1)
    requires Truthy(o.idToken) && Decode(o.idToken.value, parse).Some?
    requires var d := Decode(o.idToken.value, parse).value;
             && Matched(o, d.header, d.claims, At(d.user, "sub"))
             && At(d.claims, "exp").value.n == -MAX_DATE / 1000 - 61
             && At(d.claims, "nbf") == None
    ensures Verify(o, parse, systemNow).Ok?
    ensures Verify(o.(leeway := Some(61)), parse, systemNow) == Err(Expired)
  {
    FarJudged(o, Decode(o.idToken.value, parse).value, systemNow);
  }

  lemma {:induction false} LastIs(payload: Members, k: string, i: nat)
    requires i < |payload| && payload[i].0 == k && forall j :: i < j < |payload| ==> payload[j].0 != k
    ensures Last(payload, k) == Some(payload[i].1)
  {
    if i < |payload| - 1 {
      LastIs(payload[..|payload| - 1], k, i);
    }
  }

  lemma {:induction false} LastIsNone(payload: Members, k: string)
    requires forall j :: 0 <= j < |payload| ==> payload[j].0 != k
    ensures Last(payload, k) == None
    ensures k == PROTO ==> Prototype(payload) == map[]
  {
    if payload != [] {
      LastIsNone(payload[..|payload| - 1], k);
    }
  }

  /** Members with different names, none of them setting a prototype, are all read back. */
  lemma MemberRead(token: string, payload: Members, i: nat)
    requires i < |payload| && payload[i].0 != PROTO
    requires forall j :: 0 <= j < |payload| && j != i ==> payload[j].0 != payload[i].0
    ensures At(Assigned(Raw(token), payload), payload[i].0) == Some(payload[i].1)
  {
    LastIs(payload, payload[i].0, i);
    ClaimsMember(Raw(token).own, payload, payload[i].0);
  }

  lemma MemberAbsent(token: string, payload: Members, k: string)
    requires k != PROTO && k != "__raw" && forall j :: 0 <= j < |payload| ==> payload[j].0 != k && payload[j].0 != PROTO
    ensures At(Assigned(Raw(token), payload), k) == None
  {
    LastIsNone(payload, k);
    LastIsNone(payload, PROTO);
    ClaimsMember(Raw(token).own, payload, k);
  }

  predicate Named(payload: Members, names: seq<string>) {
    |payload| == |names| && forall i :: 0 <= i < |names| ==> payload[i].0 == names[i]
  }

  predicate Distinct(names: seq<string>) {
    PROTO !in names && forall i, j :: 0 <= i < j < |names| ==> names[i] != names[j]
  }

  lemma NamedRead(token: string, payload: Members, names: seq<string>, absent: string)
    requires Named(payload, names) && Distinct(names + [absent]) && absent != "__raw"
    ensures forall i :: 0 <= i < |names| ==> At(Assigned(Raw(token), payload), names[i]) == Some(payload[i].1)
    ensures At(Assigned(Raw(token), payload), absent) == None
  {
    assert forall i :: 0 <= i < |names| ==> (names + [absent])[i] == names[i];
    assert (names + [absent])[|names|] == absent;
    forall i | 0 <= i < |names|
      ensures At(Assigned(Raw(token), payload), names[i]) == Some(payload[i].1)
    {
      MemberRead(token, payload, i);
    }
    MemberAbsent(token, payload, absent);
  }

  lemma FarClaims(token: string, payload: Members)
    requires Named(payload, ["iss", "sub", "aud", "iat", "exp"])
    ensures var c := Assigned(Raw(token), payload);
            && At(c, "iss") == Some(payload[0].1) && At(c, "aud") == Some(payload[2].1)
            && At(c, "iat") == Some(payload[3].1) && At(c, "exp") == Some(payload[4].1)
            && At(c, "nbf") == None
  {
    var names := ["iss", "sub", "aud", "iat", "exp"];
    assert names + ["nbf"] == ["iss", "sub", "aud", "iat", "exp", "nbf"];
    NamedRead(token, payload, names, "nbf");
    assert names[0] == "iss" && names[2] == "aud" && names[3] == "iat" && names[4] == "exp";
  }

  lemma SubjectUnregistered()
    ensures "sub" !in REGISTERED
  {
  }

  lemma FarSubject(payload: Members)
    requires Named(payload, ["iss", "sub", "aud", "iat", "exp"])
    ensures At(User(payload), "sub") == Some(payload[1].1)
  {
    LastIs(payload, "sub", 1);
    SubjectUnregistered();
    UserMember(payload, "sub");
  }

  lemma FarClaimsMatch(o: Options, token: string, payload: Members, header: Claims)
    requires Named(payload, ["iss", "sub", "aud", "iat", "exp"]) && At(header, "alg") == Some(Str("RS256"))
    requires payload[0].1 == Str(o.iss) && payload[1].1 == Str("u") && payload[2].1 == Str(o.aud)
    requires payload[3].1 == Num(0) && payload[4].1.Num?
    requires o.iss != "" && o.aud != "" && o.nonce == None && o.organizationId == None && o.maxAge == None
    ensures Matched(o, header, Assigned(Raw(token), payload), At(User(payload), "sub"))
  {
    FarClaims(token, payload);
    FarSubject(payload);
  }

  /** What is decoded from these members. */
  function DecodedFrom(token: string, header: Members, payload: Members): Decoded {
    Decoded(Parsed(header), Assigned(Raw(token), payload), User(payload))
  }

  lemma FarDecoded(o: Options, token: string, header: Members, payload: Members)
    requires header == [("alg", Str("RS256"))]
    requires o.leeway == Some(60) && o.maxAge == None && o.nonce == None && o.organizationId == None
    requires o.iss != "" && o.aud != ""
    requires Named(payload, ["iss", "sub", "aud", "iat", "exp"])
    requires payload[0].1 == Str(o.iss) && payload[1].1 == Str("u") && payload[2].1 == Str(o.aud)
    requires payload[3].1 == Num(0) && payload[4].1 == Num(-8640000000061)
    ensures var d := DecodedFrom(token, header, payload);
            && Matched(o, d.header, d.claims, At(d.user, "sub"))
            && At(d.claims, "exp") == Some(payload[4].1) && At(d.claims, "nbf") == None
            && !DatesInReach(o, d.claims)
  {
    LastIs(header, "alg", 0);
    FarClaims(token, payload);
    FarClaimsMatch(o, token, payload, Parsed(header));
  }

  /** Such tokens exist, around any two texts. */
  lemma FarDatesNarrow(h: string, p: string) returns (o: Options, parse: Parser)
    requires IsPart(h) && IsPart(p) && h != p
    ensures o.idToken == Some(Token(h, p, "s"))
    ensures Verify(o, parse, 1).Ok? && !DatesInReach(o, Verify(o, parse, 1).value.claims)
    ensures Verify(o.(leeway := Some(61)), parse, 1) == Err(Expired)
  {
    var header: Members := [("alg", Str("RS256"))];
    var payload := FarPayload();
    var token := Token(h, p, "s");
    o := Options("i", "a", Some(token), None, None, None, Some(60), Some(1));
    parse := text => if text == h then Some(header) else Some(payload);
    DecodesEncoded(h, p, "s", parse);
    FarDecoded(o, token, header, payload);
    FarAccepted(o, parse, token, DecodedFrom(token, header, payload));
  }

  lemma FarPayload() returns (payload: Members)
    ensures Named(payload, ["iss", "sub", "aud", "iat", "exp"])
    ensures payload[0].1 == Str("i") && payload[1].1 == Str("u") && payload[2].1 == Str("a")
    ensures payload[3].1 == Num(0) && payload[4].1 == Num(-8640000000061)
  {
    payload := [("iss", Str("i")), ("sub", Str("u")), ("aud", Str("a")), ("iat", Num(0)),
                ("exp", Num(-8640000000061))];
  }

  lemma FarAccepted(o: Options, parse: Parser, token: string, d: Decoded)
    requires o.idToken == Some(token) && token != "" && Decode(token, parse) == Some(d)
    requires o.leeway == Some(60) && o.maxAge == None && o.now == Some(1)
    requires Matched(o, d.header, d.claims, At(d.user, "sub")) && !DatesInReach(o, d.claims)
    requires At(d.claims, "exp") == Some(Num(-8640000000061)) && At(d.claims, "nbf") == None
    ensures Verify(o, parse, 1) == Ok(d) && Verify(o.(leeway := Some(61)), parse, 1) == Err(Expired)
  {
    FarJudged(o, d, 1);
  }

  // ----- claims from a prototype -----

  /** The two read alike under every name but those that `decode` itself gives a meaning. */
  ghost predicate Alike(c: Claims, d: Claims) {
    forall k :: k != PROTO && k != "__raw" ==> At(c, k) == At(d, k)
  }

  lemma AlikeTimes(o: Options, c: Claims, d: Claims, systemNow: int)
    requires Alike(c, d)
    ensures CheckTimes(o, c, systemNow) == CheckTimes(o, d, systemNow)
  {
    assert At(c, "auth_time") == At(d, "auth_time") && At(c, "nbf") == At(d, "nbf");
    assert At(c, "exp") == At(d, "exp") && At(c, "iat") == At(d, "iat");
  }

  lemma AlikeTexts(o: Options, c: Claims, d: Claims)
    requires Alike(c, d)
    ensures CheckAudience(o, c) == CheckAudience(o, d)
    ensures CheckNonce(o, c) == CheckNonce(o, d)
    ensures CheckOrganization(o, c) == CheckOrganization(o, d)
  {
    assert At(c, "aud") == At(d, "aud") && At(c, "azp") == At(d, "azp");
    assert At(c, "nonce") == At(d, "nonce") && At(c, "org_id") == At(d, "org_id");
  }

  lemma AlikeChecks(o: Options, d: Decoded, e: Decoded, systemNow: int)
    requires d.header == e.header && Alike(d.claims, e.claims) && Alike(d.user, e.user)
    ensures Check(o, d, systemNow) == Check(o, e, systemNow)
  {
    AlikeTimes(o, d.claims, e.claims, systemNow);
    AlikeTexts(o, d.claims, e.claims);
    assert At(d.claims, "iss") == At(e.claims, "iss") && At(d.user, "sub") == At(e.user, "sub");
  }

  /** Claims and subject may all come from a prototype: `verify` judges them as if they were the token's own. */
  lemma ClaimsFromPrototype(o: Options, token: string, header: Claims, members: map<string, Json>, systemNow: int)
    ensures var payload := [(PROTO, Obj(members))];
            var own := Claims(members, map[]);
            Check(o, Decoded(header, Assigned(Raw(token), payload), User(payload)), systemNow) ==
            Check(o, Decoded(header, own, own), systemNow)
  {
    LonePrototype(token, [(PROTO, Obj(members))], members);
    var own := Claims(members, map[]);
    AlikeChecks(o, Decoded(header, Assigned(Raw(token), [(PROTO, Obj(members))]), User([(PROTO, Obj(members))])),
      Decoded(header, own, own), systemNow);
  }

  lemma LonePrototype(token: string, payload: Members, members: map<string, Json>)
    requires payload == [(PROTO, Obj(members))]
    ensures Alike(Assigned(Raw(token), payload), Claims(members, map[]))
    ensures Alike(User(payload), Claims(members, map[]))
  {
    forall k | k != PROTO && k != "__raw"
      ensures At(Assigned(Raw(token), payload), k) == At(Claims(members, map[]), k) == At(User(payload), k)
    {
      LastIsNone(payload, k);
      ClaimsMember(Raw(token).own, payload, k);
      UserMember(payload, k);
    }
  }
}
