/**
 * The v2 handler of token-validator: an ordered chain of checks on a bearer token.
 *
 * Base64, JSON, signatures and the clock are an oracle; which segment is decoded, which key is
 * asked for, and in what order the checks fall, is modelled.
 */
module TokenValidator {
  import opened Common
  import Jwks

  datatype Json = Str(s: string) | Arr(items: seq<Json>) | OtherValue

  type Claims = map<string, Json>

  /** The decoded header; a missing or non-string field reads as "". */
  datatype Header = Header(alg: string, kid: string)

  datatype Timing = Timely | TooLate | TooEarly | BadTimes

  datatype Oracle = Oracle(
    header: string -> Option<Header>,             // of a token segment
    payload: string -> Option<Claims>,
    signature: string -> bool,                    // the third segment decodes
    signed: (string, Jwks.PublicKey) -> bool,     // the token carries a valid signature under the key
    signedByTestSecret: string -> bool,
    timing: Claims -> Timing)                     // exp and nbf against the clock, with the leeway

  datatype Failure =
    | MissingToken | OversizedToken | InvalidToken | DisallowedAlgorithm | UnknownIssuer
    | JwksUnavailable | TokenExpired | TokenNotYetValid | AudienceMismatch | RequiredClaimMissing(name: string)

  datatype Outcome = Accepted(claims: Claims) | Rejected(why: Failure)

  datatype Settings = Settings(
    testMode: bool,
    algorithms: seq<string>,
    audiences: seq<string>,
    requiredClaims: seq<string>,
    tokenHeader: string,
    tokenScheme: string,
    maxTokenBytes: nat)

  /** One configured issuer with the cache of its JWKS validator. */
  datatype Issuer = Issuer(name: string, ttl: int, cache: Jwks.Cache)

  /** What the key lookup of this request meets: the clock, the endpoint, and the store time. */
  datatype Network = Network(now: int, fetch: Jwks.Fetch, stored: int)

  // ----- strings -----

  /** The first two dots split a token in three; what follows may contain more dots. */
  function Segments(token: string): Option<(string, string, string)> {
    match Cut(token, '.')
    case None => None
    case Some(p) =>
      match Cut(p.1, '.')
      case None => None
      case Some(q) => Some((p.0, q.0, q.1))
  }

  function PeekAlgorithm(o: Oracle, token: string): string {
    match Segments(token)
    case None => ""
    case Some(t) => if o.header(t.0).Some? then o.header(t.0).value.alg else ""
  }

  function IssuerOf(claims: Claims): string {
    if "iss" in claims && claims["iss"].Str? then claims["iss"].s else ""
  }

  function PeekIssuer(o: Oracle, token: string): string {
    match Segments(token)
    case None => ""
    case Some(t) => if o.payload(t.1).Some? then IssuerOf(o.payload(t.1).value) else ""
  }

  function TokenOf(st: Settings, fields: map<string, string>): Option<string> {
    if st.tokenHeader !in fields || fields[st.tokenHeader] == "" then None
    else
      var val := fields[st.tokenHeader];
      if st.tokenScheme == "" then Some(val)
      else
        var prefix := st.tokenScheme + " ";
        if prefix <= val && |val| > |prefix| then Some(val[|prefix|..]) else None
  }

  // ----- the loops -----

  function LastWildcard(names: seq<string>): (r: Option<nat>)
    ensures match r
            case None => forall j :: 0 <= j < |names| ==> names[j] != ""
            case Some(i) => i < |names| && names[i] == "" && forall j :: i < j < |names| ==> names[j] != ""
  {
    if |names| == 0 then None
    else if names[|names| - 1] == "" then Some(|names| - 1)
    else LastWildcard(names[..|names| - 1])
  }

  function First(names: seq<string>, iss: string): (r: Option<nat>)
    ensures match r
            case None => forall j :: 0 <= j < |names| ==> names[j] != iss
            case Some(i) => i < |names| && names[i] == iss && forall j :: 0 <= j < i ==> names[j] != iss
  {
    if |names| == 0 then None
    else if names[0] == iss then Some(0)
    else match First(names[1..], iss)
      case None => None
      case Some(i) => Some(i + 1)
  }

  function Chosen(names: seq<string>, iss: string): Option<nat> {
    if First(names, iss).Some? then First(names, iss) else LastWildcard(names)
  }

  lemma FirstIs(names: seq<string>, iss: string, i: nat)
    requires i < |names| && names[i] == iss && forall j :: 0 <= j < i ==> names[j] != iss
    ensures First(names, iss) == Some(i)
  {}

  lemma NoneIs(names: seq<string>, iss: string)
    requires forall j :: 0 <= j < |names| ==> names[j] != iss
    ensures First(names, iss).None?
  {}

  /** The entry for `iss`: the first that names it, or else the last that names nobody. */
  method FindValidator(names: seq<string>, iss: string) returns (r: Option<nat>)
    ensures r == Chosen(names, iss)
  {
    r := None;
    for i := 0 to |names|
      invariant forall j :: 0 <= j < i ==> names[j] != iss
      invariant r == LastWildcard(names[..i])
    {
      assert names[..i + 1][..i] == names[..i];
      if names[i] == iss {
        FirstIs(names, iss, i);
        return Some(i);
      }
      if names[i] == "" {
        r := Some(i);
      }
    }
    assert names[..|names|] == names;
    NoneIs(names, iss);
  }

  method Contains(xs: seq<string>, x: string) returns (found: bool)
    ensures found <==> x in xs
  {
    for i := 0 to |xs|
      invariant x !in xs[..i]
    {
      if xs[i] == x {
        return true;
      }
    }
    return false;
  }

  /** The token is meant for `aud`: its aud claim is that string or an array containing it (RFC 7519, section 4.1.3). */
  predicate MeantFor(claims: Claims, aud: string) {
    "aud" in claims &&
    (claims["aud"] == Str(aud) || (claims["aud"].Arr? && Str(aud) in claims["aud"].items))
  }

  method CheckAudiences(claims: Claims, audiences: seq<string>) returns (ok: bool)
    ensures ok <==> exists a :: a in audiences && MeantFor(claims, a)
    ensures ok <==> exists a :: a in audiences && "aud" in claims &&
                      (claims["aud"] == Str(a) || (claims["aud"].Arr? && Str(a) in claims["aud"].items))
  {
    if "aud" !in claims {
      return false;
    }
    var aud := claims["aud"];
    var tokenAuds: seq<string> := [];
    if aud.Str? {
      tokenAuds := [aud.s];
    } else if aud.Arr? {
      for i := 0 to |aud.items|
        invariant forall a :: a in tokenAuds <==> Str(a) in aud.items[..i]
      {
        if aud.items[i].Str? {
          tokenAuds := tokenAuds + [aud.items[i].s];
        }
      }
    }
    assert forall a :: a in tokenAuds <==> MeantFor(claims, a);
    for i := 0 to |tokenAuds|
      invariant forall j :: 0 <= j < i ==> tokenAuds[j] !in audiences
    {
      var found := Contains(audiences, tokenAuds[i]);
      if found {
        return true;
      }
    }
    return false;
  }

  /** The claim is there and is not the empty string. */
  predicate Present(claims: Claims, name: string) {
    name in claims && claims[name] != Str("")
  }

  function FirstMissing(claims: Claims, required: seq<string>): (r: Option<string>)
    ensures r.None? <==> forall n :: n in required ==> Present(claims, n)
    ensures r.Some? ==> r.value in required && !Present(claims, r.value)
  {
    if |required| == 0 then None
    else if !Present(claims, required[0]) then Some(required[0])
    else FirstMissing(claims, required[1..])
  }

  /** The first missing name, with "" for none: a required claim named "" cannot be told from none. */
  method CheckRequiredClaims(claims: Claims, required: seq<string>) returns (missing: string)
    ensures missing == if FirstMissing(claims, required).Some? then FirstMissing(claims, required).value else ""
    ensures missing != "" ==> missing in required && (missing !in claims || claims[missing] == Str(""))
    ensures missing == "" && "" !in required ==> forall n :: n in required ==> n in claims && claims[n] != Str("")
  {
    for i := 0 to |required|
      invariant FirstMissing(claims, required) == FirstMissing(claims, required[i..])
    {
      var name := required[i];
      if name !in claims {
        return name;
      }
      if claims[name] == Str("") {
        return name;
      }
    }
    return "";
  }

  // ----- verification -----

  datatype Verified = Good(claims: Claims) | Bad(why: Failure)

  predicate IsRsa(alg: string) {
    alg == "RS256" || alg == "RS384" || alg == "RS512"
  }

  function CheckTimes(o: Oracle, claims: Claims): Verified {
    match o.timing(claims)
    case Timely => Good(claims)
    case TooLate => Bad(TokenExpired)
    case TooEarly => Bad(TokenNotYetValid)
    case BadTimes => Bad(InvalidToken)
  }

  /** The library accepts exactly three segments that decode, and checks all three before it asks for a key. */
  function Decode(o: Oracle, token: string): Option<(Header, Claims)> {
    match Segments(token)
    case None => None
    case Some(t) =>
      if '.' in t.2 || o.header(t.0).None? || o.payload(t.1).None? || !o.signature(t.2) then None
      else Some((o.header(t.0).value, o.payload(t.1).value))
  }

  /** The kid that verification asks a key for, once the token decodes and its algorithm is accepted. */
  function KidAsked(o: Oracle, algorithms: seq<string>, token: string): Option<string> {
    match Decode(o, token)
    case None => None
    case Some(d) => if d.0.alg !in algorithms || !IsRsa(d.0.alg) then None else Some(d.0.kid)
  }

  /** What becomes of a token whose key lookup got `answer`: the signature, then the times. */
  function Judge(o: Oracle, token: string, answer: Jwks.Answer): Verified
    requires Decode(o, token).Some?
  {
    match answer
    case Unavailable => Bad(JwksUnavailable)
    case Key(k) => if o.signed(token, k) then CheckTimes(o, Decode(o, token).value.1) else Bad(InvalidToken)
    case _ => Bad(InvalidToken)
  }

  /** `validateWith` for whatever the key lookup answers, by kid. */
  function VerifyWith(o: Oracle, algorithms: seq<string>, token: string, answer: string -> Jwks.Answer): Verified {
    match KidAsked(o, algorithms, token)
    case None => Bad(InvalidToken)
    case Some(kid) => Judge(o, token, answer(kid))
  }

  function Asked(net: Network, kid: string): Jwks.Call {
    Jwks.Call(kid, net.now, net.fetch, net.stored)
  }

  /** `validateWith` with a key lookup that nothing interrupts. */
  function Verify(o: Oracle, algorithms: seq<string>, ttl: int, c: Jwks.Cache, token: string, net: Network):
    (Jwks.Cache, Verified) {
    match KidAsked(o, algorithms, token)
    case None => (c, Bad(InvalidToken))
    case Some(kid) =>
      var (c', answer) := Jwks.PluginStep(ttl, c, Asked(net, kid));
      (c', Judge(o, token, answer))
  }

  /** The HS256 test mode. */
  function VerifyTest(o: Oracle, token: string): Verified {
    match Decode(o, token)
    case None => Bad(InvalidToken)
    case Some(d) =>
      if d.0.alg != "HS256" || !o.signedByTestSecret(token) then Bad(InvalidToken) else CheckTimes(o, d.1)
  }

  function FinalChecks(st: Settings, claims: Claims): Outcome {
    var missing := FirstMissing(claims, st.requiredClaims);
    if st.audiences != [] && !(exists a :: a in st.audiences && MeantFor(claims, a)) then Rejected(AudienceMismatch)
    else if missing.Some? && missing.value != "" then Rejected(RequiredClaimMissing(missing.value))
    else Accepted(claims)
  }

  function Conclude(st: Settings, v: Verified): Outcome {
    match v
    case Bad(why) => Rejected(why)
    case Good(claims) => FinalChecks(st, claims)
  }

  function Names(pool: seq<Issuer>): (r: seq<string>)
    ensures |r| == |pool| && forall i :: 0 <= i < |r| ==> r[i] == pool[i].name
  {
    seq(|pool|, i requires 0 <= i < |pool| => pool[i].name)
  }

  /** The checks before verification: an outcome already, or the token and the issuer entry that serves it. */
  function Precheck(st: Settings, o: Oracle, fields: map<string, string>, names: seq<string>):
    (r: Result<(nat, string), Outcome>)
    ensures r.Ok? ==> r.value.0 < |names|
  {
    var t := TokenOf(st, fields);
    if t.None? then Err(Rejected(MissingToken))
    else if st.maxTokenBytes > 0 && |t.value| > st.maxTokenBytes then Err(Rejected(OversizedToken))
    else if st.testMode then Err(Conclude(st, VerifyTest(o, t.value)))
    else
      var token, alg := t.value, PeekAlgorithm(o, t.value);
      if alg == "" then Err(Rejected(InvalidToken))
      else if alg !in st.algorithms then Err(Rejected(DisallowedAlgorithm))
      else match Chosen(names, PeekIssuer(o, token))
        case None => Err(Rejected(UnknownIssuer))
        case Some(i) => Ok((i, token))
  }

  /** The handler's answer for whatever the key lookups answer, by issuer entry and kid. */
  function DecideWith(st: Settings, o: Oracle, fields: map<string, string>, names: seq<string>,
                      answer: (nat, string) -> Jwks.Answer): Outcome {
    match Precheck(st, o, fields, names)
    case Err(outcome) => outcome
    case Ok((i, token)) => Conclude(st, VerifyWith(o, st.algorithms, token, kid => answer(i, kid)))
  }

  /** The handler's answer when nothing interrupts it, and the issuers' caches after it. */
  function Decide(st: Settings, o: Oracle, fields: map<string, string>, pool: seq<Issuer>, net: Network):
    (seq<Issuer>, Outcome) {
    match Precheck(st, o, fields, Names(pool))
    case Err(outcome) => (pool, outcome)
    case Ok((i, token)) =>
      var (c, v) := Verify(o, st.algorithms, pool[i].ttl, pool[i].cache, token, net);
      (pool[i := pool[i].(cache := c)], Conclude(st, v))
  }

  /** The plugin object in v2 mode: each issuer has a validator of its own. */
  class Plugin {
    const st: Settings
    const names: seq<string>
    const validators: seq<Jwks.Validator>

    constructor (st: Settings, names: seq<string>, validators: seq<Jwks.Validator>)
      requires |names| == |validators| && Injective(validators)
      ensures Valid()
      ensures this.st == st && this.names == names && this.validators == validators
    {
      this.st, this.names, this.validators := st, names, validators;
    }

    ghost predicate Valid() {
      |names| == |validators| && Injective(validators)
    }

    ghost function Pool(): (r: seq<Issuer>)
      requires Valid()
      reads validators
      ensures |r| == |names|
      ensures forall i :: 0 <= i < |r| ==> r[i] == Issuer(names[i], validators[i].ttl, validators[i].State())
    {
      seq(|names|, i requires 0 <= i < |names| && Valid() reads validators =>
        Issuer(names[i], validators[i].ttl, validators[i].State()))
    }

    method ValidateWith(v: Jwks.Validator, o: Oracle, token: string, net: Network) returns (r: Verified)
      modifies v
      ensures (v.State(), r) == Verify(o, st.algorithms, v.ttl, old(v.State()), token, net)
    {
      var d := Decode(o, token);
      if d.None? {
        return Bad(InvalidToken);
      }
      var (h, claims) := d.value;
      var allowed := Contains(st.algorithms, h.alg);
      if !allowed || !IsRsa(h.alg) {
        return Bad(InvalidToken);
      }
      var answer := v.GetKey(Jwks.Call(h.kid, net.now, net.fetch, net.stored));
      match answer
      case Unavailable => return Bad(JwksUnavailable);
      case Key(k) =>
        if !o.signed(token, k) {
          return Bad(InvalidToken);
        }
        return CheckTimes(o, claims);
      case RefreshFailed => return Bad(InvalidToken);
      case UnknownKid => return Bad(InvalidToken);
    }

    method Finish(v: Verified) returns (r: Outcome)
      ensures r == Conclude(st, v)
    {
      if v.Bad? {
        return Rejected(v.why);
      }
      if |st.audiences| > 0 {
        var meant := CheckAudiences(v.claims, st.audiences);
        if !meant {
          return Rejected(AudienceMismatch);
        }
      }
      var missing := CheckRequiredClaims(v.claims, st.requiredClaims);
      if missing != "" {
        return Rejected(RequiredClaimMissing(missing));
      }
      return Accepted(v.claims);
    }

    method HandleV2(o: Oracle, fields: map<string, string>, net: Network) returns (r: Outcome)
      requires Valid()
      modifies validators
      ensures (Pool(), r) == Decide(st, o, fields, old(Pool()), net)
    {
      ghost var pool := Pool();
      assert Names(pool) == names;
      var t := TokenOf(st, fields);
      if t.None? {
        return Rejected(MissingToken);
      }
      var token := t.value;
      if st.maxTokenBytes > 0 && |token| > st.maxTokenBytes {
        return Rejected(OversizedToken);
      }
      if st.testMode {
        r := Finish(VerifyTest(o, token));
        return;
      }
      var alg := PeekAlgorithm(o, token);
      if alg == "" {
        return Rejected(InvalidToken);
      }
      var allowed := Contains(st.algorithms, alg);
      if !allowed {
        return Rejected(DisallowedAlgorithm);
      }
      var chosen := FindValidator(names, PeekIssuer(o, token));
      if chosen.None? {
        return Rejected(UnknownIssuer);
      }
      var i := chosen.value;
      var v := ValidateWith(validators[i], o, token, net);
      assert Pool() == pool[i := pool[i].(cache := validators[i].State())];
      r := Finish(v);
    }
  }
}
