/**
 * What the ordered checks of token-validator's v2 handler amount to. The key lookup's answers are
 * part of the request, so everything here holds however other requests interleave with it; the
 * last section says what the answers are when nothing does, and where accepted keys come from.
 */
module TokenDecisions {
  import opened Common
  import Jwks
  import JwksProtocol
  import JwksRuns
  import opened TokenValidator

  /** A request as the handler meets it: the issuer entries by name, and what each answers for a kid. */
  datatype Request = Request(
    st: Settings,
    o: Oracle,
    fields: map<string, string>,
    names: seq<string>,
    answer: (nat, string) -> Jwks.Answer)

  /** A token taken apart: its segments, its header, the issuer entry that serves it and the key it has there. */
  datatype Parts = Parts(token: string, h: string, p: string, s: string, header: Header, i: nat, key: Jwks.PublicKey)

  function Verdict(r: Request): Outcome {
    DecideWith(r.st, r.o, r.fields, r.names, r.answer)
  }

  // ----- the checks, one by one -----

  /** The request carries `token` in the configured header, behind the configured scheme. */
  ghost predicate Carries(r: Request, token: string) {
    && token != "" && r.st.tokenHeader in r.fields
    && r.fields[r.st.tokenHeader] == if r.st.tokenScheme == "" then token else r.st.tokenScheme + " " + token
  }

  lemma CarriesIff(r: Request, token: string)
    ensures TokenOf(r.st, r.fields) == Some(token) <==> Carries(r, token)
  {
    var prefix := r.st.tokenScheme + " ";
    if Carries(r, token) && r.st.tokenScheme != "" {
      assert r.fields[r.st.tokenHeader] == prefix + token;
      assert r.fields[r.st.tokenHeader][|prefix|..] == token;
    }
    if TokenOf(r.st, r.fields) == Some(token) && r.st.tokenScheme != "" {
      assert r.fields[r.st.tokenHeader] == prefix + r.fields[r.st.tokenHeader][|prefix|..];
    }
  }

  ghost predicate Fits(r: Request, token: string) {
    Carries(r, token) && (r.st.maxTokenBytes == 0 || |token| <= r.st.maxTokenBytes)
  }

  /** Outside test mode, the request carries a token that fits and whose header names an algorithm. */
  ghost predicate Peeked(r: Request, token: string) {
    !r.st.testMode && Fits(r, token) && PeekAlgorithm(r.o, token) != ""
  }

  ghost predicate Allowed(r: Request, token: string) {
    Peeked(r, token) && PeekAlgorithm(r.o, token) in r.st.algorithms
  }

  /** Three segments without dots, in the only way there is. */
  lemma SegmentsIff(token: string, h: string, p: string, s: string)
    ensures Segments(token) == Some((h, p, s)) && '.' !in s <==>
            token == h + "." + p + "." + s && '.' !in h && '.' !in p && '.' !in s
  {
    if token == h + "." + p + "." + s && '.' !in h && '.' !in p && '.' !in s {
      assert token == h + ['.'] + (p + "." + s);
      CutIs(token, h, '.', p + "." + s);
      assert p + "." + s == p + ['.'] + s;
      CutIs(p + "." + s, p, '.', s);
    }
  }

  lemma SegmentsOf(h: string, p: string, rest: string)
    requires '.' !in h && '.' !in p
    ensures Segments(h + "." + p + "." + rest) == Some((h, p, rest))
  {
    var token := h + "." + p + "." + rest;
    assert token == h + ['.'] + (p + "." + rest);
    CutIs(token, h, '.', p + "." + rest);
    assert p + "." + rest == p + ['.'] + rest;
    CutIs(p + "." + rest, p, '.', rest);
  }

  /**
   * What the handler peeks at before verification, in a token of at least three segments: the
   * algorithm of the decoded first segment, and the iss of the decoded second one if it is a
   * string; "" wherever something does not decode or is missing.
   */
  lemma PeeksAre(o: Oracle, h: string, p: string, rest: string)
    requires '.' !in h && '.' !in p
    ensures var token := h + "." + p + "." + rest;
      && PeekAlgorithm(o, token) == (if o.header(h).Some? then o.header(h).value.alg else "")
      && PeekIssuer(o, token) == (if o.payload(p).Some? then IssuerOf(o.payload(p).value) else "")
  {
    SegmentsOf(h, p, rest);
  }

  /** Where they find anything, the token has three segments. */
  lemma PeeksSomething(o: Oracle, token: string) returns (h: string, p: string, rest: string)
    requires PeekAlgorithm(o, token) != "" || PeekIssuer(o, token) != ""
    ensures token == h + "." + p + "." + rest && '.' !in h && '.' !in p
  {
    h, p, rest := Segments(token).value.0, Segments(token).value.1, Segments(token).value.2;
  }

  lemma IssuerIs(claims: Claims, iss: string)
    ensures iss != "" ==> (IssuerOf(claims) == iss <==> "iss" in claims && claims["iss"] == Str(iss))
    ensures IssuerOf(claims) == "" <==> "iss" !in claims || !claims["iss"].Str? || claims["iss"] == Str("")
  {}

  /** A token decodes iff it has exactly three segments and each of them does. */
  lemma DecodeIff(o: Oracle, token: string, header: Header, claims: Claims)
    ensures Decode(o, token) == Some((header, claims)) <==>
            exists h, p, s :: token == h + "." + p + "." + s && '.' !in h && '.' !in p && '.' !in s
              && o.header(h) == Some(header) && o.payload(p) == Some(claims) && o.signature(s)
  {
    if Decode(o, token) == Some((header, claims)) {
      var (h, p, s) := Segments(token).value;
      SegmentsIff(token, h, p, s);
    }
    if h, p, s :| token == h + "." + p + "." + s && '.' !in h && '.' !in p && '.' !in s
                  && o.header(h) == Some(header) && o.payload(p) == Some(claims) && o.signature(s) {
      SegmentsIff(token, h, p, s);
    }
  }

  /** A key is asked for exactly when the token decodes and names an allow-listed RSA algorithm, and for its kid. */
  lemma KidAskedIff(o: Oracle, algorithms: seq<string>, token: string, kid: string)
    ensures KidAsked(o, algorithms, token) == Some(kid) <==>
            && Decode(o, token).Some? && Decode(o, token).value.0.kid == kid
            && Decode(o, token).value.0.alg in algorithms
            && Decode(o, token).value.0.alg in {"RS256", "RS384", "RS512"}
  {}

  /** Entry `i` serves issuer `iss`: the first that names it, or, if none does, the last that names nobody. */
  ghost predicate Serves(names: seq<string>, iss: string, i: nat) {
    && i < |names|
    && if iss in names
       then names[i] == iss && forall j :: 0 <= j < i ==> names[j] != iss
       else names[i] == "" && forall j :: i < j < |names| ==> names[j] != ""
  }

  lemma ServesIff(names: seq<string>, iss: string, i: nat)
    ensures Chosen(names, iss) == Some(i) <==> Serves(names, iss, i)
    ensures Serves(names, iss, i) ==> i < |names|
    ensures Chosen(names, iss).None? <==> iss !in names && "" !in names
  {}

  /** A decodable RSA token gets as far as the key lookup, which has no key at all. */
  ghost predicate NoKeys(r: Request, token: string, i: nat) {
    && Allowed(r, token) && Serves(r.names, PeekIssuer(r.o, token), i)
    && Decode(r.o, token).Some? && Decode(r.o, token).value.0.alg in {"RS256", "RS384", "RS512"}
    && r.answer(i, Decode(r.o, token).value.0.kid) == Jwks.Unavailable
  }

  /** The token verifies: in test mode under the secret, else under the key its issuer's entry has for its kid. */
  ghost predicate Signed(r: Request, claims: Claims, t: Parts) {
    if r.st.testMode then t.header.alg == "HS256" && r.o.signedByTestSecret(t.token)
    else
      && t.header.alg in r.st.algorithms && t.header.alg in {"RS256", "RS384", "RS512"}
      && Serves(r.names, IssuerOf(claims), t.i)
      && r.answer(t.i, t.header.kid) == Jwks.Key(t.key)
      && r.o.signed(t.token, t.key)
  }

  /** The request carries a token of three decodable segments that fits, verifies and says `claims`. */
  ghost predicate Authentic(r: Request, claims: Claims, t: Parts) {
    && Fits(r, t.token)
    && t.token == t.h + "." + t.p + "." + t.s && '.' !in t.h && '.' !in t.p && '.' !in t.s
    && r.o.header(t.h) == Some(t.header) && r.o.payload(t.p) == Some(claims) && r.o.signature(t.s)
    && Signed(r, claims, t)
  }

  ghost predicate IsAuthentic(r: Request, claims: Claims) {
    exists t :: Authentic(r, claims, t)
  }

  /** The audiences admit the token: none is configured, or it is meant for one of them. */
  ghost predicate Meant(st: Settings, claims: Claims) {
    st.audiences == [] || exists a :: a in st.audiences && MeantFor(claims, a)
  }

  /** The name at `k` is required and not present, and every claim required before it is present. */
  ghost predicate MissingAt(claims: Claims, required: seq<string>, name: string, k: nat) {
    && k < |required| && required[k] == name && !Present(claims, name)
    && forall l :: 0 <= l < k ==> Present(claims, required[l])
  }

  ghost predicate IsFirstMissing(claims: Claims, required: seq<string>, name: string) {
    exists k: nat :: MissingAt(claims, required, name, k)
  }

  lemma {:induction false} FirstMissingIs(claims: Claims, required: seq<string>, name: string)
    ensures FirstMissing(claims, required) == Some(name) <==> IsFirstMissing(claims, required, name)
  {
    if |required| > 0 && Present(claims, required[0]) {
      var rest := required[1..];
      FirstMissingIs(claims, rest, name);
      if k: nat :| MissingAt(claims, rest, name, k) {
        assert forall l :: 1 <= l < k + 1 ==> required[l] == rest[l - 1];
        assert MissingAt(claims, required, name, k + 1);
      }
      if k: nat :| MissingAt(claims, required, name, k) {
        assert forall l :: 0 <= l < k - 1 ==> rest[l] == required[l + 1];
        assert MissingAt(claims, rest, name, k - 1);
      }
    } else if |required| > 0 {
      assert MissingAt(claims, required, required[0], 0);
    }
  }

  /** The required-claims check lets the claims through: nothing it could name is the first to be missing. */
  ghost predicate Passes(claims: Claims, required: seq<string>) {
    forall name :: name != "" ==> !IsFirstMissing(claims, required, name)
  }

  lemma PassesMeans(claims: Claims, required: seq<string>)
    ensures Passes(claims, required) <==>
            FirstMissing(claims, required).None? || FirstMissing(claims, required).value == ""
  {
    forall name
      ensures FirstMissing(claims, required) == Some(name) <==> IsFirstMissing(claims, required, name)
    {
      FirstMissingIs(claims, required, name);
    }
  }

  /**
   * The check reports the first missing name, and "" for none, so a required claim named "" is
   * never reported and hides those configured after it. The check admits exactly the tokens that
   * have every required claim iff no required claim has that name.
   */
  lemma RequiredClaimsIff(required: seq<string>)
    ensures (forall claims :: Passes(claims, required) <==> (forall n :: n in required ==> Present(claims, n)))
       <==> "" !in required
  {
    forall claims {
      PassesMeans(claims, required);
    }
    hide Passes;
    if "" in required {
      var claims: Claims := map n | n in required && n != "" :: Str("x");
      assert FirstMissing(claims, required) == Some("");
      assert Passes(claims, required) && !Present(claims, "");
    }
  }

  // ----- what each step of the chain can blame -----

  lemma TimesBlame(o: Oracle, claims: Claims)
    ensures var v := CheckTimes(o, claims);
      if v.Good? then v.claims == claims
      else v.why.TokenExpired? || v.why.TokenNotYetValid? || v.why.InvalidToken?
  {}

  lemma VerifyBlames(o: Oracle, algorithms: seq<string>, token: string, answer: string -> Jwks.Answer)
    ensures var v := VerifyWith(o, algorithms, token, answer);
      v.Bad? ==> v.why.InvalidToken? || v.why.JwksUnavailable? || v.why.TokenExpired? || v.why.TokenNotYetValid?
  {}

  lemma TestBlames(o: Oracle, token: string)
    ensures var v := VerifyTest(o, token);
      v.Bad? ==> v.why.InvalidToken? || v.why.TokenExpired? || v.why.TokenNotYetValid?
  {}

  lemma FinalBlames(st: Settings, claims: Claims)
    ensures var r := FinalChecks(st, claims);
      r.Accepted? || r.why.AudienceMismatch? || r.why.RequiredClaimMissing?
  {}

  // ----- authentic tokens -----

  lemma AuthenticDecides(r: Request, claims: Claims, t: Parts)
    requires Authentic(r, claims, t)
    ensures Verdict(r) == Conclude(r.st, CheckTimes(r.o, claims))
  {
    hide Cut, Chosen, Conclude, CheckTimes, Serves;
    CarriesIff(r, t.token);
    SegmentsIff(t.token, t.h, t.p, t.s);
    ServesIff(r.names, IssuerOf(claims), t.i);
  }

  lemma AuthenticAnswer(r: Request, claims: Claims)
    requires IsAuthentic(r, claims)
    ensures Verdict(r) == Conclude(r.st, CheckTimes(r.o, claims))
  {
    hide Authentic;
    var t :| Authentic(r, claims, t);
    AuthenticDecides(r, claims, t);
  }

  /** The answers that only a verified token gets. */
  predicate Late(a: Outcome) {
    || a.Accepted?
    || a.why.TokenExpired? || a.why.TokenNotYetValid? || a.why.AudienceMismatch? || a.why.RequiredClaimMissing?
  }

  lemma LateIsAuthentic(r: Request) returns (claims: Claims, t: Parts)
    requires Late(Verdict(r))
    ensures Authentic(r, claims, t)
    ensures Verdict(r) == Conclude(r.st, CheckTimes(r.o, claims))
  {
    hide Cut, Chosen, FinalChecks, Serves, CheckTimes, Segments, Carries;
    var token := TokenOf(r.st, r.fields).value;
    forall claims {
      TimesBlame(r.o, claims);
    }
    CarriesIff(r, token);
    var segments := Segments(token).value;
    SegmentsIff(token, segments.0, segments.1, segments.2);
    var header := r.o.header(segments.0).value;
    claims := r.o.payload(segments.1).value;
    var i, key := 0, Jwks.PublicKey(0, 0);
    if !r.st.testMode {
      i := Chosen(r.names, IssuerOf(claims)).value;
      ServesIff(r.names, IssuerOf(claims), i);
      key := r.answer(i, header.kid).key;
    }
    t := Parts(token, segments.0, segments.1, segments.2, header, i, key);
  }

  lemma ConcludeMeaning(st: Settings, o: Oracle, claims: Claims, name: string)
    ensures var a := Conclude(st, CheckTimes(o, claims));
      var timely := o.timing(claims).Timely?;
      && (forall other :: a == Accepted(other) <==>
            other == claims && timely && Meant(st, claims) && Passes(claims, st.requiredClaims))
      && (a == Rejected(TokenExpired) <==> o.timing(claims).TooLate?)
      && (a == Rejected(TokenNotYetValid) <==> o.timing(claims).TooEarly?)
      && (a == Rejected(InvalidToken) <==> o.timing(claims).BadTimes?)
      && (a == Rejected(AudienceMismatch) <==> timely && !Meant(st, claims))
      && (a == Rejected(RequiredClaimMissing(name)) <==>
            timely && Meant(st, claims) && name != "" && IsFirstMissing(claims, st.requiredClaims, name))
  {
    FirstMissingIs(claims, st.requiredClaims, name);
    PassesMeans(claims, st.requiredClaims);
    hide FirstMissing, IsFirstMissing, Passes;
  }

  /**
   * `next` is called with `claims` exactly when every check holds: the token is carried and fits,
   * has three segments that decode to those claims, verifies with an allow-listed RSA algorithm
   * under the key that its own issuer's entry has for its kid, is in time, shares an audience
   * whenever audiences are configured, and passes the required-claims check.
   */
  lemma AcceptIff(r: Request, claims: Claims)
    ensures Verdict(r) == Accepted(claims) <==>
            && IsAuthentic(r, claims) && r.o.timing(claims).Timely?
            && Meant(r.st, claims) && Passes(claims, r.st.requiredClaims)
  {
    hide Verdict, Authentic, Conclude, CheckTimes, Meant, Passes;
    if Verdict(r).Accepted? {
      var found, t := LateIsAuthentic(r);
      ConcludeMeaning(r.st, r.o, found, "");
    }
    if IsAuthentic(r, claims) {
      AuthenticAnswer(r, claims);
      ConcludeMeaning(r.st, r.o, claims, "");
    }
  }

  // ----- the first failing check names the error -----

  /** Before the key lookup: each error exactly when its check is the first to fail. */
  lemma EarlyRejections(r: Request)
    ensures var a := Verdict(r);
      && (a == Rejected(MissingToken) <==> forall token :: !Carries(r, token))
      && (a == Rejected(OversizedToken) <==> exists token :: Carries(r, token) && !Fits(r, token))
      && (a == Rejected(DisallowedAlgorithm) <==>
            exists token :: Peeked(r, token) && PeekAlgorithm(r.o, token) !in r.st.algorithms)
      && (a == Rejected(UnknownIssuer) <==>
            exists token :: Allowed(r, token) && forall i: nat :: !Serves(r.names, PeekIssuer(r.o, token), i))
  {
    hide Cut, Chosen, FinalChecks, VerifyWith, VerifyTest, PeekAlgorithm, PeekIssuer, Serves;
    forall token
      ensures TokenOf(r.st, r.fields) == Some(token) <==> Carries(r, token)
    {
      CarriesIff(r, token);
    }
    if TokenOf(r.st, r.fields).Some? {
      var token := TokenOf(r.st, r.fields).value;
      assert Carries(r, token);
      forall i: nat
        ensures Chosen(r.names, PeekIssuer(r.o, token)) == Some(i) <==> Serves(r.names, PeekIssuer(r.o, token), i)
        ensures Serves(r.names, PeekIssuer(r.o, token), i) ==> i < |r.names|
      {
        ServesIff(r.names, PeekIssuer(r.o, token), i);
      }
      var chosen := Chosen(r.names, PeekIssuer(r.o, token));
      if chosen.Some? {
        VerifyBlames(r.o, r.st.algorithms, token, kid => r.answer(chosen.value, kid));
      }
      forall claims {
        FinalBlames(r.st, claims);
      }
      TestBlames(r.o, token);
    }
  }

  lemma UnavailableIsAllowed(r: Request) returns (token: string, i: nat)
    requires Verdict(r) == Rejected(JwksUnavailable)
    ensures Allowed(r, token) && Serves(r.names, PeekIssuer(r.o, token), i)
  {
    hide Cut, Chosen, FinalChecks, VerifyWith, VerifyTest, PeekAlgorithm, PeekIssuer, Serves;
    token := TokenOf(r.st, r.fields).value;
    CarriesIff(r, token);
    TestBlames(r.o, token);
    forall claims {
      FinalBlames(r.st, claims);
    }
    i := Chosen(r.names, PeekIssuer(r.o, token)).value;
    ServesIff(r.names, PeekIssuer(r.o, token), i);
  }

  lemma UnavailableFor(r: Request, token: string, i: nat)
    requires Allowed(r, token) && Serves(r.names, PeekIssuer(r.o, token), i)
    ensures Verdict(r) == Rejected(JwksUnavailable) <==> NoKeys(r, token, i)
  {
    hide Cut, Chosen, FirstMissing, Serves;
    CarriesIff(r, token);
    ServesIff(r.names, PeekIssuer(r.o, token), i);
  }

  /** 503 exactly when a decodable RSA token gets as far as the key lookup and that has no key at all. */
  lemma UnavailableIff(r: Request)
    ensures Verdict(r) == Rejected(JwksUnavailable) <==> exists token, i: nat :: NoKeys(r, token, i)
  {
    forall token, i: nat | Allowed(r, token) && Serves(r.names, PeekIssuer(r.o, token), i)
      ensures Verdict(r) == Rejected(JwksUnavailable) <==> NoKeys(r, token, i)
    {
      UnavailableFor(r, token, i);
    }
    if Verdict(r) == Rejected(JwksUnavailable) {
      var token, i := UnavailableIsAllowed(r);
    }
    hide *;
  }

  /** The claims of an authentic token that fails one of the checks after its signature. */
  ghost predicate Fails(r: Request, claims: Claims, why: Failure) {
    match why
    case TokenExpired => r.o.timing(claims).TooLate?
    case TokenNotYetValid => r.o.timing(claims).TooEarly?
    case AudienceMismatch => r.o.timing(claims).Timely? && !Meant(r.st, claims)
    case RequiredClaimMissing(name) =>
      && r.o.timing(claims).Timely? && Meant(r.st, claims)
      && name != "" && IsFirstMissing(claims, r.st.requiredClaims, name)
    case _ => false
  }

  /**
   * After the signature: expired, not yet valid, the audience, then the first missing required
   * claim in configured order, each reported exactly for an authentic token that fails it first.
   */
  lemma LateRejections(r: Request, why: Failure)
    requires Late(Rejected(why))
    ensures Verdict(r) == Rejected(why) <==> exists claims :: IsAuthentic(r, claims) && Fails(r, claims, why)
  {
    hide Verdict, Authentic, Conclude, CheckTimes, Meant, Passes, IsFirstMissing;
    var name := if why.RequiredClaimMissing? then why.name else "";
    if Verdict(r) == Rejected(why) {
      var found, t := LateIsAuthentic(r);
      ConcludeMeaning(r.st, r.o, found, name);
      assert IsAuthentic(r, found) && Fails(r, found, why);
    }
    forall claims | IsAuthentic(r, claims) && Fails(r, claims, why)
      ensures Verdict(r) == Rejected(why)
    {
      AuthenticAnswer(r, claims);
      ConcludeMeaning(r.st, r.o, claims, name);
    }
  }

  /** The request carries a token that fits and that none of the early checks stops. */
  ghost predicate Reaches(r: Request, token: string) {
    && Fits(r, token)
    && (|| r.st.testMode
        || PeekAlgorithm(r.o, token) == ""
        || (Allowed(r, token) && exists i: nat :: Serves(r.names, PeekIssuer(r.o, token), i)))
  }

  lemma InvalidReaches(r: Request) returns (token: string)
    requires Verdict(r) == Rejected(InvalidToken)
    ensures Reaches(r, token)
  {
    hide Verdict, Carries, PeekAlgorithm, PeekIssuer, Serves;
    EarlyRejections(r);
    token :| Carries(r, token);
    assert Fits(r, token);
    assert r.st.testMode || PeekAlgorithm(r.o, token) == "" || Allowed(r, token);
  }

  lemma OneToken(r: Request)
    ensures forall a, b :: Carries(r, a) && Carries(r, b) ==> a == b
  {
    forall a, b | Carries(r, a) && Carries(r, b)
      ensures a == b
    {
      CarriesIff(r, a);
      CarriesIff(r, b);
    }
  }

  lemma ReachesPastEarly(r: Request, token: string)
    requires Reaches(r, token)
    ensures Late(Verdict(r)) || Verdict(r).why.InvalidToken? || Verdict(r).why.JwksUnavailable?
  {
    hide Verdict, Carries, PeekAlgorithm, PeekIssuer, Serves;
    EarlyRejections(r);
    OneToken(r);
  }

  /**
   * What every forged or malformed token gets: it is invalid exactly when none of the early checks
   * stops it, keys are at hand, and it is not authentic, or is so with times that cannot be read.
   */
  lemma InvalidIff(r: Request)
    ensures Verdict(r) == Rejected(InvalidToken) <==>
            && (exists token :: Reaches(r, token))
            && (forall token, i: nat :: !NoKeys(r, token, i))
            && (forall claims :: IsAuthentic(r, claims) ==> r.o.timing(claims).BadTimes?)
  {
    hide Verdict, Reaches, NoKeys, Authentic, Conclude, CheckTimes;
    UnavailableIff(r);
    if Verdict(r) == Rejected(InvalidToken) {
      var token := InvalidReaches(r);
    }
    forall claims | IsAuthentic(r, claims)
      ensures Verdict(r) == Rejected(InvalidToken) <==> r.o.timing(claims).BadTimes?
    {
      AuthenticAnswer(r, claims);
      ConcludeMeaning(r.st, r.o, claims, "");
    }
    if Late(Verdict(r)) {
      var claims, t := LateIsAuthentic(r);
      assert IsAuthentic(r, claims);
    }
    forall token | Reaches(r, token)
      ensures Late(Verdict(r)) || Verdict(r).why.InvalidToken? || Verdict(r).why.JwksUnavailable?
    {
      ReachesPastEarly(r, token);
    }
  }

  // ----- where the lookup's answers come from -----

  function AtomicAnswer(pool: seq<Issuer>, net: Network, i: nat, kid: string): Jwks.Answer {
    if i < |pool| then Jwks.PluginStep(pool[i].ttl, pool[i].cache, Asked(net, kid)).1 else Jwks.UnknownKid
  }

  /** A request that nothing interrupts: each lookup is one step of the entry's sequential key cache. */
  function Atomic(st: Settings, o: Oracle, fields: map<string, string>, pool: seq<Issuer>, net: Network): Request {
    Request(st, o, fields, Names(pool), (i: nat, kid: string) => AtomicAnswer(pool, net, i, kid))
  }

  /** For such a request, what the handler decides is what all of the above speaks of. */
  lemma AtomicIsDecide(st: Settings, o: Oracle, fields: map<string, string>, pool: seq<Issuer>, net: Network)
    ensures Verdict(Atomic(st, o, fields, pool, net)) == Decide(st, o, fields, pool, net).1
  {}

  /** Then the key store is unavailable iff the serving entry has no key cached and fetches none. */
  lemma UnavailableAtomicallyIff(st: Settings, o: Oracle, fields: map<string, string>, pool: seq<Issuer>, net: Network,
                                 token: string, i: nat)
    ensures NoKeys(Atomic(st, o, fields, pool, net), token, i) <==>
            && Allowed(Atomic(st, o, fields, pool, net), token) && i < |pool|
            && Serves(Names(pool), PeekIssuer(o, token), i)
            && Decode(o, token).Some? && Decode(o, token).value.0.alg in {"RS256", "RS384", "RS512"}
            && pool[i].cache.keys == map[] && Jwks.Usable(net.fetch).None?
  {
    ServesIff(Names(pool), PeekIssuer(o, token), i);
    hide Allowed, Serves;
    if i < |pool| && Decode(o, token).Some? {
      JwksRuns.FailureEffects(pool[i].ttl, pool[i].cache, Asked(net, Decode(o, token).value.0.kid));
    }
  }

  lemma AcceptedIsAuthentic(r: Request, claims: Claims) returns (t: Parts)
    requires Verdict(r) == Accepted(claims)
    ensures Authentic(r, claims, t)
  {
    hide Verdict, Authentic, Conclude, CheckTimes;
    var found;
    found, t := LateIsAuthentic(r);
    ConcludeMeaning(r.st, r.o, found, "");
  }

  /** The key that the token verifies under is in the latest usable document of the entry that serves it. */
  ghost predicate SignerPublished(pool: seq<Issuer>, net: Network, runs: seq<seq<Jwks.Call>>, t: Parts) {
    && t.i < |pool| && t.i < |runs|
    && var document := JwksRuns.LatestDocument(pool[t.i].ttl, runs[t.i] + [Asked(net, t.header.kid)]);
       document.Some? && Jwks.Jwk("RSA", t.header.kid, Some(t.key)) in document.value
  }

  /**
   * Where trust comes from, end to end: when each issuer's key cache is what a run of calls made of
   * it, and nothing interrupts the request, the accepted claims are those of an authentic token,
   * signed under a key that the latest usable document of the entry serving its own issuer
   * publishes for its own kid.
   */
  lemma AcceptedKeyIsPublished(st: Settings, o: Oracle, fields: map<string, string>, pool: seq<Issuer>, net: Network,
                               runs: seq<seq<Jwks.Call>>, claims: Claims)
    requires !st.testMode && |runs| == |pool| && Decide(st, o, fields, pool, net).1 == Accepted(claims)
    requires forall i :: 0 <= i < |pool| ==> pool[i].cache == JwksRuns.After(pool[i].ttl, Jwks.EMPTY, runs[i])
    ensures exists t :: Authentic(Atomic(st, o, fields, pool, net), claims, t) && SignerPublished(pool, net, runs, t)
  {
    var r := Atomic(st, o, fields, pool, net);
    AtomicIsDecide(st, o, fields, pool, net);
    var t := AcceptedIsAuthentic(r, claims);
    ServesIff(r.names, IssuerOf(claims), t.i);
    assert AtomicAnswer(pool, net, t.i, t.header.kid) == Jwks.Key(t.key);
    JwksRuns.KeysComeFromLatestDocument(pool[t.i].ttl, runs[t.i], Asked(net, t.header.kid));
  }

  /** The lookup that an authentic token causes. */
  lemma LookupOf(r: Request, claims: Claims, t: Parts)
    requires !r.st.testMode && Authentic(r, claims, t)
    ensures Precheck(r.st, r.o, r.fields, r.names) == Ok((t.i, t.token))
    ensures KidAsked(r.o, r.st.algorithms, t.token) == Some(t.header.kid)
  {
    hide Cut, Chosen, Serves;
    CarriesIff(r, t.token);
    SegmentsIff(t.token, t.h, t.p, t.s);
    ServesIff(r.names, IssuerOf(claims), t.i);
  }

  /** A run of the interleaved key cache of one issuer entry. */
  datatype Machine = Machine(ttl: int, run: seq<JwksProtocol.Event>)
  {
    ghost function End(): Option<JwksProtocol.State> {
      JwksProtocol.Run(ttl, JwksProtocol.INIT, run)
    }

    /** Some call for `kid` in the run has got `answer`. */
    ghost predicate Answered(kid: string, answer: Jwks.Answer) {
      && End().Some?
      && exists id: nat :: id in End().value.requests && End().value.requests[id].kid == kid
           && End().value.requests[id].phase == JwksProtocol.Done(answer)
    }
  }

  /** Each lookup that the request can make is answered by a call of the entry's interleaved key cache. */
  ghost predicate AnsweredBy(r: Request, machines: seq<Machine>) {
    && |machines| == |r.names|
    && match Precheck(r.st, r.o, r.fields, r.names)
       case Err(_) => true
       case Ok((i, token)) =>
         match KidAsked(r.o, r.st.algorithms, token)
         case None => true
         case Some(kid) => machines[i].Answered(kid, r.answer(i, kid))
  }

  ghost predicate SignerFetched(machines: seq<Machine>, t: Parts) {
    && t.i < |machines| && machines[t.i].End().Some?
    && JwksProtocol.Published(machines[t.i].End().value.docs, t.header.kid, t.key)
  }

  /**
   * The same under concurrency: however the calls of all requests interleave on the key caches, the
   * accepted claims are those of an authentic token, signed under a key that some document fetched
   * for the entry serving its own issuer publishes for its own kid.
   */
  lemma AcceptedKeyWasFetched(r: Request, machines: seq<Machine>, claims: Claims)
    requires !r.st.testMode && AnsweredBy(r, machines) && Verdict(r) == Accepted(claims)
    ensures exists t :: Authentic(r, claims, t) && SignerFetched(machines, t)
  {
    var t := AcceptedIsAuthentic(r, claims);
    LookupOf(r, claims, t);
    var m := machines[t.i];
    assert m.Answered(t.header.kid, Jwks.Key(t.key));
    var id: nat :| id in m.End().value.requests && m.End().value.requests[id].kid == t.header.kid
              && m.End().value.requests[id].phase == JwksProtocol.Done(Jwks.Key(t.key));
    JwksProtocol.AnswersArePublished(m.ttl, m.run, id);
  }

  /** The request asks issuer entry `i` for the key `kid`. */
  ghost predicate Asks(r: Request, token: string, i: nat, kid: string) {
    && Allowed(r, token) && Serves(r.names, PeekIssuer(r.o, token), i)
    && KidAsked(r.o, r.st.algorithms, token) == Some(kid)
  }

  lemma PrecheckIff(r: Request, token: string, i: nat)
    ensures Precheck(r.st, r.o, r.fields, r.names) == Ok((i, token)) <==>
            Allowed(r, token) && Serves(r.names, PeekIssuer(r.o, token), i)
  {
    CarriesIff(r, token);
    ServesIff(r.names, PeekIssuer(r.o, token), i);
    hide Chosen, Serves, PeekAlgorithm, PeekIssuer, Carries;
  }

  /**
   * What the handler does to the key caches: the entry that the request asks takes one step, with
   * that kid, and no other entry changes.
   */
  lemma OnlyAskedCacheMoves(st: Settings, o: Oracle, fields: map<string, string>, pool: seq<Issuer>, net: Network,
                            j: nat)
    requires j < |pool|
    ensures var pool', r := Decide(st, o, fields, pool, net).0, Atomic(st, o, fields, pool, net);
      && |pool'| == |pool|
      && (forall token, kid :: Asks(r, token, j, kid) ==>
            pool'[j] == pool[j].(cache := Jwks.PluginStep(pool[j].ttl, pool[j].cache, Asked(net, kid)).0))
      && ((forall token, kid :: !Asks(r, token, j, kid)) ==> pool'[j] == pool[j])
  {
    var r := Atomic(st, o, fields, pool, net);
    forall token, i: nat
      ensures Precheck(st, o, fields, Names(pool)) == Ok((i, token)) <==>
              Allowed(r, token) && Serves(r.names, PeekIssuer(o, token), i)
    {
      PrecheckIff(r, token, i);
    }
    hide Allowed, Serves, PeekIssuer, Precheck, KidAsked, Jwks.PluginStep;
    var pre := Precheck(st, o, fields, Names(pool));
    if pre.Ok? {
      var (i, token) := pre.value;
      if KidAsked(o, st.algorithms, token).Some? {
        assert Asks(r, token, i, KidAsked(o, st.algorithms, token).value);
      }
    }
  }
}
