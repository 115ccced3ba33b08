/**
  The extended-JWT authentication client: it accepts OAuth 2.0 access tokens
  in the JSON Web Token profile of RFC 9068, sent as a bearer token in the
  `Authorization` header.

  Parsing the compact JWT, checking its signature against the server's
  public key, the time/issuer/audience validation and the user-service lookup
  are outside this model; they enter as oracles (function parameters or
  fields of the parsed token). An unchecked Go type assertion that fails
  panics; the model makes that a `Panic` error.
 */
module ExtendedJwt {
  import opened Wrappers
  import Decimal

  /** A decoded JSON value, as Go's `interface{}` holds it. Numbers are kept as integers. */
  datatype Json =
    | JNull
    | JBool(b: bool)
    | JNumber(n: int)
    | JString(s: string)
    | JArray(items: seq<Json>)
    | JObject(members: map<string, Json>)

  type Claims = map<string, Json>

  /** One JOSE header: its `alg` and the headers go-jose does not decode itself (`typ` among them). */
  datatype Header = Header(algorithm: string, extraHeaders: map<string, Json>)

  /**
    A token as `jwt.ParseSigned` returns it. `verifiedClaims` is what
    `Claims(serverPublicKey, ...)` yields: the full claim set when the
    signature checks and the claims decode, None otherwise.
   */
  datatype ParsedToken = ParsedToken(headers: seq<Header>, verifiedClaims: Option<Claims>)

  datatype JwtError =
    | ParseFailed
    | HeaderCount(count: nat)
    | MissingTyp
    | InvalidType(jwtType: string)
    | InvalidAlgorithm(algorithm: string)
    | SignatureInvalid
    | MissingClaim(name: string)
    | ValidationFailed
    | MissingClientId
    | InvalidClientId
    | SubParseFailed
    | UserNotFound
    | Panic(assertion: string)

  const SigningMethodNone: string := "none"
  const Rfc9068ShortMediaType: string := "at+jwt"
  const Rfc9068MediaType: string := "application/at+jwt"
  const BearerPrefix: string := "Bearer "
  /** `fmt.Sprintf("%s:id:", authn.NamespaceUser)` with the user namespace `user`. */
  const UserIdPrefix: string := "user:id:"
  const NamespaceUser: string := "user"
  /** The claims section 2.2 of RFC 9068 requires, in the order they are checked. */
  const RequiredClaims: seq<string> := ["exp", "jti", "sub", "iat"]

  // ---------------------------------------------------------------------------
  // String helpers from Go's `strings` package.

  /** `strings.TrimPrefix`: removes one leading `prefix` if present. */
  function TrimPrefix(s: string, prefix: string): (r: string)
    ensures prefix <= s ==> prefix + r == s
    ensures !(prefix <= s) ==> r == s
  {
    if prefix <= s then s[|prefix|..] else s
  }

  /**
    Unicode simple lower-case mapping, as `unicode.ToLower` applies it, for
    the letters whose lower case is ASCII: 'A' to 'Z', U+0130 (capital I
    with dot above) and U+212A (Kelvin sign). Every other character is kept.
   */
  function LowerChar(c: char): char {
    if 'A' <= c <= 'Z' then (c as int - 'A' as int + 'a' as int) as char
    else if c == '\U{0130}' then 'i'
    else if c == '\U{212A}' then 'k'
    else c
  }

  /** `strings.ToLower`, character by character. */
  function ToLower(s: string): (r: string)
    ensures |r| == |s|
    ensures forall i :: 0 <= i < |s| ==> r[i] == LowerChar(s[i])
  {
    if s == [] then [] else [LowerChar(s[0])] + ToLower(s[1..])
  }

  /** `retrieveToken`: the `Authorization` header without one leading "Bearer ". */
  function RetrieveToken(authorization: string): (r: string)
    ensures BearerPrefix <= authorization ==> BearerPrefix + r == authorization
    ensures !(BearerPrefix <= authorization) ==> r == authorization
  {
    TrimPrefix(authorization, BearerPrefix)
  }

  /** Only one "Bearer " is removed: a token that itself starts with it keeps it. */
  lemma RetrieveTokenStripsOnePrefix(token: string)
    ensures RetrieveToken(BearerPrefix + token) == token
  {
  }

  // ---------------------------------------------------------------------------
  // verifyRFC9068Token and its guards.

  /** The `typ` check of sections 2.1 and 4 of RFC 9068, compared case-insensitively. */
  predicate IsAccessTokenMediaType(typ: string) {
    ToLower(typ) == Rfc9068ShortMediaType || ToLower(typ) == Rfc9068MediaType
  }

  /** Two `typ` values that agree up to letter case are accepted or rejected alike. */
  lemma AccessTokenTypeIsCaseInsensitive(s: string, t: string)
    requires |s| == |t| && forall i :: 0 <= i < |s| ==> LowerChar(s[i]) == LowerChar(t[i])
    ensures IsAccessTokenMediaType(s) <==> IsAccessTokenMediaType(t)
  {
    assert ToLower(s) == ToLower(t);
  }

  /**
    An upper-case spelling of the short media type is accepted; a plain JWT
    type is not. The capital I with dot above and the Kelvin sign lower-case
    to ASCII, so they can stand for 'i' and 'k' in an accepted type.
   */
  lemma AccessTokenTypeExamples()
    ensures IsAccessTokenMediaType("AT+JWT")
    ensures !IsAccessTokenMediaType("JWT")
    ensures ToLower("\U{0130}\U{212A}") == "ik"
  {
    var lower := ToLower("AT+JWT");
    assert lower[0] == 'a' && lower[1] == 't' && lower[2] == '+';
    assert lower[3] == 'j' && lower[4] == 'w' && lower[5] == 't';
    assert lower == Rfc9068ShortMediaType;
    assert |ToLower("JWT")| == 3;
  }

  /** The four presence checks: the first required claim that is missing, in the order checked. */
  function MissingRequiredClaim(claims: Claims): (r: Option<string>)
    ensures r.None? <==> forall i :: 0 <= i < |RequiredClaims| ==> RequiredClaims[i] in claims
    ensures r.Some? ==> exists i :: 0 <= i < |RequiredClaims| && RequiredClaims[i] == r.value && r.value !in claims
                                   && forall j :: 0 <= j < i ==> RequiredClaims[j] in claims
  {
    assert RequiredClaims[0] == "exp" && RequiredClaims[1] == "jti";
    assert RequiredClaims[2] == "sub" && RequiredClaims[3] == "iat";
    if "exp" !in claims then Some("exp")
    else if "jti" !in claims then Some("jti")
    else if "sub" !in claims then Some("sub")
    else if "iat" !in claims then Some("iat")
    else None
  }

  /** `validateClientIdClaim`: `client_id` must be present and a string. None is Go's nil error. */
  function ValidateClientIdClaim(claims: Claims): (r: Option<JwtError>)
    ensures r.None? <==> "client_id" in claims && claims["client_id"].JString?
    ensures r == Some(MissingClientId) <==> "client_id" !in claims
    ensures r.Some? ==> r.value == MissingClientId || r.value == InvalidClientId
  {
    if "client_id" !in claims then Some(MissingClientId)
    else if !claims["client_id"].JString? then Some(InvalidClientId)
    else None
  }

  /** A JSON null reads as a missing `typ` header, as a nil interface does. */
  predicate HasTyp(h: Header) {
    "typ" in h.extraHeaders && !h.extraHeaders["typ"].JNull?
  }

  /**
    The conditions of RFC 9068 that the client enforces, stated together:
    one header whose `typ` is an access-token type and whose `alg` is not
    `none`, a verified claim set with `exp`, `jti`, `sub` and `iat`, claims
    that pass validation, and a string `client_id`.
   */
  ghost predicate AcceptedByRfc9068(t: ParsedToken, validate: Claims -> bool) {
    && |t.headers| == 1
    && HasTyp(t.headers[0])
    && t.headers[0].extraHeaders["typ"].JString?
    && IsAccessTokenMediaType(t.headers[0].extraHeaders["typ"].s)
    && t.headers[0].algorithm != SigningMethodNone
    && t.verifiedClaims.Some?
    && (forall i :: 0 <= i < |RequiredClaims| ==> RequiredClaims[i] in t.verifiedClaims.value)
    && validate(t.verifiedClaims.value)
    && "client_id" in t.verifiedClaims.value
    && t.verifiedClaims.value["client_id"].JString?
  }

  /**
    `verifyRFC9068Token`: the chain of guards, each returning its own error.
    `parse` is `jwt.ParseSigned`; `validate` is `ValidateWithLeeway` against
    the expected issuer, audience and the current time.
   */
  function VerifyRfc9068Token(rawToken: string, parse: string -> Option<ParsedToken>,
                              validate: Claims -> bool): (r: Result<Claims, JwtError>)
    ensures r.Success? <==> parse(rawToken).Some? && AcceptedByRfc9068(parse(rawToken).value, validate)
    ensures r.Success? ==> r.value == parse(rawToken).value.verifiedClaims.value
    ensures parse(rawToken).None? ==> r == Failure(ParseFailed)
    ensures parse(rawToken).Some? && |parse(rawToken).value.headers| != 1 ==>
              r == Failure(HeaderCount(|parse(rawToken).value.headers|))
    ensures parse(rawToken).Some? && |parse(rawToken).value.headers| == 1 && !HasTyp(parse(rawToken).value.headers[0]) ==>
              r == Failure(MissingTyp)
    ensures parse(rawToken).Some? && |parse(rawToken).value.headers| == 1 && HasTyp(parse(rawToken).value.headers[0])
            && !parse(rawToken).value.headers[0].extraHeaders["typ"].JString? ==>
              r.Failure? && r.error.Panic?
    ensures parse(rawToken).Some? && |parse(rawToken).value.headers| == 1 && HasTyp(parse(rawToken).value.headers[0])
            && parse(rawToken).value.headers[0].extraHeaders["typ"].JString?
            && !IsAccessTokenMediaType(parse(rawToken).value.headers[0].extraHeaders["typ"].s) ==>
              r == Failure(InvalidType(ToLower(parse(rawToken).value.headers[0].extraHeaders["typ"].s)))
    ensures parse(rawToken).Some? && |parse(rawToken).value.headers| == 1 && HasTyp(parse(rawToken).value.headers[0])
            && parse(rawToken).value.headers[0].extraHeaders["typ"].JString?
            && IsAccessTokenMediaType(parse(rawToken).value.headers[0].extraHeaders["typ"].s)
            && parse(rawToken).value.headers[0].algorithm == SigningMethodNone ==>
              r == Failure(InvalidAlgorithm(SigningMethodNone))
    ensures (parse(rawToken).Some? && |parse(rawToken).value.headers| == 1
             && parse(rawToken).value.headers[0].algorithm == SigningMethodNone) ==> r.Failure?
    ensures r.Failure? && r.error.MissingClaim? ==>
              parse(rawToken).Some? && parse(rawToken).value.verifiedClaims.Some?
              && MissingRequiredClaim(parse(rawToken).value.verifiedClaims.value) == Some(r.error.name)
  {
    var parsed := parse(rawToken);
    if parsed.None? then Failure(ParseFailed)
    else if |parsed.value.headers| != 1 then Failure(HeaderCount(|parsed.value.headers|))
    else
      var header := parsed.value.headers[0];
      if !HasTyp(header) then Failure(MissingTyp)
      else if !header.extraHeaders["typ"].JString? then Failure(Panic("typ header is not a string"))
      else
        var jwtType := ToLower(header.extraHeaders["typ"].s);
        if jwtType != Rfc9068ShortMediaType && jwtType != Rfc9068MediaType then Failure(InvalidType(jwtType))
        else if header.algorithm == SigningMethodNone then Failure(InvalidAlgorithm(header.algorithm))
        else if parsed.value.verifiedClaims.None? then Failure(SignatureInvalid)
        else
          var allClaims := parsed.value.verifiedClaims.value;
          var missing := MissingRequiredClaim(allClaims);
          if missing.Some? then Failure(MissingClaim(missing.value))
          else if !validate(allClaims) then Failure(ValidationFailed)
          else
            var clientIdError := ValidateClientIdClaim(allClaims);
            if clientIdError.Some? then Failure(clientIdError.value) else Success(allClaims)
  }

  /** `Test`: a cheap pre-check comparing the unverified issuer with the expected one. */
  function Test(enabled: bool, authorization: string, expectedIssuer: string,
                unverifiedIssuer: string -> Option<string>): (r: bool)
    ensures r ==> enabled && RetrieveToken(authorization) != ""
    ensures r <==> enabled && RetrieveToken(authorization) != ""
                   && unverifiedIssuer(RetrieveToken(authorization)) == Some(expectedIssuer)
  {
    if !enabled then false
    else
      var rawToken := RetrieveToken(authorization);
      if rawToken == "" then false
      else
        match unverifiedIssuer(rawToken)
        case None => false
        case Some(issuer) => issuer == expectedIssuer
  }

  /** A missing header or a bare "Bearer " is never taken by this client. */
  lemma TestRejectsEmptyToken(enabled: bool, expectedIssuer: string, unverifiedIssuer: string -> Option<string>)
    ensures !Test(enabled, "", expectedIssuer, unverifiedIssuer)
    ensures !Test(enabled, BearerPrefix, expectedIssuer, unverifiedIssuer)
  {
    assert RetrieveToken(BearerPrefix) == "";
  }

  // ---------------------------------------------------------------------------
  // The subject and the entitlements claim.

  /** The user id in `sub`: "user:id:" is removed if present, the rest parsed as a 64-bit integer. */
  function ParseUserId(sub: string): (r: Option<int>)
    ensures UserIdPrefix <= sub ==> r == Decimal.ParseInt64(sub[|UserIdPrefix|..])
    ensures !(UserIdPrefix <= sub) ==> r == Decimal.ParseInt64(sub)
    ensures r.Some? ==> Decimal.Int64Min <= r.value <= Decimal.Int64Max
  {
    Decimal.ParseInt64(TrimPrefix(sub, UserIdPrefix))
  }

  /** A subject written as "user:id:<n>" yields n; so does the bare "<n>", as the prefix is optional. */
  lemma ParseUserIdRoundTrip(n: int)
    requires Decimal.Int64Min <= n <= Decimal.Int64Max
    ensures ParseUserId(UserIdPrefix + Decimal.FormatInt(n)) == Some(n)
    ensures ParseUserId(Decimal.FormatInt(n)) == Some(n)
  {
    Decimal.ParseFormatRoundTrip(n);
    assert TrimPrefix(UserIdPrefix + Decimal.FormatInt(n), UserIdPrefix) == Decimal.FormatInt(n);
    var s := Decimal.FormatInt(n);
    assert s[0] == '-' || Decimal.IsDigit(s[0]);
    assert !(UserIdPrefix <= s);
  }

  /** A signed or zero-padded id parses too. */
  lemma ParseUserIdSignedAndPadded()
    ensures ParseUserId("user:id:+7") == Some(7)
    ensures ParseUserId("user:id:007") == Some(7)
  {
    Decimal.ParseFormatRoundTrip(7);
    assert Decimal.FormatInt(7) == "7";
    Decimal.LeadingZerosIgnored("7");
    Decimal.LeadingZerosIgnored("07");
    assert "user:id:+7"[|UserIdPrefix|..] == "+" + "7";
    assert "user:id:007"[|UserIdPrefix|..] == "0" + "07";
    assert "0" + "7" == "07";
  }

  /** A negative id parses; a bare prefix is no id, and only one prefix is removed. */
  lemma ParseUserIdNegativeAndMalformed()
    ensures ParseUserId("user:id:-18") == Some(-18)
    ensures ParseUserId("user:id:") == None
    ensures ParseUserId("user:id:user:id:7") == None
  {
    Decimal.ParseFormatRoundTrip(-18);
    assert Decimal.FormatInt(-18) == "-18" by {
      assert Decimal.FormatNat(18) == Decimal.FormatNat(1) + [Decimal.DigitChar(8)];
    }
    assert "user:id:-18"[|UserIdPrefix|..] == "-18";
    assert "user:id:"[|UserIdPrefix|..] == "";
    assert !Decimal.IsDigit("user:id:user:id:7"[|UserIdPrefix|]);
  }

  /** `claims["sub"].(string)` then the user-id parse. */
  function SubjectUserId(claims: Claims): (r: Result<int, JwtError>)
    requires "sub" in claims
    ensures r.Success? <==> claims["sub"].JString? && ParseUserId(claims["sub"].s).Some?
    ensures r.Success? ==> r.value == ParseUserId(claims["sub"].s).value
    ensures !claims["sub"].JString? ==> r.Failure? && r.error.Panic?
  {
    if !claims["sub"].JString? then Failure(Panic("sub claim is not a string"))
    else
      match ParseUserId(claims["sub"].s)
      case None => Failure(SubParseFailed)
      case Some(id) => Success(id)
  }

  predicate IsStringArray(j: Json) {
    j.JArray? && forall i :: 0 <= i < |j.items| ==> j.items[i].JString?
  }

  function StringsOf(items: seq<Json>): (r: seq<string>)
    requires forall i :: 0 <= i < |items| ==> items[i].JString?
    ensures |r| == |items| && forall i :: 0 <= i < |items| ==> items[i] == JString(r[i])
  {
    seq(|items|, i requires 0 <= i < |items| => items[i].s)
  }

  /** What one entitlement entry becomes: null is the empty list, an array its strings in order. */
  function EntitlementList(j: Json): seq<string>
    requires j.JNull? || IsStringArray(j)
  {
    if j.JNull? then [] else StringsOf(j.items)
  }

  predicate EntitlementsWellTyped(entitlements: map<string, Json>) {
    forall key :: key in entitlements ==> entitlements[key].JNull? || IsStringArray(entitlements[key])
  }

  function EntitlementsOf(entitlements: map<string, Json>): (r: map<string, seq<string>>)
    requires EntitlementsWellTyped(entitlements)
    ensures r.Keys == entitlements.Keys
  {
    map key | key in entitlements :: EntitlementList(entitlements[key])
  }

  /** `parseEntitlementsArray`: the strings of a JSON array, in order; anything else panics. */
  method ParseEntitlementsArray(entitlements: Json) returns (r: Result<seq<string>, JwtError>)
    ensures r.Success? <==> IsStringArray(entitlements)
    ensures r.Success? ==> r.value == StringsOf(entitlements.items)
    ensures r.Failure? ==> r.error.Panic?
  {
    if !entitlements.JArray? {
      return Failure(Panic("entitlements entry is not an array"));
    }
    var items := entitlements.items;
    var result: seq<string> := [];
    var i := 0;
    while i < |items|
      invariant 0 <= i <= |items|
      invariant forall k :: 0 <= k < i ==> items[k].JString?
      invariant |result| == i && forall k :: 0 <= k < i ==> result[k] == items[k].s
    {
      if !items[i].JString? {
        return Failure(Panic("entitlement is not a string"));
      }
      result := result + [items[i].s];
      i := i + 1;
    }
    return Success(result);
  }

  /** `parseEntitlements`: every key kept, null mapped to [], arrays to their strings. */
  method ParseEntitlements(entitlements: map<string, Json>) returns (r: Result<map<string, seq<string>>, JwtError>)
    ensures r.Success? <==> EntitlementsWellTyped(entitlements)
    ensures r.Success? ==> r.value == EntitlementsOf(entitlements)
    ensures r.Failure? ==> r.error.Panic?
  {
    var result: map<string, seq<string>> := map[];
    var keys := entitlements.Keys;
    while keys != {}
      invariant keys <= entitlements.Keys
      invariant result.Keys == entitlements.Keys - keys
      invariant forall key :: key in result ==>
                  (entitlements[key].JNull? || IsStringArray(entitlements[key]))
                  && result[key] == EntitlementList(entitlements[key])
      decreases keys
    {
      var key :| key in keys;
      var value := entitlements[key];
      if value.JNull? {
        result := result[key := []];
      } else {
        var list := ParseEntitlementsArray(value);
        if list.Failure? {
          return Failure(list.error);
        }
        result := result[key := list.value];
      }
      keys := keys - {key};
    }
    return Success(result);
  }

  // ---------------------------------------------------------------------------
  // Authenticate.

  type Permissions = map<int, map<string, seq<string>>>

  /** The user record the user service returns; `Permissions` is a Go map that may be nil (None). */
  class SignedInUser {
    const userId: int
    var permissions: Option<Permissions>

    constructor (userId: int, permissions: Option<Permissions>)
      ensures this.userId == userId && this.permissions == permissions
    {
      this.userId := userId;
      this.permissions := permissions;
    }
  }

  /** The identity built from the signed-in user: its namespaced id and the user. */
  datatype Identity = Identity(namespace: string, id: int, user: SignedInUser)

  /** `claims["entitlements"] == nil`: absent or JSON null. */
  predicate HasEntitlements(claims: Claims) {
    "entitlements" in claims && !claims["entitlements"].JNull?
  }

  predicate EntitlementsClaimWellTyped(claims: Claims) {
    !HasEntitlements(claims)
    || (claims["entitlements"].JObject? && EntitlementsWellTyped(claims["entitlements"].members))
  }

  /**
    The user's permissions after authentication: a nil map becomes empty,
    and the entitlements, when present, replace the entry of organisation 1.
   */
  function PermissionsAfter(before: Option<Permissions>, claims: Claims): (r: Permissions)
    requires EntitlementsClaimWellTyped(claims)
    ensures before.None? && !HasEntitlements(claims) ==> r == map[]
    ensures r.Keys == before.GetOr(map[]).Keys + (if HasEntitlements(claims) then {1} else {})
    ensures forall org :: org in r && org != 1 ==> r[org] == before.GetOr(map[])[org]
    ensures HasEntitlements(claims) ==> r[1] == EntitlementsOf(claims["entitlements"].members)
    ensures !HasEntitlements(claims) ==> r == before.GetOr(map[])
  {
    var base := before.GetOr(map[]);
    if HasEntitlements(claims) then base[1 := EntitlementsOf(claims["entitlements"].members)] else base
  }

  /**
    `Authenticate`. `users` stands for the user service: the signed-in user
    of each (organisation, user id) it knows. Only the found user's
    permissions change; when the entitlements claim is malformed the nil map
    has already been replaced by an empty one before the panic.
   */
  method Authenticate(authorization: string, orgId: int, parse: string -> Option<ParsedToken>,
                      validate: Claims -> bool, users: map<(int, int), SignedInUser>)
    returns (r: Result<Identity, JwtError>)
    modifies users.Values
    ensures var v := VerifyRfc9068Token(RetrieveToken(authorization), parse, validate);
            && (v.Failure? ==> r == Failure(v.error) && forall u :: u in users.Values ==> u.permissions == old(u.permissions))
            && (v.Success? && SubjectUserId(v.value).Failure? ==>
                  r == Failure(SubjectUserId(v.value).error) && forall u :: u in users.Values ==> u.permissions == old(u.permissions))
    ensures var v := VerifyRfc9068Token(RetrieveToken(authorization), parse, validate);
            v.Success? && SubjectUserId(v.value).Success? ==>
              var key := (orgId, SubjectUserId(v.value).value);
              && (key !in users ==> r == Failure(UserNotFound) && forall u :: u in users.Values ==> u.permissions == old(u.permissions))
              && (key in users ==>
                    var user := users[key];
                    && (forall u :: u in users.Values && u != user ==> u.permissions == old(u.permissions))
                    && (EntitlementsClaimWellTyped(v.value) ==>
                          r == Success(Identity(NamespaceUser, user.userId, user))
                          && user.permissions == Some(PermissionsAfter(old(user.permissions), v.value)))
                    && (!EntitlementsClaimWellTyped(v.value) ==>
                          r.Failure? && r.error.Panic? && user.permissions == Some(old(user.permissions).GetOr(map[]))))
  {
    var jwtToken := RetrieveToken(authorization);
    var verified := VerifyRfc9068Token(jwtToken, parse, validate);
    if verified.Failure? {
      return Failure(verified.error);
    }
    var claims := verified.value;
    var subject := SubjectUserId(claims);
    if subject.Failure? {
      return Failure(subject.error);
    }
    var key := (orgId, subject.value);
    if key !in users {
      return Failure(UserNotFound);
    }
    var signedInUser := users[key];
    if signedInUser.permissions.None? {
      signedInUser.permissions := Some(map[]);
    }
    if HasEntitlements(claims) {
      var entitlements := claims["entitlements"];
      if !entitlements.JObject? {
        return Failure(Panic("entitlements claim is not an object"));
      }
      var parsed := ParseEntitlements(entitlements.members);
      if parsed.Failure? {
        return Failure(parsed.error);
      }
      signedInUser.permissions := Some(signedInUser.permissions.value[1 := parsed.value]);
    }
    return Success(Identity(NamespaceUser, signedInUser.userId, signedInUser));
  }
}
