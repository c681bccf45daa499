/** `JwtHelper.getId`: the caller's identity from the bearer token of a request, validated
    against the signing keys of the identity provider's published configuration, with one
    retry after a refresh when the token's signing key is unknown. */
module JwtHelper {
  import opened Wrappers
  import opened Strings

  /** The identifiers of the signing keys in an OpenID Connect configuration. */
  type Keys = set<string>

  /** The token validation parameters `getId` builds: the expected audience and issuer and the
      signing keys; signed tokens, audience, issuer, signing key and lifetime are all checked. */
  datatype ValidationParameters = ValidationParameters(validAudience: string, validIssuer: string, signingKeys: Keys)

  /** A payload claim: absent (the payload's indexer throws), present but of another kind, or
      present with a value. */
  datatype OidClaim = OidAbsent | OidNotText | Oid(oid: string)
  datatype EmailsClaim = EmailsAbsent | EmailsNotList | Emails(emails: seq<string>)

  /** What `ValidateToken` does with a token: it yields the payload of a valid token, or it
      throws a `SecurityTokenSignatureKeyNotFoundException`, another
      `SecurityTokenException`, or an exception of another type (an empty token, say). */
  datatype Validation =
    | Validated(oid: OidClaim, emails: EmailsClaim)
    | SigningKeyNotFound
    | TokenRejected
    | ValidatorFault

  /** The caller: the `oid` claim (null when it is not a string) and the first e-mail. */
  datatype Identity = Identity(id: Option<string>, email: string)

  /** How `getId` fails: a `JwtException` with the message "no auth", "no bearer", the token
      itself, or "two reties", or an exception of another type that escapes. */
  datatype JwtError = NoAuth | NoBearer | InvalidToken(token: string) | TwoRetries | Uncaught

  const BearerPrefix: string := "bearer "

  /** `char.ToLower` on the ASCII letters. */
  function LowerChar(c: char): char
  {
    if 'A' <= c <= 'Z' then (c as int + 32) as char else c
  }

  /** `s.ToLower()`: every character lowered. */
  function Lower(s: string): string
  {
    seq(|s|, i requires 0 <= i < |s| => LowerChar(s[i]))
  }

  /** Lowering works character by character, so it commutes with taking a prefix. */
  lemma LowerPrefix(s: string, n: nat)
    requires n <= |s|
    ensures |Lower(s)| == |s|
    ensures Lower(s)[..n] == Lower(s[..n])
  {
  }

  /** The token of the request whose `Authorization` header holds `authorization` (None when
      there is no such header): the first value less its first seven characters, when that
      value starts with `bearer ` in any letter case. */
  function BearerToken(authorization: Option<seq<string>>): (r: Result<string, JwtError>)
    ensures authorization.None? <==> r == Err(NoAuth)
    ensures r == Err(Uncaught) <==> authorization == Some([])
    ensures r == Err(NoBearer) <==>
      authorization.Some? && |authorization.value| > 0 && !StartsWith(Lower(authorization.value[0]), BearerPrefix)
    ensures r.Ok? ==>
      authorization.Some? && |authorization.value| > 0 && |authorization.value[0]| >= |BearerPrefix| &&
      Lower(authorization.value[0][..|BearerPrefix|]) == BearerPrefix &&
      authorization.value[0] == authorization.value[0][..|BearerPrefix|] + r.value
  {
    match authorization
    case None => Err(NoAuth)
    case Some(values) =>
      if |values| == 0 then Err(Uncaught)
      else
        var full := values[0];
        if !StartsWith(Lower(full), BearerPrefix) then Err(NoBearer)
        else
          LowerPrefix(full, |BearerPrefix|);
          assert full == full[..|BearerPrefix|] + full[|BearerPrefix|..];
          Ok(full[|BearerPrefix|..])
  }

  /** A header value made of a seven-character prefix that lowers to `bearer ` and a token
      gives back that token, whatever values follow it. */
  lemma BearerTokenOf(prefix: string, token: string, more: seq<string>)
    requires Lower(prefix) == BearerPrefix
    ensures BearerToken(Some([prefix + token] + more)) == Ok(token)
  {
    var full := prefix + token;
    assert full[..|BearerPrefix|] == prefix;
    LowerPrefix(full, |BearerPrefix|);
    assert full[|BearerPrefix|..] == token;
  }

  /** The identity in a valid token's payload; a missing claim, an `emails` claim that is not
      an array of strings, or an empty one throw exceptions that `getId` does not catch. */
  function Identify(oid: OidClaim, emails: EmailsClaim): (r: Result<Identity, JwtError>)
    ensures r.Ok? <==> !oid.OidAbsent? && emails.Emails? && |emails.emails| > 0
    ensures r.Err? ==> r.error == Uncaught
    ensures r.Ok? ==> r.value.email == emails.emails[0] &&
                      (r.value.id.Some? <==> oid.Oid?) &&
                      (oid.Oid? ==> r.value.id.value == oid.oid)
  {
    match (oid, emails)
    case (OidAbsent, _) => Err(Uncaught)
    case (_, Emails(list)) =>
      if |list| == 0 then Err(Uncaught)
      else Ok(Identity(if oid.Oid? then Some(oid.oid) else None, list[0]))
    case (_, _) => Err(Uncaught)
  }

  /** The result of validation attempts with `tries[0]`, `tries[1]`, ... in turn: the first
      attempt whose signing key is found decides; when none is, "two reties". Only a token
      that some attempt validated gives an identity, and the errors are the three that
      `getId` lets through. */
  function Attempts(token: string, tries: seq<ValidationParameters>, validate: (string, ValidationParameters) -> Validation): (r: Result<Identity, JwtError>)
    ensures r.Err? ==> r.error in {TwoRetries, Uncaught, InvalidToken(token)}
    ensures r.Ok? ==> exists i :: 0 <= i < |tries| && validate(token, tries[i]).Validated?
    decreases |tries|
  {
    if tries == [] then Err(TwoRetries)
    else
      match validate(token, tries[0])
      case Validated(oid, emails) => Identify(oid, emails)
      case SigningKeyNotFound => Attempts(token, tries[1..], validate)
      case TokenRejected => Err(InvalidToken(token))
      case ValidatorFault => Err(Uncaught)
  }

  /** "Two reties" comes exactly when every attempt misses its signing key. */
  lemma {:induction false} AttemptsExhausted(token: string, tries: seq<ValidationParameters>, validate: (string, ValidationParameters) -> Validation)
    ensures Attempts(token, tries, validate) == Err(TwoRetries) <==>
            forall i :: 0 <= i < |tries| ==> validate(token, tries[i]).SigningKeyNotFound?
    decreases |tries|
  {
    if tries != [] {
      AttemptsExhausted(token, tries[1..], validate);
      assert forall i :: 1 <= i < |tries| ==> tries[i] == tries[1..][i - 1];
    }
  }

  /** The first attempt decides unless its signing key is missing: any other rejection of the
      token fails at once, with no retry. */
  lemma FirstAttemptDecides(token: string, first: ValidationParameters, more: seq<ValidationParameters>, validate: (string, ValidationParameters) -> Validation)
    requires !validate(token, first).SigningKeyNotFound?
    ensures validate(token, first).TokenRejected? ==> Attempts(token, [first] + more, validate) == Err(InvalidToken(token))
    ensures validate(token, first).Validated? ==>
      Attempts(token, [first] + more, validate) == Identify(validate(token, first).oid, validate(token, first).emails)
    ensures Attempts(token, [first] + more, validate) == Attempts(token, [first], validate)
  {
    assert ([first] + more)[0] == first;
  }

  /** `GetConfigurationAsync`: the configuration it returns, the cached one unless none was
      fetched yet or a refresh was requested, in which case the published one. */
  function Fetched(cached: Option<Keys>, refreshRequested: bool, published: Keys): Keys
  {
    if cached.None? || refreshRequested then published else cached.value
  }

  /** The configuration manager: the signing keys it holds and whether a refresh is due. */
  class ConfigurationManager {
    var cached: Option<Keys>
    var refreshRequested: bool

    constructor()
      ensures cached.None? && !refreshRequested
    {
      cached := None;
      refreshRequested := false;
    }

    /** `GetConfigurationAsync`, with `published` the keys the metadata address serves now. */
    method GetConfiguration(published: Keys) returns (keys: Keys)
      modifies this
      ensures keys == Fetched(old(cached), old(refreshRequested), published)
      ensures cached == Some(keys) && !refreshRequested
    {
      if cached.None? || refreshRequested {
        cached := Some(published);
        refreshRequested := false;
      }
      keys := cached.value;
    }

    /** `RequestRefresh`: the next `GetConfigurationAsync` fetches the published keys. */
    method RequestRefresh()
      modifies this
      ensures refreshRequested && cached == old(cached)
    {
      refreshRequested := true;
    }
  }

  /** `getId` as written: both attempts use the parameters built before the loop. */
  function GetIdSpec(authorization: Option<seq<string>>, parameters: ValidationParameters, validate: (string, ValidationParameters) -> Validation): Result<Identity, JwtError>
  {
    match BearerToken(authorization)
    case Err(e) => Err(e)
    case Ok(token) => Attempts(token, [parameters, parameters], validate)
  }

  /** `getId` with the parameters rebuilt from the configuration before each attempt. */
  function GetIdRefreshingSpec(authorization: Option<seq<string>>, first: ValidationParameters, second: ValidationParameters, validate: (string, ValidationParameters) -> Validation): Result<Identity, JwtError>
  {
    match BearerToken(authorization)
    case Err(e) => Err(e)
    case Ok(token) => Attempts(token, [first, second], validate)
  }

  /** As written, the retry repeats the first attempt with the same parameters, so it ends as
      the first did: a request fails with "two reties" exactly when its token's signing key is
      missing from the keys fetched before the loop, whatever was refreshed meanwhile. */
  lemma RetryRepeatsFirstAttempt(authorization: Option<seq<string>>, parameters: ValidationParameters, validate: (string, ValidationParameters) -> Validation)
    ensures BearerToken(authorization).Ok? ==>
      GetIdSpec(authorization, parameters, validate) == Attempts(BearerToken(authorization).value, [parameters], validate)
    ensures GetIdSpec(authorization, parameters, validate) == Err(TwoRetries) <==>
      BearerToken(authorization).Ok? && validate(BearerToken(authorization).value, parameters).SigningKeyNotFound?
  {
    if BearerToken(authorization).Ok? {
      var token := BearerToken(authorization).value;
      assert [parameters, parameters][1..] == [parameters];
      AttemptsExhausted(token, [parameters, parameters], validate);
      AttemptsExhausted(token, [parameters], validate);
    }
  }

  /** The input that shows it: after the provider rotated its keys, a token signed with the
      new key fails as written, and succeeds once the parameters are rebuilt after the
      refresh. */
  lemma KeyRotation(authorization: Option<seq<string>>, stale: ValidationParameters, rotated: ValidationParameters, validate: (string, ValidationParameters) -> Validation)
    requires BearerToken(authorization).Ok?
    requires validate(BearerToken(authorization).value, stale).SigningKeyNotFound?
    requires validate(BearerToken(authorization).value, rotated).Validated?
    ensures GetIdSpec(authorization, stale, validate) == Err(TwoRetries)
    ensures GetIdRefreshingSpec(authorization, stale, rotated, validate) ==
      Identify(validate(BearerToken(authorization).value, rotated).oid, validate(BearerToken(authorization).value, rotated).emails)
  {
    RetryRepeatsFirstAttempt(authorization, stale, validate);
    var token := BearerToken(authorization).value;
    assert [stale, rotated][1..] == [rotated];
    assert Attempts(token, [stale, rotated], validate) == Attempts(token, [rotated], validate);
  }

  /** The request handler's identity check. */
  class JwtHelper {
    const issuer: string
    const audience: string
    const configurationManager: ConfigurationManager

    /** The issuer, audience and metadata address come from the application configuration. */
    constructor(issuer: string, audience: string)
      ensures this.issuer == issuer && this.audience == audience
      ensures fresh(configurationManager) && configurationManager.cached.None?
    {
      this.issuer := issuer;
      this.audience := audience;
      configurationManager := new ConfigurationManager();
    }

    /** `getId` as written, with `published` the keys the metadata address serves and
        `validate` the token handler. */
    method GetId(authorization: Option<seq<string>>, published: Keys, validate: (string, ValidationParameters) -> Validation)
      returns (r: Result<Identity, JwtError>, ghost validations: nat)
      modifies configurationManager
      ensures validations <= 2
      ensures BearerToken(authorization).Err? ==>
        r == Err(BearerToken(authorization).error) && validations == 0 &&
        configurationManager.cached == old(configurationManager.cached) &&
        configurationManager.refreshRequested == old(configurationManager.refreshRequested)
      ensures BearerToken(authorization).Ok? ==>
        var keys := Fetched(old(configurationManager.cached), old(configurationManager.refreshRequested), published);
        r == GetIdSpec(authorization, ValidationParameters(audience, issuer, keys), validate) &&
        configurationManager.cached == Some(keys) &&
        (configurationManager.refreshRequested <==> r == Err(TwoRetries))
    {
      validations := 0;
      var bearer := BearerToken(authorization);
      if bearer.Err? {
        return Err(bearer.error), validations;
      }
      var token := bearer.value;
      var keys := configurationManager.GetConfiguration(published);
      var parameters := ValidationParameters(audience, issuer, keys);
      ghost var tries := [parameters, parameters];
      assert tries[1..] == [parameters];
      for attempt := 0 to 2
        invariant validations == attempt
        invariant configurationManager.cached == Some(keys)
        invariant attempt > 0 ==> validate(token, parameters).SigningKeyNotFound?
        invariant configurationManager.refreshRequested <==> attempt > 0
        invariant Attempts(token, tries[attempt..], validate) == GetIdSpec(authorization, parameters, validate)
      {
        validations := validations + 1;
        match validate(token, parameters)
        case Validated(oid, emails) =>
          return Identify(oid, emails), validations;
        case SigningKeyNotFound =>
          configurationManager.RequestRefresh();
        case TokenRejected =>
          return Err(InvalidToken(token)), validations;
        case ValidatorFault =>
          return Err(Uncaught), validations;
      }
      r := Err(TwoRetries);
    }

    /** `getId` rebuilding the validation parameters from the configuration before each
        attempt, so that the retry uses the keys the refresh fetched. */
    method GetIdRefreshing(authorization: Option<seq<string>>, published: Keys, validate: (string, ValidationParameters) -> Validation)
      returns (r: Result<Identity, JwtError>, ghost validations: nat)
      modifies configurationManager
      ensures validations <= 2
      ensures BearerToken(authorization).Err? ==>
        r == Err(BearerToken(authorization).error) && validations == 0 &&
        configurationManager.cached == old(configurationManager.cached) &&
        configurationManager.refreshRequested == old(configurationManager.refreshRequested)
      ensures BearerToken(authorization).Ok? ==>
        var keys := Fetched(old(configurationManager.cached), old(configurationManager.refreshRequested), published);
        r == GetIdRefreshingSpec(authorization, ValidationParameters(audience, issuer, keys),
                                 ValidationParameters(audience, issuer, published), validate) &&
        configurationManager.cached ==
          Some(if validate(BearerToken(authorization).value, ValidationParameters(audience, issuer, keys)).SigningKeyNotFound?
               then published else keys) &&
        (configurationManager.refreshRequested <==> r == Err(TwoRetries))
    {
      validations := 0;
      var bearer := BearerToken(authorization);
      if bearer.Err? {
        return Err(bearer.error), validations;
      }
      var token := bearer.value;
      ghost var first := Fetched(configurationManager.cached, configurationManager.refreshRequested, published);
      ghost var tries := [ValidationParameters(audience, issuer, first), ValidationParameters(audience, issuer, published)];
      assert tries[1..] == [tries[1]];
      for attempt := 0 to 2
        invariant validations == attempt
        invariant attempt == 0 ==> Fetched(configurationManager.cached, configurationManager.refreshRequested, published) == first
        invariant attempt > 0 ==> configurationManager.refreshRequested
        invariant attempt > 0 ==> validate(token, tries[0]).SigningKeyNotFound?
        invariant attempt == 1 ==> configurationManager.cached == Some(first)
        invariant attempt == 2 ==>
          configurationManager.cached == Some(published) && validate(token, tries[1]).SigningKeyNotFound?
        invariant Attempts(token, tries[attempt..], validate) ==
                  GetIdRefreshingSpec(authorization, tries[0], tries[1], validate)
      {
        var keys := configurationManager.GetConfiguration(published);
        var parameters := ValidationParameters(audience, issuer, keys);
        assert parameters == tries[attempt];
        validations := validations + 1;
        match validate(token, parameters)
        case Validated(oid, emails) =>
          return Identify(oid, emails), validations;
        case SigningKeyNotFound =>
          configurationManager.RequestRefresh();
        case TokenRejected =>
          return Err(InvalidToken(token)), validations;
        case ValidatorFault =>
          return Err(Uncaught), validations;
      }
      r := Err(TwoRetries);
    }
  }
}
