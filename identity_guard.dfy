/**
 * `IdentityGuard.canActivate`: resolves the caller from the `x-user-id` header, falling back to
 * a configured test user outside production, and rejects with a 401 Problem Details body.
 */
module IdentityGuard {
  import opened Wrappers
  import opened ProblemDetails
  import opened Exceptions

  /**
   * A configuration value as the environment supplies it: unset, or a raw string. Nothing
   * parses these strings, so `ALLOW_IDENTITY_FALLBACK=false` is the non-empty string "false".
   */
  datatype Setting = Unset | Raw(text: string)

  datatype GuardConfig = GuardConfig(nodeEnv: Setting, allowFallback: Setting, defaultUserId: Setting)

  const DefaultTestUserId: string := "test-user-001"

  /** `configService.get('ALLOW_IDENTITY_FALLBACK', true)` read for truthiness. */
  predicate FallbackAllowed(config: GuardConfig) {
    match config.allowFallback
    case Unset => true
    case Raw(text) => text != ""
  }

  /** `configService.get('DEFAULT_TEST_USER_ID', 'test-user-001')`. */
  function DefaultUserId(config: GuardConfig): string {
    match config.defaultUserId
    case Unset => DefaultTestUserId
    case Raw(text) => text
  }

  predicate IsProduction(config: GuardConfig) {
    config.nodeEnv == Raw("production")
  }

  /** The header is present and non-empty (`!userId` is false). */
  predicate HeaderGiven(header: Option<string>) {
    header.Some? && header.value != ""
  }

  /** `userId || (allowFallback ? defaultUserId : null)`, with `""` read as absent. */
  function EffectiveUserId(header: Option<string>, config: GuardConfig): (id: Option<string>)
    ensures id.Some? ==> id.value != ""
    ensures HeaderGiven(header) ==> id == header
    ensures !HeaderGiven(header) && !FallbackAllowed(config) ==> id == None
  {
    if HeaderGiven(header) then header
    else if FallbackAllowed(config) && DefaultUserId(config) != "" then Some(DefaultUserId(config))
    else None
  }

  datatype Decision = Allow(userId: string) | Reject(detail: string)

  const MissingInProduction: string := "Missing x-user-id header in production environment"
  const MissingHeader: string := "Missing x-user-id header"
  const InvalidUser: string := "Invalid user identifier"

  /** The decision chain: production check, then effective id, then user lookup. */
  function Decide(header: Option<string>, config: GuardConfig, users: set<string>): (d: Decision)
    ensures d.Allow? ==> d.userId in users && EffectiveUserId(header, config) == Some(d.userId)
    ensures d.Allow? && IsProduction(config) ==> header == Some(d.userId)
  {
    if IsProduction(config) && !HeaderGiven(header) then Reject(MissingInProduction)
    else
      var effective := EffectiveUserId(header, config);
      if effective.None? then Reject(MissingHeader)
      else if effective.value !in users then Reject(InvalidUser)
      else Allow(effective.value)
  }

  /** The body of each rejection: an `unauthorized` problem at the request URL. */
  function Rejection(detail: string, url: string): Thrown {
    UnauthorizedException(Build("unauthorized", "Unauthorized", 401, Str(detail), url, map[]))
  }

  /** In production a request without the header is refused, whatever the fallback settings. */
  lemma ProductionNeedsHeader(header: Option<string>, config: GuardConfig, users: set<string>)
    requires IsProduction(config) && !HeaderGiven(header)
    ensures Decide(header, config, users) == Reject(MissingInProduction)
  {
  }

  /**
   * A request is let through exactly when its effective id names a user and it is not a
   * headerless request in production; the user it runs as is the header's, or else the
   * fallback id.
   */
  lemma AllowedExactly(header: Option<string>, config: GuardConfig, users: set<string>)
    ensures Decide(header, config, users).Allow? <==>
      && !(IsProduction(config) && !HeaderGiven(header))
      && EffectiveUserId(header, config).Some?
      && EffectiveUserId(header, config).value in users
    ensures Decide(header, config, users).Allow? ==>
      && Decide(header, config, users).userId in users
      && (HeaderGiven(header) ==> Decide(header, config, users).userId == header.value)
      && (!HeaderGiven(header) ==>
            FallbackAllowed(config) && Decide(header, config, users).userId == DefaultUserId(config))
  {
  }

  /**
   * Which refusal: without an effective id "Missing x-user-id header", with one that names no
   * user "Invalid user identifier".
   */
  lemma RejectionReasons(header: Option<string>, config: GuardConfig, users: set<string>)
    requires !(IsProduction(config) && !HeaderGiven(header))
    ensures EffectiveUserId(header, config).None? ==> Decide(header, config, users) == Reject(MissingHeader)
    ensures EffectiveUserId(header, config).Some? && EffectiveUserId(header, config).value !in users
      ==> Decide(header, config, users) == Reject(InvalidUser)
  {
  }

  /** Outside production, with nothing configured, a headerless request runs as `test-user-001`. */
  lemma DefaultsFallBackToTestUser(nodeEnv: Setting, users: set<string>)
    requires nodeEnv != Raw("production")
    requires DefaultTestUserId in users
    ensures Decide(None, GuardConfig(nodeEnv, Unset, Unset), users) == Allow(DefaultTestUserId)
  {
  }

  /** Setting the fallback flag to the text "false" does not switch the fallback off. */
  lemma FalseTextStillFallsBack(nodeEnv: Setting, users: set<string>)
    requires nodeEnv != Raw("production")
    requires DefaultTestUserId in users
    ensures Decide(Some(""), GuardConfig(nodeEnv, Raw("false"), Unset), users) == Allow(DefaultTestUserId)
  {
  }

  /** The incoming request; `user` is what the guard attaches. */
  class Request {
    var header: Option<string>
    var url: string
    var user: Option<string>

    constructor (header: Option<string>, url: string)
      ensures this.header == header && this.url == url && user == None
    {
      this.header := header;
      this.url := url;
      user := None;
    }
  }

  /** `canActivate`: returns true after attaching the user, or throws a 401 rejection. */
  method CanActivate(request: Request, config: GuardConfig, users: set<string>) returns (r: Result<bool, Thrown>)
    modifies request
    ensures request.header == old(request.header) && request.url == old(request.url)
    ensures match Decide(request.header, config, users)
      case Allow(u) => r == Success(true) && request.user == Some(u)
      case Reject(detail) => r == Failure(Rejection(detail, request.url)) && request.user == old(request.user)
  {
    var userId := request.header;
    if IsProduction(config) && !HeaderGiven(userId) {
      return Failure(Rejection(MissingInProduction, request.url));
    }
    var effectiveUserId := EffectiveUserId(userId, config);
    if effectiveUserId.None? {
      return Failure(Rejection(MissingHeader, request.url));
    }
    if effectiveUserId.value !in users {
      return Failure(Rejection(InvalidUser, request.url));
    }
    request.user := effectiveUserId;
    return Success(true);
  }

  /** Every rejection is an HTTP 401 whose body is a 401 `unauthorized` problem with the reason as detail. */
  lemma RejectionIsUnauthorized(detail: string, url: string)
    ensures var e := Rejection(detail, url);
      && e.HttpException? && e.status == 401 && e.response.Object?
      && e.response.fields.Keys == StandardMembers
      && e.response.fields["type"] == Str(ProblemTypeBase + "unauthorized")
      && e.response.fields["status"] == Num(401)
      && e.response.fields["detail"] == Str(detail)
      && e.response.fields["instance"] == Str(url)
  {
    BuildWithoutExtensions("unauthorized", "Unauthorized", 401, Str(detail), url);
  }
}
