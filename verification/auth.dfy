/** The bearer-token gate: where a token is taken from, and what the access
    and refresh interceptors do with it. The token validator is supplied by
    the application; it is modelled as a pair of total functions from token
    to verdict. */
module Auth {
  import opened Common
  import opened Text
  import opened Errors

  /** The decoded claims of a token (`Claims`); values are kept as strings. */
  type Claims = map<string, string>

  /** What a validator answers for one token: claims, or an error. */
  datatype Verdict = Valid(claims: Claims) | Invalid(err: string)

  /** A `TokenValidator`: one check for access tokens, one for refresh tokens. */
  datatype Validator = Validator(validateAccess: string -> Verdict, validateRefresh: string -> Verdict)

  /** `AuthConfig`: where tokens come from and which gates are mounted. */
  datatype AuthConfig = AuthConfig(
    authHeader: string,
    bearerPrefix: string,
    accessCookie: string,
    refreshCookie: string,
    enableAccess: bool,
    enableRefresh: bool)

  datatype Auth = Auth(cfg: AuthConfig, validator: Validator)

  /** The request as the gate sees it: header values by name, and cookie
      values (already unescaped) by name. */
  datatype Request = Request(headers: map<string, string>, cookies: map<string, string>)

  /** `GetHeader`: the header's value, or "" when absent. */
  function GetHeader(req: Request, name: string): string {
    if name in req.headers then req.headers[name] else ""
  }

  /** Which of the two gates. */
  datatype Kind = Access | Refresh

  /** The interceptor returned by `AccessMiddleware` or `RefreshMiddleware`. */
  datatype Gate = Gate(auth: Auth, kind: Kind)

  /** One call into the validator. */
  datatype Call = Call(kind: Kind, token: string)

  /** What one run of a gate did: the validator calls it made, the errors it
      attached to the request context, the values it stored in the context,
      and its effect on the response and the chain. */
  datatype GateResult = GateResult(
    calls: seq<Call>,
    errors: seq<string>,
    stored: map<string, Claims>,
    effect: Effect)

  const DefaultAuthHeader: string := "Authorization"
  const DefaultBearerPrefix: string := "Bearer "

  /** `newAuth`: fill in the header name and the bearer prefix when unset. */
  function NewAuth(cfg: AuthConfig, v: Validator): (a: Auth)
    ensures a.validator == v
    ensures a.cfg.authHeader == (if cfg.authHeader == "" then DefaultAuthHeader else cfg.authHeader)
    ensures a.cfg.bearerPrefix == (if cfg.bearerPrefix == "" then DefaultBearerPrefix else cfg.bearerPrefix)
    ensures a.cfg.accessCookie == cfg.accessCookie && a.cfg.refreshCookie == cfg.refreshCookie
    ensures a.cfg.enableAccess == cfg.enableAccess && a.cfg.enableRefresh == cfg.enableRefresh
    ensures a.cfg.authHeader != "" && a.cfg.bearerPrefix != ""
  {
    var header := if cfg.authHeader == "" then DefaultAuthHeader else cfg.authHeader;
    var prefix := if cfg.bearerPrefix == "" then DefaultBearerPrefix else cfg.bearerPrefix;
    Auth(cfg.(authHeader := header, bearerPrefix := prefix), v)
  }

  /** Defaulting a configuration that is already complete changes nothing. */
  lemma NewAuthIdempotent(cfg: AuthConfig, v: Validator)
    ensures NewAuth(NewAuth(cfg, v).cfg, v) == NewAuth(cfg, v)
  {
  }

  /** The name of the cookie a gate of this kind may read. */
  function CookieName(cfg: AuthConfig, access: bool): string {
    if access then cfg.accessCookie else cfg.refreshCookie
  }

  /** The header carries the bearer prefix. */
  predicate HasBearer(a: Auth, req: Request) {
    var h := GetHeader(req, a.cfg.authHeader);
    h != "" && HasPrefix(h, a.cfg.bearerPrefix)
  }

  /** `pickToken`: the bearer header wins; otherwise the cookie of this
      gate's kind, when one is configured and non-empty; otherwise "". */
  function PickToken(a: Auth, req: Request, access: bool): (tok: string)
    ensures HasBearer(a, req) ==>
      var h := GetHeader(req, a.cfg.authHeader);
      tok == TrimSpace(h[|a.cfg.bearerPrefix|..])
    ensures !HasBearer(a, req) ==>
      var name := CookieName(a.cfg, access);
      tok == (if name != "" && name in req.cookies then req.cookies[name] else "")
    ensures tok != "" && !HasBearer(a, req) ==>
      CookieName(a.cfg, access) != "" && CookieName(a.cfg, access) in req.cookies
  {
    var h := GetHeader(req, a.cfg.authHeader);
    if h != "" && HasPrefix(h, a.cfg.bearerPrefix) then
      TrimSpace(h[|a.cfg.bearerPrefix|..])
    else if access && a.cfg.accessCookie != "" && a.cfg.accessCookie in req.cookies
         && req.cookies[a.cfg.accessCookie] != "" then
      req.cookies[a.cfg.accessCookie]
    else if !access && a.cfg.refreshCookie != "" && a.cfg.refreshCookie in req.cookies
         && req.cookies[a.cfg.refreshCookie] != "" then
      req.cookies[a.cfg.refreshCookie]
    else ""
  }

  /** A bearer header settles the token: the cookies are not consulted, even
      when the text after the prefix is blank. */
  lemma HeaderBeatsCookies(a: Auth, req: Request, cookies: map<string, string>, access: bool)
    requires HasBearer(a, req)
    ensures PickToken(a, req.(cookies := cookies), access) == PickToken(a, req, access)
  {
  }

  /** A gate never reads the other kind's cookie: changing any cookie other
      than its own leaves the token it picks unchanged. */
  lemma OtherCookieIgnored(a: Auth, req: Request, name: string, value: string, access: bool)
    requires name != CookieName(a.cfg, access)
    ensures PickToken(a, req.(cookies := req.cookies[name := value]), access) == PickToken(a, req, access)
  {
  }

  /** The validator call for this kind of gate. */
  function Validate(v: Validator, kind: Kind, tok: string): Verdict {
    match kind
    case Access => v.validateAccess(tok)
    case Refresh => v.validateRefresh(tok)
  }

  function MissingMessage(kind: Kind): string {
    match kind
    case Access => "access token missing"
    case Refresh => "refresh token missing"
  }

  function InvalidMessage(kind: Kind): string {
    match kind
    case Access => "invalid access token"
    case Refresh => "invalid refresh token"
  }

  /** The context key the claims are stored under. */
  function ClaimsKey(kind: Kind): string {
    match kind
    case Access => "access_claims"
    case Refresh => "refresh_claims"
  }

  /** One run of `AccessMiddleware` or `RefreshMiddleware` on a request. */
  function Run(g: Gate, req: Request): (r: GateResult)
    ensures |r.calls| <= 1
    ensures forall i :: 0 <= i < |r.calls| ==> r.calls[i].kind == g.kind
    ensures r.effect.nextCalls <= 1 && (r.effect.nextCalls == 1 <==> !r.effect.aborted)
    ensures r.effect.aborted ==> r.effect.Status() == Some(StatusUnauthorized) && r.stored == map[]
    ensures
      var tok := PickToken(g.auth, req, g.kind == Access);
      && (tok == "" ==>
            && r.calls == [] && r.errors == [] && r.effect.aborted
            && r.effect == RespondError(StatusUnauthorized, "no_token", MissingMessage(g.kind), None))
      && (tok != "" ==> r.calls == [Call(g.kind, tok)])
      && (tok != "" && Validate(g.auth.validator, g.kind, tok).Invalid? ==>
            && r.errors == [Validate(g.auth.validator, g.kind, tok).err]
            && r.effect == RespondError(StatusUnauthorized, "invalid_token", InvalidMessage(g.kind), None))
      && (tok != "" && Validate(g.auth.validator, g.kind, tok).Valid? ==>
            && r.errors == [] && r.effect == Pass
            && r.stored == map[ClaimsKey(g.kind) := Validate(g.auth.validator, g.kind, tok).claims])
  {
    var tok := PickToken(g.auth, req, g.kind == Access);
    if tok == "" then
      GateResult([], [], map[], RespondError(StatusUnauthorized, "no_token", MissingMessage(g.kind), None))
    else
      match Validate(g.auth.validator, g.kind, tok)
      case Invalid(err) =>
        GateResult([Call(g.kind, tok)], [err], map[],
          RespondError(StatusUnauthorized, "invalid_token", InvalidMessage(g.kind), None))
      case Valid(claims) =>
        GateResult([Call(g.kind, tok)], [], map[ClaimsKey(g.kind) := claims], Pass)
  }

  /** The outcome of a gate is one of three: rejected for a missing token,
      rejected for an invalid one, or continued with the claims stored. */
  lemma ThreeOutcomes(g: Gate, req: Request)
    ensures
      var r := Run(g, req);
      || (r.effect.written.Json? && r.effect.written.body.code == "no_token" && r.calls == [])
      || (r.effect.written.Json? && r.effect.written.body.code == "invalid_token" && |r.errors| == 1)
      || (r.effect == Pass && ClaimsKey(g.kind) in r.stored)
  {
  }

  /** The validator's error text never reaches the response: two validators
      that both reject a token produce the same response. */
  lemma ErrorTextNotExposed(a: Auth, v2: Validator, kind: Kind, req: Request)
    requires
      var tok := PickToken(a, req, kind == Access);
      tok != "" && Validate(a.validator, kind, tok).Invalid? && Validate(v2, kind, tok).Invalid?
    ensures Run(Gate(a, kind), req).effect == Run(Gate(a.(validator := v2), kind), req).effect
  {
  }

  /** `StubValidator`: accepts only the token "ok". */
  function StubValidator(): (v: Validator)
    ensures forall tok :: v.validateAccess(tok).Valid? <==> tok == "ok"
    ensures forall tok :: v.validateRefresh(tok).Valid? <==> tok == "ok"
  {
    Validator(
      tok => if tok == "ok" then Valid(map["sub" := "demo", "role" := "user"]) else Invalid("bad token"),
      tok => if tok == "ok" then Valid(map["sub" := "demo"]) else Invalid("bad token"))
  }

  /** The claims and error the stub hands out. */
  lemma StubVerdicts(tok: string)
    ensures StubValidator().validateAccess(tok) ==
      (if tok == "ok" then Valid(map["sub" := "demo", "role" := "user"]) else Invalid("bad token"))
    ensures StubValidator().validateRefresh(tok) ==
      (if tok == "ok" then Valid(map["sub" := "demo"]) else Invalid("bad token"))
  {
  }

  /** `AuthOnly`: a gate with the standard header and prefix and no cookie
      names, of the access kind when `access` holds and refresh otherwise. */
  function AuthOnly(v: Validator, access: bool): (g: Gate)
    ensures g.auth.cfg.authHeader == "Authorization" && g.auth.cfg.bearerPrefix == "Bearer "
    ensures g.auth.cfg.accessCookie == "" && g.auth.cfg.refreshCookie == ""
    ensures g.kind == (if access then Access else Refresh)
    ensures g.auth.validator == v
  {
    var a := NewAuth(AuthConfig("Authorization", "Bearer ", "", "", false, false), v);
    if access then Gate(a, Access) else Gate(a, Refresh)
  }

  /** An `AuthOnly` gate only ever calls the validator of its own kind. */
  lemma AuthOnlyCallsOwnValidator(v: Validator, access: bool, req: Request)
    ensures forall i :: 0 <= i < |Run(AuthOnly(v, access), req).calls| ==>
      Run(AuthOnly(v, access), req).calls[i].kind == (if access then Access else Refresh)
  {
  }

  /** Without a bearer header, an `AuthOnly` gate rejects with `no_token`
      whatever cookies the request carries, and never calls the validator. */
  lemma {:induction false} AuthOnlyIgnoresCookies(v: Validator, access: bool, req: Request)
    requires !HasBearer(AuthOnly(v, access).auth, req)
    ensures Run(AuthOnly(v, access), req).calls == []
    ensures Run(AuthOnly(v, access), req).effect.written.Json?
    ensures Run(AuthOnly(v, access), req).effect.written.body.code == "no_token"
  {
    var g := AuthOnly(v, access);
    assert PickToken(g.auth, req, g.kind == Access) == "";
  }
}
