/**
 * The life of an OAuth grant (mcp_server/oauth_provider.py): consent, code exchange, refresh rotation, the re-check
 * of the API key behind it, and revocation. Each request is one step; the clock never runs backwards.
 */
module OAuthProvider {
  import opened Wrappers
  import opened TokenStore

  type Nonce = string

  const AUTH_CODE_TTL := 300.0

  datatype Config = Config(tokenTtl: int, refreshTtl: int, maxAge: int)

  datatype Pending = Pending(client: ClientId, scopes: seq<string>, expiresAt: real)

  /** What the backend says of an API key. */
  datatype Answer = Usable(user: string, role: string) | Unusable | Unavailable

  datatype Refusal = Expired | MissingKey | RateLimited | BackendDown | BadKey | AccessDenied
    | InvalidGrant | InvalidScope | TooOld | KeyRevoked

  datatype Reply =
    | ConsentPage(nonce: Nonce)
    | CodeIssued(code: Token)
    | TokensIssued(access: Token, refresh: Token, granted: seq<string>)
    | Bearer(grant: Grant)
    | Done
    | Refused(reason: Refusal)

  /**
   * The stored grants with their history: the consent each credential came from, and when each consent's
   * grant began. A consent whose grant has no beginning yet holds a code, or a token from before stamps.
   */
  datatype World = World(
    pending: map<Nonce, Pending>, issued: Issued,
    consent: map<Token, nat>, began: map<nat, int>, consents: nat, clock: real)

  datatype Outcome = Outcome(world: World, reply: Reply)

  function ScopesForRole(role: string): seq<string> {
    if role == "admin" then ["admin", "editor"] else ["editor"]
  }

  function Allowed(scopes: seq<string>, role: string): seq<string> {
    if scopes == [] then []
    else (if scopes[0] in ScopesForRole(role) then [scopes[0]] else []) + Allowed(scopes[1..], role)
  }

  /** A key is finished once revoked, or once its user may only read. */
  predicate Dead(answer: Answer) {
    answer.Unusable? || (answer.Usable? && answer.role == "reader")
  }

  // ---- requests -----------------------------------------------------------------------

  datatype Request =
    | Authorize(client: ClientId, scopes: seq<string>, nonce: Nonce)
    | Consent(nonce: Nonce, typed: string, limited: bool, key: KeyId, answer: Answer, code: Token)
    | ExchangeCode(client: ClientId, code: Token, access: Token, refresh: Token)
    | ExchangeRefresh(client: ClientId, token: Token, asked: seq<string>, answer: Answer, access: Token, refresh: Token)
    | LoadAccess(token: Token, answer: Answer)
    | RevokeAccess(token: Token)
    | RevokeRefresh(token: Token)
    | Restart(readable: bool)

  ghost function DoAuthorize(w: World, client: ClientId, scopes: seq<string>, nonce: Nonce): Outcome {
    var open := map n | n in w.pending && w.clock <= w.pending[n].expiresAt :: w.pending[n];
    Outcome(w.(pending := open[nonce := Pending(client, scopes, w.clock + AUTH_CODE_TTL)]), ConsentPage(nonce))
  }

  ghost function DoConsent(
      w: World, nonce: Nonce, typed: string, limited: bool, key: KeyId, answer: Answer, code: Token): Outcome
  {
    if nonce !in w.pending || w.pending[nonce].expiresAt < w.clock then Outcome(w, Refused(Expired))
    else if typed == "" then Outcome(w, Refused(MissingKey))
    else if limited then Outcome(w, Refused(RateLimited))
    else
      match answer
      case Unavailable => Outcome(w, Refused(BackendDown))
      case Unusable => Outcome(w, Refused(BadKey))
      case Usable(user, role) =>
        if role == "reader" then Outcome(w.(pending := w.pending - {nonce}), Refused(AccessDenied))
        else
          var claims := Claims(Some(key), Some(user), Some(role), None);
          var open := w.pending[nonce];
          var scopes := if open.scopes == [] then [role] else open.scopes;
          var grant := Grant(open.client, claims, scopes, At(w.clock + AUTH_CODE_TTL), true);
          Outcome(
            w.(pending := w.pending - {nonce},
               issued := w.issued.(codes := w.issued.codes[code := grant]),
               consent := w.consent[code := w.consents],
               consents := w.consents + 1),
            CodeIssued(code))
  }

  function AccessGrant(config: Config, client: ClientId, claims: Claims, scopes: seq<string>, now: real): Grant {
    Grant(client, claims.(grantedAt := None), scopes, At((now.Floor + config.tokenTtl) as real), true)
  }

  function RefreshGrant(config: Config, client: ClientId, claims: Claims, scopes: seq<string>, now: real): Grant {
    Grant(client, claims, scopes, At((now.Floor + config.refreshTtl) as real), true)
  }

  ghost function Origin(w: World, token: Token): nat {
    if token in w.consent then w.consent[token] else 0
  }

  ghost function DoExchangeCode(
      w: World, config: Config, client: ClientId, code: Token, access: Token, refresh: Token): Outcome
  {
    var found := Lookup(Code, w.issued.codes, code, w.clock);
    if found.None? || found.value.client != client then Outcome(w, Refused(InvalidGrant))
    else
      var c := found.value.claims;
      var role := c.role.GetOr("");
      var claims := Claims(Some(c.key.GetOr("")), Some(c.user.GetOr("")), Some(role), None);
      var scopes := ScopesForRole(role);
      var began := w.clock.Floor;
      Outcome(
        w.(issued := Issued(
             w.issued.access[access := AccessGrant(config, client, claims, scopes, w.clock)],
             w.issued.refresh[refresh := RefreshGrant(config, client, claims.(grantedAt := Some(began)), scopes,
               w.clock)],
             w.issued.codes - {code}),
           consent := w.consent[access := Origin(w, code)][refresh := Origin(w, code)],
           began := w.began[Origin(w, code) := began]),
        TokensIssued(access, refresh, scopes))
  }

  /** A grant without a stamp, or with a zero one, begins now. */
  function Beginning(claims: Claims, now: real): int {
    if claims.grantedAt.Some? && claims.grantedAt.value != 0 then claims.grantedAt.value else now.Floor
  }

  predicate Identified(claims: Claims) {
    claims.key.Some? && claims.user.Some? && claims.role.Some?
  }

  ghost function DoRecheck(w: World, key: KeyId, answer: Answer): World {
    if Dead(answer) then w.(issued := IssuedWithout(w.issued, key)) else w
  }

  /** The role and user may have changed since consent; an unreachable backend leaves both as they were. */
  function Refreshed(claims: Claims, answer: Answer, began: int): Claims {
    var current := if answer.Usable? then claims.(user := Some(answer.user), role := Some(answer.role)) else claims;
    current.(grantedAt := Some(began))
  }

  function Narrowed(asked: seq<string>, answer: Answer): seq<string> {
    if answer.Usable? then
      var kept := Allowed(asked, answer.role);
      if kept == [] then ["editor"] else kept
    else asked
  }

  ghost function DoExchangeRefresh(
    w: World, config: Config, client: ClientId, token: Token, asked: seq<string>, answer: Answer,
    access: Token, refresh: Token): Outcome
  {
    var found := Lookup(Refresh, w.issued.refresh, token, w.clock);
    if found.None? || found.value.client != client then Outcome(w, Refused(InvalidGrant))
    else if exists s :: s in asked && s !in found.value.scopes then Outcome(w, Refused(InvalidScope))
    else if !Identified(found.value.claims) then Outcome(w, Refused(InvalidGrant))
    else Rotated(w, config, token, found.value, asked, answer, access, refresh)
  }

  /** The presented token's age and key decide whether it is rotated. */
  ghost function Rotated(
    w: World, config: Config, token: Token, presented: Grant, asked: seq<string>, answer: Answer,
    access: Token, refresh: Token): Outcome
    requires Identified(presented.claims)
  {
    var prior := presented.claims;
    var began := Beginning(prior, w.clock);
    if w.clock - began as real > config.maxAge as real then
      Outcome(w.(issued := w.issued.(refresh := w.issued.refresh - {token})), Refused(TooOld))
    else if Dead(answer) then Outcome(DoRecheck(w, prior.key.value, answer), Refused(KeyRevoked))
    else
      var claims := Refreshed(prior, answer, began);
      var scopes := Narrowed(asked, answer);
      Outcome(
        w.(issued := w.issued.(
             access := w.issued.access[access := AccessGrant(config, presented.client, claims, scopes, w.clock)],
             refresh := (w.issued.refresh - {token})[
               refresh := RefreshGrant(config, presented.client, claims, presented.scopes, w.clock)]),
           consent := w.consent[access := Origin(w, token)][refresh := Origin(w, token)],
           began := w.began[Origin(w, token) := began]),
        TokensIssued(access, refresh, scopes))
  }

  ghost function DoLoadAccess(w: World, token: Token, answer: Answer): Outcome {
    var found := Lookup(Access, w.issued.access, token, w.clock);
    if found.None? then Outcome(w, Refused(InvalidGrant)) else Accepted(w, found.value, answer)
  }

  ghost function Accepted(w: World, found: Grant, answer: Answer): Outcome {
    var key := found.claims.key.GetOr("");
    if key != "" && Dead(answer) then Outcome(DoRecheck(w, key, answer), Refused(KeyRevoked))
    else Outcome(w, Bearer(found))
  }

  ghost function Do(w: World, config: Config, request: Request): Outcome {
    match request
    case Authorize(client, scopes, nonce) => DoAuthorize(w, client, scopes, nonce)
    case Consent(nonce, typed, limited, key, answer, code) => DoConsent(w, nonce, typed, limited, key, answer, code)
    case ExchangeCode(client, code, access, refresh) => DoExchangeCode(w, config, client, code, access, refresh)
    case ExchangeRefresh(client, token, asked, answer, access, refresh) =>
      DoExchangeRefresh(w, config, client, token, asked, answer, access, refresh)
    case LoadAccess(token, answer) => DoLoadAccess(w, token, answer)
    case RevokeAccess(token) =>
      Outcome(w.(issued := w.issued.(access := w.issued.access - {token})), Done)
    case RevokeRefresh(token) =>
      Outcome(w.(issued := w.issued.(refresh := w.issued.refresh - {token})), Done)
    case Restart(readable) => Outcome(DoRestart(w, readable), Done)
  }

  /** Consent sessions do not survive a restart; the grants do if the store's file can be read back. */
  ghost function DoRestart(w: World, readable: bool): World {
    w.(pending := map[], issued := if readable then w.issued else NOTHING)
  }

  const NOTHING: Issued := Issued(map[], map[], map[])

  // ---- runs ---------------------------------------------------------------------------

  datatype Event = Event(request: Request, at: real)

  ghost predicate Fresh(w: World, token: Token) {
    token !in w.consent && token !in w.issued.access
  }

  /** Time moves on, and random values have never been seen before. */
  ghost predicate Fits(w: World, e: Event) {
    && w.clock <= e.at
    && match e.request
       case Consent(_, _, _, _, _, code) => Fresh(w, code)
       case ExchangeCode(_, _, access, refresh) => Fresh(w, access) && Fresh(w, refresh) && access != refresh
       case ExchangeRefresh(_, _, _, _, access, refresh) => Fresh(w, access) && Fresh(w, refresh) && access != refresh
       case _ => true
  }

  ghost function Step(w: World, config: Config, e: Event): Outcome {
    Do(w.(clock := e.at), config, e.request)
  }

  ghost function Run(w: World, config: Config, es: seq<Event>): World
    decreases |es|
  {
    if es == [] then w else Run(Step(w, config, es[0]).world, config, es[1..])
  }

  ghost predicate Happens(w: World, config: Config, es: seq<Event>)
    decreases |es|
  {
    es == [] || (Fits(w, es[0]) && Happens(Step(w, config, es[0]).world, config, es[1..]))
  }

  /** A run is its events one after the other: one more of them is a step from where the run has come to. */
  lemma {:induction false} RunExtends(w: World, config: Config, es: seq<Event>, e: Event)
    ensures Run(w, config, es + [e]) == Step(Run(w, config, es), config, e).world
    ensures Happens(w, config, es + [e]) <==> Happens(w, config, es) && Fits(Run(w, config, es), e)
    decreases |es|
  {
    if es == [] {
      assert [] + [e] == [e];
    } else {
      assert (es + [e])[1..] == es[1..] + [e];
      RunExtends(Step(w, config, es[0]).world, config, es[1..], e);
    }
  }

  // ---- the invariant ------------------------------------------------------------------

  /** The codes and refresh tokens in store: what a consent can still be redeemed with. */
  ghost function Credentials(w: World): set<Token> {
    w.issued.codes.Keys + w.issued.refresh.Keys
  }

  /** Each consent has at most one of them. */
  ghost predicate OnePerConsent(w: World) {
    && w.issued.codes.Keys !! w.issued.refresh.Keys
    && Credentials(w) <= w.consent.Keys
    && forall a, b :: a in Credentials(w) && b in Credentials(w) && w.consent[a] == w.consent[b] ==> a == b
  }

  ghost predicate Stamped(claims: Claims) {
    claims.grantedAt.Some? && claims.grantedAt.value != 0
  }

  /** Every refresh token carries the beginning of its consent's grant, if that has one yet; no code's has. */
  ghost predicate StampsAgree(w: World)
    requires Credentials(w) <= w.consent.Keys
  {
    && (forall t :: t in w.issued.codes ==> w.consent[t] !in w.began)
    && (forall t :: t in w.issued.refresh ==>
          if Stamped(w.issued.refresh[t].claims)
          then w.consent[t] in w.began && w.began[w.consent[t]] == w.issued.refresh[t].claims.grantedAt.value
          else w.consent[t] !in w.began)
  }

  /** No access token of a grant outlives the grant's maximum age plus one token lifetime. */
  ghost predicate AccessBounded(w: World, config: Config) {
    forall t :: t in w.issued.access && t in w.consent && w.consent[t] in w.began ==>
      && w.issued.access[t].expiry.At?
      && w.issued.access[t].expiry.time <= (w.began[w.consent[t]] + config.maxAge + config.tokenTtl) as real
  }

  ghost predicate Inv(w: World, config: Config) {
    && 1.0 <= w.clock && 0 <= config.maxAge
    && OnePerConsent(w)
    && StampsAgree(w)
    && AccessBounded(w, config)
    && (forall t :: t in w.consent ==> w.consent[t] < w.consents)
    && (forall c :: c in w.began ==> c < w.consents && w.began[c] != 0)
    && (forall t :: t in w.issued.access && t in w.consent ==> w.consent[t] in w.began)
  }

  lemma LaterKeeps(w: World, config: Config, now: real)
    requires Inv(w, config) && w.clock <= now
    ensures Inv(w.(clock := now), config)
  {}

  /** The world of a provider just started. */
  ghost function Started(past: World, now: real): World {
    past.(pending := map[], clock := now)
  }

  lemma StartKeeps(past: World, config: Config, now: real)
    requires Inv(past, config) && past.clock <= now
    ensures Inv(Started(past, now), config)
  {}

  lemma FewerKeeps(w: World, config: Config, left: Issued)
    requires Inv(w, config)
    requires left.access.Keys <= w.issued.access.Keys
    requires forall t :: t in left.access ==> left.access[t] == w.issued.access[t]
    requires left.refresh.Keys <= w.issued.refresh.Keys
    requires forall t :: t in left.refresh ==> left.refresh[t] == w.issued.refresh[t]
    requires left.codes.Keys <= w.issued.codes.Keys
    ensures Inv(w.(issued := left), config)
  {}

  lemma CodeAdded(w: World, config: Config, code: Token, grant: Grant)
    requires Inv(w, config) && Fresh(w, code)
    ensures Inv(w.(
        issued := w.issued.(codes := w.issued.codes[code := grant]),
        consent := w.consent[code := w.consents], consents := w.consents + 1), config)
  {}

  /** A credential replaced by a refresh token and an access token of the same consent. */
  ghost function Redeemed(w: World, from: Token, access: Token, a: Grant, refresh: Token, r: Grant, began: int): World {
    w.(issued := Issued(
         w.issued.access[access := a], (w.issued.refresh - {from})[refresh := r], w.issued.codes - {from}),
       consent := w.consent[access := Origin(w, from)][refresh := Origin(w, from)],
       began := w.began[Origin(w, from) := began])
  }

  /** What a redeemed grant must look like: stamped with its beginning, its access token within bounds. */
  ghost predicate Redeemable(
    w: World, config: Config, from: Token, access: Token, a: Grant, refresh: Token, r: Grant, began: int)
  {
    && from in Credentials(w) && from in w.consent
    && Fresh(w, access) && Fresh(w, refresh) && access != refresh
    && began != 0 && r.claims.grantedAt == Some(began)
    && (w.consent[from] in w.began ==> w.began[w.consent[from]] == began)
    && a.expiry.At? && a.expiry.time <= (began + config.maxAge + config.tokenTtl) as real
  }

  lemma RedeemedOnePerConsent(
      w: World, config: Config, from: Token, access: Token, a: Grant, refresh: Token, r: Grant, began: int)
    requires Inv(w, config) && Redeemable(w, config, from, access, a, refresh, r, began)
    ensures OnePerConsent(Redeemed(w, from, access, a, refresh, r, began))
  {
    var after := Redeemed(w, from, access, a, refresh, r, began);
    assert Credentials(after) == Credentials(w) - {from} + {refresh};
    forall t | t in Credentials(w) && t != from ensures after.consent[t] == w.consent[t] != w.consent[from] {}
  }

  lemma RedeemedStamps(
      w: World, config: Config, from: Token, access: Token, a: Grant, refresh: Token, r: Grant, began: int)
    requires Inv(w, config) && Redeemable(w, config, from, access, a, refresh, r, began)
    requires OnePerConsent(Redeemed(w, from, access, a, refresh, r, began))
    ensures StampsAgree(Redeemed(w, from, access, a, refresh, r, began))
  {
    var after := Redeemed(w, from, access, a, refresh, r, began);
    forall t | t in Credentials(w) && t != from ensures after.consent[t] == w.consent[t] != w.consent[from] {}
  }

  lemma RedeemedAccess(
      w: World, config: Config, from: Token, access: Token, a: Grant, refresh: Token, r: Grant, began: int)
    requires Inv(w, config) && Redeemable(w, config, from, access, a, refresh, r, began)
    ensures
      var after := Redeemed(w, from, access, a, refresh, r, began);
      AccessBounded(after, config)
      && forall t :: t in after.issued.access && t in after.consent ==> after.consent[t] in after.began
  {}

  lemma RedeemedKeeps(
      w: World, config: Config, from: Token, access: Token, a: Grant, refresh: Token, r: Grant, began: int)
    requires Inv(w, config) && Redeemable(w, config, from, access, a, refresh, r, began)
    ensures Inv(Redeemed(w, from, access, a, refresh, r, began), config)
  {
    RedeemedOnePerConsent(w, config, from, access, a, refresh, r, began);
    RedeemedStamps(w, config, from, access, a, refresh, r, began);
    RedeemedAccess(w, config, from, access, a, refresh, r, began);
  }

  lemma ExchangeCodeRedeems(
      w: World, config: Config, client: ClientId, code: Token, access: Token, refresh: Token)
    requires Inv(w, config) && Fresh(w, access) && Fresh(w, refresh) && access != refresh
    requires DoExchangeCode(w, config, client, code, access, refresh).reply.TokensIssued?
    ensures
      var after := DoExchangeCode(w, config, client, code, access, refresh).world;
      var a, r := after.issued.access[access], after.issued.refresh[refresh];
      && Redeemable(w, config, code, access, a, refresh, r, w.clock.Floor)
      && after == Redeemed(w, code, access, a, refresh, r, w.clock.Floor)
  {
    assert w.issued.refresh - {code} == w.issued.refresh;
  }

  lemma ExchangeRefreshRedeems(
      w: World, config: Config, client: ClientId, token: Token, asked: seq<string>, answer: Answer,
      access: Token, refresh: Token)
    requires Inv(w, config) && Fresh(w, access) && Fresh(w, refresh) && access != refresh
    requires DoExchangeRefresh(w, config, client, token, asked, answer, access, refresh).reply.TokensIssued?
    ensures
      var after := DoExchangeRefresh(w, config, client, token, asked, answer, access, refresh).world;
      var a, r := after.issued.access[access], after.issued.refresh[refresh];
      var began := Beginning(w.issued.refresh[token].claims, w.clock);
      && Redeemable(w, config, token, access, a, refresh, r, began)
      && after == Redeemed(w, token, access, a, refresh, r, began)
      && w.clock - began as real <= config.maxAge as real
  {
    assert w.issued.codes - {token} == w.issued.codes;
  }

  lemma ConsentKeeps(w: World, config: Config, request: Request)
    requires Inv(w, config) && Fits(w, Event(request, w.clock)) && request.Consent?
    ensures Inv(Do(w, config, request).world, config)
  {
    if Do(w, config, request).reply.CodeIssued? {
      var grant := Do(w, config, request).world.issued.codes[request.code];
      CodeAdded(w.(pending := w.pending - {request.nonce}), config, request.code, grant);
    }
  }

  /** A refresh that is refused changes nothing but the grants, and of those only loses some. */
  lemma RefusedRefreshLoses(w: World, config: Config, request: Request)
    requires request.ExchangeRefresh? && Do(w, config, request).reply.Refused?
    ensures
      var left := Do(w, config, request).world.issued;
      && Do(w, config, request).world == w.(issued := left)
      && left.access.Keys <= w.issued.access.Keys
      && (forall t :: t in left.access ==> left.access[t] == w.issued.access[t])
      && left.refresh.Keys <= w.issued.refresh.Keys
      && (forall t :: t in left.refresh ==> left.refresh[t] == w.issued.refresh[t])
      && left.codes.Keys <= w.issued.codes.Keys && (forall t :: t in left.codes ==> left.codes[t] == w.issued.codes[t])
  {}

  lemma RefusedRefreshKeeps(w: World, config: Config, request: Request)
    requires Inv(w, config) && request.ExchangeRefresh? && Do(w, config, request).reply.Refused?
    ensures Inv(Do(w, config, request).world, config)
  {
    RefusedRefreshLoses(w, config, request);
    FewerKeeps(w, config, Do(w, config, request).world.issued);
  }

  lemma RefreshKeeps(w: World, config: Config, request: Request)
    requires Inv(w, config) && Fits(w, Event(request, w.clock)) && request.ExchangeRefresh?
    ensures Inv(Do(w, config, request).world, config)
  {
    if Do(w, config, request).reply.TokensIssued? {
      var ExchangeRefresh(client, token, asked, answer, access, refresh) := request;
      var after := Do(w, config, request).world;
      ExchangeRefreshRedeems(w, config, client, token, asked, answer, access, refresh);
      RedeemedKeeps(w, config, token, access, after.issued.access[access], refresh, after.issued.refresh[refresh],
        Beginning(w.issued.refresh[token].claims, w.clock));
    } else {
      RefusedRefreshKeeps(w, config, request);
    }
  }

  lemma CodeKeeps(w: World, config: Config, request: Request)
    requires Inv(w, config) && Fits(w, Event(request, w.clock)) && request.ExchangeCode?
    ensures Inv(Do(w, config, request).world, config)
  {
    var ExchangeCode(client, code, access, refresh) := request;
    var after := Do(w, config, request).world;
    if Do(w, config, request).reply.TokensIssued? {
      ExchangeCodeRedeems(w, config, client, code, access, refresh);
      RedeemedKeeps(w, config, code, access, after.issued.access[access], refresh, after.issued.refresh[refresh],
        w.clock.Floor);
    }
  }

  lemma PendingKeeps(w: World, config: Config, pending: map<Nonce, Pending>)
    requires Inv(w, config)
    ensures Inv(w.(pending := pending), config)
  {}

  lemma RecheckKeeps(w: World, config: Config, key: KeyId, answer: Answer)
    requires Inv(w, config)
    ensures Inv(DoRecheck(w, key, answer), config)
  {
    FewerKeeps(w, config, DoRecheck(w, key, answer).issued);
  }

  lemma OthersKeep(w: World, config: Config, request: Request)
    requires Inv(w, config) && !request.Consent? && !request.ExchangeCode? && !request.ExchangeRefresh?
    ensures Inv(Do(w, config, request).world, config)
  {
    var after := Do(w, config, request).world;
    match request
    case Authorize(_, _, _) => PendingKeeps(w, config, after.pending);
    case LoadAccess(token, answer) =>
      if token in w.issued.access {
        RecheckKeeps(w, config, w.issued.access[token].claims.key.GetOr(""), answer);
      }
    case Restart(readable) =>
      PendingKeeps(w, config, map[]);
      FewerKeeps(w.(pending := map[]), config, after.issued);
    case _ => FewerKeeps(w, config, after.issued);
  }

  lemma DoKeeps(w: World, config: Config, request: Request)
    requires Inv(w, config) && Fits(w, Event(request, w.clock))
    ensures Inv(Do(w, config, request).world, config)
  {
    match request
    case Consent(_, _, _, _, _, _) => ConsentKeeps(w, config, request);
    case ExchangeCode(_, _, _, _) => CodeKeeps(w, config, request);
    case ExchangeRefresh(_, _, _, _, _, _) => RefreshKeeps(w, config, request);
    case _ => OthersKeep(w, config, request);
  }

  lemma StepKeeps(w: World, config: Config, e: Event)
    requires Inv(w, config) && Fits(w, e)
    ensures Inv(Step(w, config, e).world, config)
  {
    LaterKeeps(w, config, e.at);
    DoKeeps(w.(clock := e.at), config, e.request);
  }

  lemma {:induction false} EveryRunKeeps(w: World, config: Config, es: seq<Event>)
    requires Inv(w, config) && Happens(w, config, es)
    ensures Inv(Run(w, config, es), config)
    decreases |es|
  {
    if es != [] {
      StepKeeps(w, config, es[0]);
      EveryRunKeeps(Step(w, config, es[0]).world, config, es[1..]);
    }
  }

  // ---- where a run begins -------------------------------------------------------------

  /** No secret is in two sections of the store at once. */
  ghost predicate Separate(issued: Issued) {
    issued.codes.Keys !! issued.refresh.Keys && issued.access.Keys !! issued.codes.Keys + issued.refresh.Keys
  }

  lemma {:induction false} Number(s: set<Token>) returns (number: map<Token, nat>)
    ensures number.Keys == s && forall t :: t in s ==> number[t] < |s|
    ensures Distinct(number)
    decreases |s|
  {
    if s == {} {
      number := map[];
    } else {
      var t :| t in s;
      var rest := Number(s - {t});
      number := rest[t := |s| - 1];
    }
  }

  /**
   * Whatever a store stands for is a state a run can begin from: each code and refresh token is a consent of its own,
   * and the grants without a stamp have not begun.
   */
  lemma IssuedBegins(issued: Issued, config: Config, now: real) returns (past: World)
    requires Separate(issued) && 1.0 <= now && 0 <= config.maxAge
    ensures past.issued == issued && past.clock == now && past.pending == map[] && Inv(past, config)
    ensures forall t :: t in issued.refresh && !Stamped(issued.refresh[t].claims) ==> past.consent[t] !in past.began
  {
    var tokens := issued.codes.Keys + issued.refresh.Keys;
    var consent := Number(tokens);
    past := World(map[], issued, consent, FirstBeginnings(issued.refresh, consent), |tokens|, now);
    StampsAgreeAtFirst(past);
    FirstWorldHolds(past, config);
  }

  /** The state a provider started on this file can be in. */
  lemma FileBegins(file: File, config: Config, now: real) returns (past: World)
    requires Separate(StandsFor(file)) && 1.0 <= now && 0 <= config.maxAge
    ensures past.issued == StandsFor(file) && past.clock == now && Inv(past, config)
    ensures forall t :: t in past.issued.refresh && !Stamped(past.issued.refresh[t].claims) ==>
      past.consent[t] !in past.began
  {
    past := IssuedBegins(StandsFor(file), config, now);
  }

  ghost predicate Distinct(consent: map<Token, nat>) {
    forall t, u :: t in consent && u in consent && consent[t] == consent[u] ==> t == u
  }

  /** The beginnings these stamps record. */
  ghost function FirstBeginnings(refresh: map<Token, Grant>, consent: map<Token, nat>): map<nat, int>
    requires refresh.Keys <= consent.Keys && Distinct(consent)
  {
    map t | t in refresh && Stamped(refresh[t].claims) :: consent[t] := refresh[t].claims.grantedAt.value
  }

  lemma FirstWorldHolds(w: World, config: Config)
    requires BeginsWhereStamped(w) && StampsAgree(w) && Separate(w.issued) && 1.0 <= w.clock && 0 <= config.maxAge
    requires forall t :: t in w.consent ==> w.consent[t] < w.consents
    requires forall c :: c in w.began ==> w.began[c] != 0 && exists t :: t in w.consent && w.consent[t] == c
    ensures Inv(w, config)
  {
    assert forall t :: t in w.issued.access ==> t !in w.consent;
  }

  /** Each credential's own consent begins where its stamp says, if it has one. */
  ghost predicate BeginsWhereStamped(w: World) {
    && w.consent.Keys == Credentials(w) && w.issued.codes.Keys !! w.issued.refresh.Keys && Distinct(w.consent)
    && w.began == FirstBeginnings(w.issued.refresh, w.consent)
  }

  lemma StampsAgreeAtFirst(w: World)
    requires BeginsWhereStamped(w)
    ensures StampsAgree(w)
    ensures forall c :: c in w.began ==> w.began[c] != 0 && exists t :: t in w.consent && w.consent[t] == c
  {}

  // ---- the age of a grant -------------------------------------------------------------

  /** What has been recorded of a credential or a grant is never rewritten. */
  ghost predicate Remembers(before: World, after: World) {
    && (forall t :: t in before.consent ==> t in after.consent && after.consent[t] == before.consent[t])
    && (forall c :: c in before.began ==> c in after.began && after.began[c] == before.began[c])
  }

  lemma DoRemembers(w: World, config: Config, request: Request)
    requires Inv(w, config) && Fits(w, Event(request, w.clock))
    ensures Remembers(w, Do(w, config, request).world)
  {
    match request
    case ExchangeCode(client, code, access, refresh) => CodeRemembers(w, config, client, code, access, refresh);
    case ExchangeRefresh(client, token, asked, answer, access, refresh) =>
      RefreshRemembers(w, config, client, token, asked, answer, access, refresh);
    case _ =>
  }

  lemma CodeRemembers(w: World, config: Config, client: ClientId, code: Token, access: Token, refresh: Token)
    requires Inv(w, config) && Fresh(w, access) && Fresh(w, refresh) && access != refresh
    ensures Remembers(w, DoExchangeCode(w, config, client, code, access, refresh).world)
  {
    if DoExchangeCode(w, config, client, code, access, refresh).reply.TokensIssued? {
      ExchangeCodeRedeems(w, config, client, code, access, refresh);
    }
  }

  lemma RefreshRemembers(
      w: World, config: Config, client: ClientId, token: Token, asked: seq<string>, answer: Answer,
      access: Token, refresh: Token)
    requires Inv(w, config) && Fresh(w, access) && Fresh(w, refresh) && access != refresh
    ensures Remembers(w, DoExchangeRefresh(w, config, client, token, asked, answer, access, refresh).world)
  {
    if DoExchangeRefresh(w, config, client, token, asked, answer, access, refresh).reply.TokensIssued? {
      ExchangeRefreshRedeems(w, config, client, token, asked, answer, access, refresh);
    }
  }

  lemma {:induction false} RunRemembers(w: World, config: Config, es: seq<Event>)
    requires Inv(w, config) && Happens(w, config, es)
    ensures Remembers(w, Run(w, config, es))
    decreases |es|
  {
    if es != [] {
      StepKeeps(w, config, es[0]);
      LaterKeeps(w, config, es[0].at);
      DoRemembers(w.(clock := es[0].at), config, es[0].request);
      RunRemembers(Step(w, config, es[0]).world, config, es[1..]);
    }
  }

  /**
   * Once a consent's grant has begun, no refresh of it succeeds more than the maximum age later, however often
   * it was rotated, and no access token of it in store lives past that age plus one token lifetime.
   */
  lemma {:induction false} GrantAgeIsBounded(w: World, config: Config, es: seq<Event>, last: Event, c: nat)
    requires Inv(w, config) && Happens(w, config, es) && c in w.began
    ensures
      var now := Run(w, config, es);
      && (Fits(now, last) && last.request.ExchangeRefresh? && Step(now, config, last).reply.TokensIssued?
          && Origin(now, last.request.token) == c
          ==> last.at - w.began[c] as real <= config.maxAge as real)
      && (forall t :: t in now.issued.access && t in now.consent && now.consent[t] == c ==>
            now.issued.access[t].expiry.At?
            && now.issued.access[t].expiry.time <= (w.began[c] + config.maxAge + config.tokenTtl) as real)
  {
    var now := Run(w, config, es);
    EveryRunKeeps(w, config, es);
    RunRemembers(w, config, es);
    if Fits(now, last) && last.request.ExchangeRefresh? && Step(now, config, last).reply.TokensIssued?
      && Origin(now, last.request.token) == c
    {
      LaterKeeps(now, config, last.at);
      var r := last.request;
      ExchangeRefreshRedeems(now.(clock := last.at), config, r.client, r.token, r.asked, r.answer, r.access, r.refresh);
    }
  }

  /** A grant begins with its code exchange, or, from before stamps, with its first refresh. */
  lemma GrantBegins(w: World, config: Config, e: Event)
    requires Inv(w, config) && Fits(w, e) && Step(w, config, e).reply.TokensIssued?
    ensures
      var spent := if e.request.ExchangeCode? then e.request.code else e.request.token;
      var after := Step(w, config, e).world;
      && spent in w.consent && w.consent[spent] in after.began
      && (w.consent[spent] !in w.began ==> after.began[w.consent[spent]] == e.at.Floor)
      && after.issued.refresh[e.request.refresh].claims.grantedAt == Some(after.began[w.consent[spent]])
  {
    LaterKeeps(w, config, e.at);
    var now := w.(clock := e.at);
    match e.request
    case ExchangeCode(client, code, access, refresh) =>
      ExchangeCodeRedeems(now, config, client, code, access, refresh);
    case ExchangeRefresh(client, token, asked, answer, access, refresh) =>
      ExchangeRefreshRedeems(now, config, client, token, asked, answer, access, refresh);
  }

  // ---- lifetimes ----------------------------------------------------------------------

  /** A token already handed out keeps the entry it has, or loses it. */
  ghost predicate OnlyLoses(before: Issued, after: Issued, token: Token) {
    && (token in after.access ==> token in before.access && after.access[token] == before.access[token])
    && (token in after.refresh ==> token in before.refresh && after.refresh[token] == before.refresh[token])
    && (token in after.codes ==> token in before.codes && after.codes[token] == before.codes[token])
  }

  lemma DoOnlyLoses(w: World, config: Config, request: Request, token: Token)
    requires Fits(w, Event(request, w.clock)) && token in w.consent
    ensures OnlyLoses(w.issued, Do(w, config, request).world.issued, token)
  {
    if request.ExchangeRefresh? {
      RotationOnlyLoses(w, config, request, token);
    }
  }

  lemma RotationOnlyLoses(w: World, config: Config, request: Request, token: Token)
    requires Fits(w, Event(request, w.clock)) && token in w.consent && request.ExchangeRefresh?
    ensures OnlyLoses(w.issued, Do(w, config, request).world.issued, token)
  {}

  lemma StepOnlyLoses(w: World, config: Config, e: Event, token: Token)
    requires Inv(w, config) && Fits(w, e) && token in w.consent
    ensures OnlyLoses(w.issued, Step(w, config, e).world.issued, token)
    ensures token in Step(w, config, e).world.consent && w.clock <= Step(w, config, e).world.clock
  {
    LaterKeeps(w, config, e.at);
    DoOnlyLoses(w.(clock := e.at), config, e.request, token);
    DoRemembers(w.(clock := e.at), config, e.request);
  }

  lemma {:induction false} RunOnlyLoses(w: World, config: Config, es: seq<Event>, token: Token)
    requires Inv(w, config) && Happens(w, config, es) && token in w.consent
    ensures OnlyLoses(w.issued, Run(w, config, es).issued, token) && w.clock <= Run(w, config, es).clock
    decreases |es|
  {
    if es != [] {
      StepKeeps(w, config, es[0]);
      StepOnlyLoses(w, config, es[0], token);
      RunOnlyLoses(Step(w, config, es[0]).world, config, es[1..], token);
    }
  }

  /**
   * Whatever happens in between, a code works for five minutes at most, an access token for one token lifetime
   * and a refresh token for one refresh lifetime after they were handed out.
   */
  lemma CredentialsExpire(w: World, config: Config, e: Event, es: seq<Event>, now: real)
    requires Inv(w, config) && Fits(w, e) && Happens(Step(w, config, e).world, config, es)
    ensures
      var reply, later := Step(w, config, e).reply, Run(Step(w, config, e).world, config, es);
      && (reply.CodeIssued? && Lookup(Code, later.issued.codes, e.request.code, now).Some? ==>
        now < e.at + 300.0)
      && (reply.TokensIssued? ==>
            && (Lookup(Access, later.issued.access, e.request.access, now).Some? ==>
              now < e.at + config.tokenTtl as real)
            && (Lookup(Refresh, later.issued.refresh, e.request.refresh, now).Some? ==>
                  now < e.at + config.refreshTtl as real))
  {
    StepKeeps(w, config, e);
    if Step(w, config, e).reply.CodeIssued? {
      RunOnlyLoses(Step(w, config, e).world, config, es, e.request.code);
    }
    if Step(w, config, e).reply.TokensIssued? {
      TokensExpire(w, config, e, es, now);
    }
  }

  lemma TokensExpire(w: World, config: Config, e: Event, es: seq<Event>, now: real)
    requires Step(w, config, e).reply.TokensIssued?
    requires Inv(Step(w, config, e).world, config) && Happens(Step(w, config, e).world, config, es)
    ensures
      var later := Run(Step(w, config, e).world, config, es);
      && (Lookup(Access, later.issued.access, e.request.access, now).Some? ==> now < e.at + config.tokenTtl as real)
      && (Lookup(Refresh, later.issued.refresh, e.request.refresh, now).Some? ==>
        now < e.at + config.refreshTtl as real)
  {
    IssuedExpiries(w, config, e);
    RunOnlyLoses(Step(w, config, e).world, config, es, e.request.access);
    RunOnlyLoses(Step(w, config, e).world, config, es, e.request.refresh);
  }

  lemma IssuedExpiries(w: World, config: Config, e: Event)
    requires Step(w, config, e).reply.TokensIssued?
    ensures
      var after := Step(w, config, e).world;
      && e.request.access in after.consent && e.request.refresh in after.consent
      && after.issued.access[e.request.access].expiry == At((e.at.Floor + config.tokenTtl) as real)
      && after.issued.refresh[e.request.refresh].expiry == At((e.at.Floor + config.refreshTtl) as real)
  {}

  // ---- single use ---------------------------------------------------------------------

  /** A code or refresh token that was handed out and is no longer stored. */
  ghost predicate Spent(w: World, token: Token) {
    token in w.consent && token !in Credentials(w)
  }

  /** The only codes and refresh tokens a request adds were fresh. */
  lemma DoAddsOnlyFresh(w: World, config: Config, request: Request, token: Token)
    requires Credentials(w) <= w.consent.Keys && Fits(w, Event(request, w.clock))
    requires token in Credentials(Do(w, config, request).world)
    ensures token in Credentials(w) || Fresh(w, token)
  {}

  lemma DoKeepsSpent(w: World, config: Config, request: Request, token: Token)
    requires Inv(w, config) && Fits(w, Event(request, w.clock)) && Spent(w, token)
    ensures Spent(Do(w, config, request).world, token)
  {
    DoRemembers(w, config, request);
    if token in Credentials(Do(w, config, request).world) {
      DoAddsOnlyFresh(w, config, request, token);
    }
  }

  lemma {:induction false} RunKeepsSpent(w: World, config: Config, es: seq<Event>, token: Token)
    requires Inv(w, config) && Happens(w, config, es) && Spent(w, token)
    ensures Spent(Run(w, config, es), token)
    decreases |es|
  {
    if es != [] {
      StepKeeps(w, config, es[0]);
      LaterKeeps(w, config, es[0].at);
      DoKeepsSpent(w.(clock := es[0].at), config, es[0].request, token);
      RunKeepsSpent(Step(w, config, es[0]).world, config, es[1..], token);
    }
  }

  /** The request redeems this code or refresh token for new tokens. */
  ghost predicate Redeems(w: World, config: Config, e: Event, token: Token) {
    && Step(w, config, e).reply.TokensIssued?
    && token == if e.request.ExchangeCode? then e.request.code else e.request.token
  }

  /** Redeemed once, a code or refresh token is never redeemed again, whatever happens in between, restarts included. */
  lemma RedeemedAtMostOnce(w: World, config: Config, first: Event, es: seq<Event>, second: Event, token: Token)
    requires Inv(w, config) && Fits(w, first) && Redeems(w, config, first, token)
    requires Happens(Step(w, config, first).world, config, es)
    ensures
      var later := Run(Step(w, config, first).world, config, es);
      Spent(later, token) && !Redeems(later, config, second, token)
  {
    RedeemedIsSpent(w, config, first, token);
    StepKeeps(w, config, first);
    RunKeepsSpent(Step(w, config, first).world, config, es, token);
    SpentIsRefused(Run(Step(w, config, first).world, config, es), config, second, token);
  }

  lemma RedeemedIsSpent(w: World, config: Config, e: Event, token: Token)
    requires Inv(w, config) && Fits(w, e) && Redeems(w, config, e, token)
    ensures Spent(Step(w, config, e).world, token)
  {
    var now := w.(clock := e.at);
    LaterKeeps(w, config, e.at);
    match e.request
    case ExchangeCode(client, code, access, refresh) =>
      ExchangeCodeRedeems(now, config, client, code, access, refresh);
    case ExchangeRefresh(client, presented, asked, answer, access, refresh) =>
      ExchangeRefreshRedeems(now, config, client, presented, asked, answer, access, refresh);
  }

  lemma SpentIsRefused(w: World, config: Config, e: Event, token: Token)
    requires Spent(w, token)
    ensures !Redeems(w, config, e, token)
  {}

  // ---- a finished key -----------------------------------------------------------------

  ghost predicate NoneHold<K>(kind: Kind, entries: map<K, Grant>, key: KeyId) {
    forall k :: k in entries ==> !Holds(kind, entries[k], key)
  }

  ghost predicate NoGrants(issued: Issued, key: KeyId) {
    NoneHold(Access, issued.access, key) && NoneHold(Refresh, issued.refresh, key) && NoneHold(Code, issued.codes, key)
  }

  /** The entries of other keys are exactly as they were. */
  ghost predicate OthersUntouched<K>(kind: Kind, before: map<K, Grant>, after: map<K, Grant>, key: KeyId) {
    && (forall k :: k in before && !Holds(kind, before[k], key) ==> k in after && after[k] == before[k])
    && (forall k :: k in after ==> k in before)
  }

  /** A request refused because the key is finished leaves nothing of that key and everything of every other. */
  lemma FinishedKeyLosesAll(w: World, config: Config, e: Event)
    requires Step(w, config, e).reply == Refused(KeyRevoked)
    ensures exists key: KeyId ::
      var before, after := w.issued, Step(w, config, e).world.issued;
      && NoGrants(after, key)
      && OthersUntouched(Access, before.access, after.access, key)
      && OthersUntouched(Refresh, before.refresh, after.refresh, key)
      && OthersUntouched(Code, before.codes, after.codes, key)
      && (e.request.ExchangeRefresh? ==>
            e.request.token in before.refresh && before.refresh[e.request.token].claims.key == Some(key))
      && (e.request.LoadAccess? ==>
            e.request.token in before.access && before.access[e.request.token].claims.key == Some(key))
  {
    var key :=
      if e.request.ExchangeRefresh? then w.issued.refresh[e.request.token].claims.key.value
      else w.issued.access[e.request.token].claims.key.GetOr("");
    assert Step(w, config, e).world.issued == IssuedWithout(w.issued, key);
    assert NoGrants(IssuedWithout(w.issued, key), key);
  }

  ghost predicate ConsentsWith(e: Event, key: KeyId) {
    e.request.Consent? && e.request.key == key
  }

  lemma DoKeepsNoGrants(w: World, config: Config, request: Request, key: KeyId)
    requires NoGrants(w.issued, key)
    requires request.Consent? && request.key == key ==> !Do(w, config, request).reply.CodeIssued?
    ensures NoGrants(Do(w, config, request).world.issued, key)
  {
    match request
    case ExchangeCode(client, code, access, refresh) =>
      CodeKeepsNoGrants(w, config, client, code, access, refresh, key);
    case ExchangeRefresh(client, token, asked, answer, access, refresh) =>
      RefreshKeepsNoGrants(w, config, client, token, asked, answer, access, refresh, key);
    case _ =>
  }

  lemma CodeKeepsNoGrants(
      w: World, config: Config, client: ClientId, code: Token, access: Token, refresh: Token, key: KeyId)
    requires NoGrants(w.issued, key)
    ensures NoGrants(DoExchangeCode(w, config, client, code, access, refresh).world.issued, key)
  {}

  lemma RefreshKeepsNoGrants(
      w: World, config: Config, client: ClientId, token: Token, asked: seq<string>, answer: Answer,
      access: Token, refresh: Token, key: KeyId)
    requires NoGrants(w.issued, key)
    ensures NoGrants(DoExchangeRefresh(w, config, client, token, asked, answer, access, refresh).world.issued, key)
  {}

  /** Nothing of that key reappears in any run until someone consents with it again. */
  lemma {:induction false} FinishedKeyStaysGone(w: World, config: Config, es: seq<Event>, key: KeyId)
    requires NoGrants(w.issued, key)
    requires forall i :: 0 <= i < |es| ==> !ConsentsWith(es[i], key)
    ensures NoGrants(Run(w, config, es).issued, key)
    decreases |es|
  {
    if es != [] {
      DoKeepsNoGrants(w.(clock := es[0].at), config, es[0].request, key);
      FinishedKeyStaysGone(Step(w, config, es[0]).world, config, es[1..], key);
    }
  }

  // ---- scopes -------------------------------------------------------------------------

  lemma {:induction false} AllowedIsExactly(scopes: seq<string>, role: string, s: string)
    ensures s in Allowed(scopes, role) <==> s in scopes && (s == "editor" || (s == "admin" && role == "admin"))
  {
    if scopes != [] {
      AllowedIsExactly(scopes[1..], role, s);
    }
  }

  /** A refresh the backend answered hands out no scope beyond the key's current role. */
  lemma RefreshedScopesFollowRole(w: World, config: Config, e: Event, s: string)
    requires e.request.ExchangeRefresh? && e.request.answer.Usable? && Step(w, config, e).reply.TokensIssued?
    requires s in Step(w, config, e).reply.granted
    ensures s == "editor" || (s == "admin" && e.request.answer.role == "admin")
  {
    AllowedIsExactly(e.request.asked, e.request.answer.role, s);
  }

  // ---- what a grant stands for --------------------------------------------------------

  /** The client and the key a consent was given for, and the widest scopes it can ever yield. */
  datatype Terms = Terms(client: ClientId, key: KeyId, ceiling: seq<string>)

  predicate ActsFor(grant: Grant, terms: Terms) {
    grant.client == terms.client && grant.claims.key.GetOr("") == terms.key
  }

  /** A token's scopes are within the ceiling; a refresh that leaves none falls back on the editor's. */
  predicate Capped(scopes: seq<string>, terms: Terms) {
    forall s :: s in scopes ==> s in terms.ceiling || s == "editor"
  }

  /** Every code and token of this consent is under these terms. */
  ghost predicate UnderTerms(w: World, c: nat, terms: Terms) {
    && (forall t :: t in w.issued.codes && t in w.consent && w.consent[t] == c ==>
          ActsFor(w.issued.codes[t], terms) && ScopesForRole(w.issued.codes[t].claims.role.GetOr("")) == terms.ceiling)
    && (forall t :: t in w.issued.refresh && t in w.consent && w.consent[t] == c ==>
          ActsFor(w.issued.refresh[t], terms) && w.issued.refresh[t].scopes == terms.ceiling)
    && (forall t :: t in w.issued.access && t in w.consent && w.consent[t] == c ==>
          ActsFor(w.issued.access[t], terms) && Capped(w.issued.access[t].scopes, terms))
  }

  lemma FewerUnderTerms(w: World, left: Issued, c: nat, terms: Terms)
    requires UnderTerms(w, c, terms)
    requires left.access.Keys <= w.issued.access.Keys
    requires forall t :: t in left.access ==> left.access[t] == w.issued.access[t]
    requires left.refresh.Keys <= w.issued.refresh.Keys
    requires forall t :: t in left.refresh ==> left.refresh[t] == w.issued.refresh[t]
    requires left.codes.Keys <= w.issued.codes.Keys
    requires forall t :: t in left.codes ==> left.codes[t] == w.issued.codes[t]
    ensures UnderTerms(w.(issued := left), c, terms)
  {}

  /** A pair of tokens under the terms of the credential it replaces. */
  lemma RedeemedUnderTerms(
      w: World, config: Config, from: Token, access: Token, a: Grant, refresh: Token, r: Grant, began: int,
      c: nat, terms: Terms)
    requires Inv(w, config) && Redeemable(w, config, from, access, a, refresh, r, began) && UnderTerms(w, c, terms)
    requires w.consent[from] == c ==>
      ActsFor(a, terms) && Capped(a.scopes, terms) && ActsFor(r, terms) && r.scopes == terms.ceiling
    ensures UnderTerms(Redeemed(w, from, access, a, refresh, r, began), c, terms)
  {}

  /** The pair a code is exchanged for acts for the code's client and key, with the scopes of its role. */
  lemma CodePairUnderTerms(w: World, config: Config, request: Request, c: nat, terms: Terms)
    requires request.ExchangeCode? && Do(w, config, request).reply.TokensIssued? && request.access != request.refresh
    requires UnderTerms(w, c, terms) && request.code in w.consent && w.consent[request.code] == c
    ensures
      var after := Do(w, config, request).world.issued;
      var a, r := after.access[request.access], after.refresh[request.refresh];
      ActsFor(a, terms) && Capped(a.scopes, terms) && ActsFor(r, terms) && r.scopes == terms.ceiling
  {}

  lemma CodeKeepsTerms(w: World, config: Config, request: Request, c: nat, terms: Terms)
    requires Inv(w, config) && Fits(w, Event(request, w.clock)) && request.ExchangeCode? && UnderTerms(w, c, terms)
    ensures UnderTerms(Do(w, config, request).world, c, terms)
  {
    var ExchangeCode(client, code, access, refresh) := request;
    var after := Do(w, config, request).world;
    if Do(w, config, request).reply.TokensIssued? {
      ExchangeCodeRedeems(w, config, client, code, access, refresh);
      if w.consent[code] == c {
        CodePairUnderTerms(w, config, request, c, terms);
      }
      RedeemedUnderTerms(w, config, code, access, after.issued.access[access], refresh, after.issued.refresh[refresh],
        w.clock.Floor, c, terms);
    }
  }

  lemma NarrowedIsCapped(asked: seq<string>, answer: Answer, terms: Terms)
    requires forall s :: s in asked ==> s in terms.ceiling
    ensures Capped(Narrowed(asked, answer), terms)
  {
    forall s | s in Narrowed(asked, answer) ensures s in terms.ceiling || s == "editor" {
      if answer.Usable? {
        AllowedIsExactly(asked, answer.role, s);
      }
    }
  }

  /** So does the pair a refresh token is rotated into, whatever the backend says of the key's user and role. */
  lemma RotatedPairUnderTerms(w: World, config: Config, request: Request, c: nat, terms: Terms)
    requires request.ExchangeRefresh? && Do(w, config, request).reply.TokensIssued? && request.access != request.refresh
    requires UnderTerms(w, c, terms) && request.token in w.consent && w.consent[request.token] == c
    ensures
      var after := Do(w, config, request).world.issued;
      var a, r := after.access[request.access], after.refresh[request.refresh];
      ActsFor(a, terms) && Capped(a.scopes, terms) && ActsFor(r, terms) && r.scopes == terms.ceiling
  {
    assert w.issued.refresh[request.token].scopes == terms.ceiling;
    NarrowedIsCapped(request.asked, request.answer, terms);
  }

  lemma RefreshKeepsTerms(w: World, config: Config, request: Request, c: nat, terms: Terms)
    requires Inv(w, config) && Fits(w, Event(request, w.clock)) && request.ExchangeRefresh? && UnderTerms(w, c, terms)
    ensures UnderTerms(Do(w, config, request).world, c, terms)
  {
    var ExchangeRefresh(client, token, asked, answer, access, refresh) := request;
    var after := Do(w, config, request).world;
    if Do(w, config, request).reply.TokensIssued? {
      ExchangeRefreshRedeems(w, config, client, token, asked, answer, access, refresh);
      if w.consent[token] == c {
        RotatedPairUnderTerms(w, config, request, c, terms);
      }
      RedeemedUnderTerms(w, config, token, access, after.issued.access[access], refresh, after.issued.refresh[refresh],
        Beginning(w.issued.refresh[token].claims, w.clock), c, terms);
    } else {
      RefusedRefreshLoses(w, config, request);
      FewerUnderTerms(w, after.issued, c, terms);
    }
  }

  lemma OthersKeepTerms(w: World, config: Config, request: Request, c: nat, terms: Terms)
    requires UnderTerms(w, c, terms) && !request.Consent? && !request.ExchangeCode? && !request.ExchangeRefresh?
    ensures UnderTerms(Do(w, config, request).world, c, terms)
  {
    var after := Do(w, config, request).world;
    FewerUnderTerms(w.(pending := after.pending), after.issued, c, terms);
  }

  /** A new code is a consent of its own. */
  lemma ConsentKeepsTerms(w: World, config: Config, request: Request, c: nat, terms: Terms)
    requires Fits(w, Event(request, w.clock)) && request.Consent? && UnderTerms(w, c, terms) && c < w.consents
    requires Credentials(w) <= w.consent.Keys
    ensures UnderTerms(Do(w, config, request).world, c, terms)
  {}

  lemma ConsentsCount(w: World, config: Config, request: Request)
    ensures w.consents <= Do(w, config, request).world.consents
  {}

  lemma DoKeepsTerms(w: World, config: Config, request: Request, c: nat, terms: Terms)
    requires Inv(w, config) && Fits(w, Event(request, w.clock)) && UnderTerms(w, c, terms) && c < w.consents
    ensures UnderTerms(Do(w, config, request).world, c, terms)
  {
    match request
    case Consent(_, _, _, _, _, _) => ConsentKeepsTerms(w, config, request, c, terms);
    case ExchangeCode(_, _, _, _) => CodeKeepsTerms(w, config, request, c, terms);
    case ExchangeRefresh(_, _, _, _, _, _) => RefreshKeepsTerms(w, config, request, c, terms);
    case _ => OthersKeepTerms(w, config, request, c, terms);
  }

  /** No run changes what a consent stands for. */
  lemma {:induction false} RunKeepsTerms(w: World, config: Config, es: seq<Event>, c: nat, terms: Terms)
    requires Inv(w, config) && Happens(w, config, es) && UnderTerms(w, c, terms) && c < w.consents
    ensures UnderTerms(Run(w, config, es), c, terms)
    decreases |es|
  {
    if es != [] {
      StepKeeps(w, config, es[0]);
      LaterKeeps(w, config, es[0].at);
      DoKeepsTerms(w.(clock := es[0].at), config, es[0].request, c, terms);
      ConsentsCount(w.(clock := es[0].at), config, es[0].request);
      RunKeepsTerms(Step(w, config, es[0]).world, config, es[1..], c, terms);
    }
  }

  /**
   * Every code and token descended from one consent, over any run, is the client's that asked for it, acts under the
   * key that was typed in, and has no scope beyond those of the role the key had then.
   */
  lemma ConsentFixesTerms(w: World, config: Config, e: Event, es: seq<Event>)
    requires Inv(w, config) && Fits(w, e) && Step(w, config, e).reply.CodeIssued?
    requires Happens(Step(w, config, e).world, config, es)
    ensures
      var client := w.pending[e.request.nonce].client;
      var ceiling := if e.request.answer.role == "admin" then ["admin", "editor"] else ["editor"];
      var terms := Terms(client, e.request.key, ceiling);
      UnderTerms(Run(Step(w, config, e).world, config, es), w.consents, terms)
  {
    var terms := Terms(w.pending[e.request.nonce].client, e.request.key, ScopesForRole(e.request.answer.role));
    StepKeeps(w, config, e);
    RunKeepsTerms(Step(w, config, e).world, config, es, w.consents, terms);
  }

  // ---- the provider -------------------------------------------------------------------

  class Provider {
    const config: Config
    const store: Store
    var pending: map<Nonce, Pending>

    ghost var world: World

    /** A provider on a store just opened; consent sessions do not survive. */
    constructor (config: Config, store: Store, ghost world: World)
      requires store.Valid() && store.Dated()
      requires world.issued == store.issued && world.clock == store.clock && world.pending == map[]
      ensures Valid() && this.config == config && this.store == store && this.world == world
    {
      this.config := config;
      pending := map[];
      this.store := store;
      this.world := world;
    }

    /** The provider's own table and the store it writes are in step with the grants and their history. */
    ghost predicate Valid()
      reads this, store
    {
      && store.Valid() && store.Dated()
      && world.issued == store.issued && world.clock == store.clock && world.pending == pending
    }

    /** The reply and the state are those of one step, and a readable file stays readable. */
    twostate predicate Answers(request: Request, at: real, reply: Reply)
      reads this, store
    {
      && Valid() && Outcome(world, reply) == Step(old(world), config, Event(request, at))
      && (old(store.Readable()) ==> store.Readable())
    }

    /** Consent sessions that expired unused are dropped first. */
    method StartAuthorization(client: ClientId, scopes: seq<string>, nonce: Nonce, now: real) returns (reply: Reply)
      requires Valid() && world.clock <= now
      modifies this, store`clock
      ensures Answers(Authorize(client, scopes, nonce), now, reply)
    {
      store.Advance(now);
      var expired := set n | n in pending && pending[n].expiresAt < now;
      var open := RemoveEach(pending, expired);
      assert open == map n | n in pending && now <= pending[n].expiresAt :: pending[n];
      pending := open;
      pending := pending[nonce := Pending(client, scopes, now + AUTH_CODE_TTL)];
      reply := ConsentPage(nonce);
      world := Step(world, config, Event(Authorize(client, scopes, nonce), now)).world;
    }

    method GiveConsent(
        nonce: Nonce, typed: string, limited: bool, key: KeyId, answer: Answer, code: Token, now: real)
      returns (reply: Reply)
      requires Valid() && world.clock <= now
      modifies this, store
      ensures Answers(Consent(nonce, typed, limited, key, answer, code), now, reply)
    {
      store.Advance(now);
      world := world.(clock := now);
      if nonce !in pending || pending[nonce].expiresAt < now {
        return Refused(Expired);
      }
      if typed == "" {
        return Refused(MissingKey);
      }
      if limited {
        return Refused(RateLimited);
      }
      match answer {
        case Unavailable => reply := Refused(BackendDown);
        case Unusable => reply := Refused(BadKey);
        case Usable(user, role) =>
          var open := pending[nonce];
          pending := pending - {nonce};
          if role == "reader" {
            world := world.(pending := pending);
            return Refused(AccessDenied);
          }
          var scopes := if open.scopes == [] then [role] else open.scopes;
          var claims := Claims(Some(key), Some(user), Some(role), None);
          store.SaveAuthCode(code, Grant(open.client, claims, scopes, At(now + AUTH_CODE_TTL), true));
          reply := CodeIssued(code);
          world := DoConsent(old(world).(clock := now), nonce, typed, limited, key, answer, code).world;
      }
    }

    method RedeemCode(client: ClientId, code: Token, access: Token, refresh: Token, now: real) returns (reply: Reply)
      requires Valid() && world.clock <= now
      modifies this, store
      ensures Answers(ExchangeCode(client, code, access, refresh), now, reply)
    {
      var found := store.GetAuthCode(code, now);
      world := world.(clock := now);
      if found.None? || found.value.client != client {
        return Refused(InvalidGrant);
      }
      store.DeleteAuthCode(code);
      var c := found.value.claims;
      var role := c.role.GetOr("");
      var claims := Claims(Some(c.key.GetOr("")), Some(c.user.GetOr("")), Some(role), None);
      var scopes := ScopesForRole(role);
      IssuePair(access, AccessGrant(config, client, claims, scopes, now), refresh,
        RefreshGrant(config, client, claims.(grantedAt := Some(now.Floor)), scopes, now));
      reply := TokensIssued(access, refresh, scopes);
      world := DoExchangeCode(world, config, client, code, access, refresh).world;
    }

    method IssuePair(access: Token, a: Grant, refresh: Token, r: Grant)
      requires store.Valid() && store.Dated() && a.expiry.At?
      modifies store
      ensures store.Valid() && store.clock == old(store.clock) && store.StaysDated()
      ensures store.issued == old(store.issued).(
        access := old(store.issued).access[access := a], refresh := old(store.issued).refresh[refresh := r])
    {
      store.SaveToken(access, a);
      store.SaveRefreshToken(refresh, r);
    }

    /** Drops everything issued from a finished key. */
    method RecheckKey(key: KeyId, answer: Answer) returns (finished: bool)
      requires store.Valid()
      modifies store
      ensures store.Valid() && store.clock == old(store.clock) && store.StaysDated()
      ensures finished == Dead(answer)
      ensures store.issued == if finished then IssuedWithout(old(store.issued), key) else old(store.issued)
    {
      finished := Dead(answer);
      if finished {
        var removed := store.DeleteGrantsForKey(key);
      }
    }

    method RotateRefreshToken(
        client: ClientId, token: Token, asked: seq<string>, answer: Answer, access: Token, refresh: Token, now: real)
      returns (reply: Reply)
      requires Valid() && world.clock <= now
      modifies this, store
      ensures Answers(ExchangeRefresh(client, token, asked, answer, access, refresh), now, reply)
    {
      var found := store.GetRefreshToken(token, now);
      world := world.(clock := now);
      if found.None? || found.value.client != client {
        return Refused(InvalidGrant);
      }
      if exists s :: s in asked && s !in found.value.scopes {
        return Refused(InvalidScope);
      }
      var claims := store.GetRefreshTokenClaims(token);
      if !Identified(claims) {
        return Refused(InvalidGrant);
      }
      reply := RotateFound(token, found.value, asked, answer, access, refresh, now);
    }

    method RotateFound(
        token: Token, presented: Grant, asked: seq<string>, answer: Answer, access: Token, refresh: Token, now: real)
      returns (reply: Reply)
      requires Valid() && world.clock == now && Identified(presented.claims)
      modifies this, store
      ensures Valid() && (old(store.Readable()) ==> store.Readable())
      ensures Outcome(world, reply) == Rotated(old(world), config, token, presented, asked, answer, access, refresh)
    {
      var claims := presented.claims;
      ghost var out := Rotated(world, config, token, presented, asked, answer, access, refresh);
      var began := Beginning(claims, now);
      if now - began as real > config.maxAge as real {
        store.DeleteRefreshToken(token);
        world := out.world;
        return Refused(TooOld);
      }
      var finished := RecheckKey(claims.key.value, answer);
      if finished {
        world := out.world;
        return Refused(KeyRevoked);
      }
      claims := Refreshed(claims, answer, began);
      var scopes := Narrowed(asked, answer);
      store.DeleteRefreshToken(token);
      IssuePair(access, AccessGrant(config, presented.client, claims, scopes, now), refresh,
        RefreshGrant(config, presented.client, claims, presented.scopes, now));
      reply := TokensIssued(access, refresh, scopes);
      world := out.world;
    }

    method LoadAccessToken(token: Token, answer: Answer, now: real) returns (reply: Reply)
      requires Valid() && world.clock <= now
      modifies this, store
      ensures Answers(LoadAccess(token, answer), now, reply)
    {
      var found := store.GetToken(token, now);
      world := world.(clock := now);
      if found.None? {
        return Refused(InvalidGrant);
      }
      reply := AcceptFound(found.value, answer);
    }

    /** The key behind a live token is asked about, if it has one. */
    method AcceptFound(found: Grant, answer: Answer) returns (reply: Reply)
      requires Valid()
      modifies this, store
      ensures Valid() && (old(store.Readable()) ==> store.Readable())
      ensures Outcome(world, reply) == Accepted(old(world), found, answer)
    {
      var key := found.claims.key.GetOr("");
      if key != "" {
        var finished := RecheckKey(key, answer);
        if finished {
          world := world.(issued := store.issued);
          return Refused(KeyRevoked);
        }
      }
      reply := Bearer(found);
    }

    method RevokeToken(token: Token, isAccess: bool, now: real) returns (reply: Reply)
      requires Valid() && world.clock <= now
      modifies this, store
      ensures Answers(if isAccess then RevokeAccess(token) else RevokeRefresh(token), now, reply)
    {
      store.Advance(now);
      if isAccess {
        store.DeleteToken(token);
      } else {
        store.DeleteRefreshToken(token);
      }
      reply := Done;
      world := world.(clock := now, issued := store.issued);
    }

    /**
     * At the cap, and only there, room is made: registrations over a day old go if nothing stored was issued to them;
     * a client with a live credential is never among them, and no registration takes the count past the cap.
     */
    method RegisterClient(id: ClientId, client: Client, cap: nat, now: real) returns (accepted: bool)
      requires Valid() && world.clock <= now
      modifies this, store
      ensures Valid() && world == old(world).(clock := now) && (old(store.Readable()) ==> store.Readable())
      ensures forall c :: c in old(store.clients) && HoldsLive(store.issued, c, now) ==> c in store.clients
      ensures |old(store.clients)| < cap ==> accepted && store.clients == old(store.clients)[id := client]
      ensures |old(store.clients)| >= cap ==>
        var kept := old(store.clients) - Unused(old(store.Memory()), now - UNUSED_CLIENT_GRACE);
        && accepted == (|kept| < cap)
        && store.clients == (if accepted then kept[id := client] else kept)
        && forall c :: c in old(store.clients) ==> (c in kept <==> Kept(old(store.Memory()), c, now - 86400.0))
      ensures |old(store.clients)| <= cap ==> |store.clients| <= cap
    {
      store.Advance(now);
      world := world.(clock := now);
      UnusedAreNotKept(store.Memory(), now - UNUSED_CLIENT_GRACE);
      if |store.clients| >= cap {
        var pruned := store.PruneUnusedClients(now - UNUSED_CLIENT_GRACE);
        if |store.clients| >= cap {
          return false;
        }
      }
      store.SaveClient(id, client);
      accepted := true;
    }
  }

  const UNUSED_CLIENT_GRACE := 86400.0

  /** Start-up: the grants are those of the store's file, with a history they could have. */
  method Start(config: Config, file: File, now: real, ghost past: World) returns (provider: Provider)
    requires Inv(past, config) && past.issued == StandsFor(file) && past.clock <= now
    ensures fresh(provider) && fresh(provider.store) && provider.Valid() && provider.config == config
    ensures provider.world == Started(past, now) && Inv(provider.world, config)
    ensures !Unorderable(Parsed(file)) ==> provider.store.Readable()
  {
    StartKeeps(past, config, now);
    var store := new Store(file, now);
    provider := new Provider(config, store, Started(past, now));
  }

  /** The next process on the same file: one more step of the same run. */
  method StartAgain(previous: Provider, now: real) returns (provider: Provider)
    requires previous.Valid() && previous.world.clock <= now
    ensures fresh(provider) && fresh(provider.store) && provider.Valid() && provider.config == previous.config
    ensures
      var event := Event(Restart(previous.store.Readable()), now);
      Outcome(provider.world, Done) == Step(previous.world, previous.config, event)
    ensures previous.store.Readable() ==> provider.store.Readable()
  {
    ghost var event := Event(Restart(previous.store.Readable()), now);
    previous.store.FileStillAgrees(now);
    var store := new Store.Reopened(previous.store.file, now, previous.store.issued);
    provider := new Provider(previous.config, store, Step(previous.world, previous.config, event).world);
  }
}
