/**
 * What each request to the provider comes to (mcp_server/oauth_provider.py), in terms of the stored entries, literal
 * scopes and literal lifetimes: when it is granted, what it hands out, and what it leaves as it was.
 */
module OAuthRequests {
  import opened Wrappers
  import opened TokenStore
  import opened OAuthProvider

  /** When an access token or a code stops working; one without a time never did. */
  ghost function Ends(grant: Grant): real {
    if grant.expiry.At? then grant.expiry.time else 0.0
  }

  /** No entry of this section but this one is added, changed or lost. */
  ghost predicate OnlyAdds(before: map<Token, Grant>, after: map<Token, Grant>, token: Token) {
    && token in after
    && forall t :: t != token ==> (t in before <==> t in after) && (t in before ==> after[t] == before[t])
  }

  ghost predicate OnlyRemoves(before: map<Token, Grant>, after: map<Token, Grant>, token: Token) {
    && token !in after
    && forall t :: t != token ==> (t in before <==> t in after) && (t in before ==> after[t] == before[t])
  }

  // ---- consent ------------------------------------------------------------------------

  /** A consent session lasts five minutes; starting one drops exactly those that have run out. */
  lemma AuthorizeOpens(w: World, config: Config, e: Event)
    requires e.request.Authorize?
    ensures
      var after := Step(w, config, e).world;
      && Step(w, config, e).reply == ConsentPage(e.request.nonce) && after.issued == w.issued
      && e.request.nonce in after.pending
      && after.pending[e.request.nonce] == Pending(e.request.client, e.request.scopes, e.at + 300.0)
      && forall n :: n != e.request.nonce ==>
           (n in after.pending <==> n in w.pending && e.at <= w.pending[n].expiresAt)
           && (n in after.pending ==> after.pending[n] == w.pending[n])
  {}

  /** A code is issued exactly to a complete form of an open session, from an address in time, for a usable key. */
  lemma ConsentGivenWhen(w: World, config: Config, e: Event)
    requires e.request.Consent?
    ensures
      var open := e.request.nonce in w.pending && e.at <= w.pending[e.request.nonce].expiresAt;
      var complete := open && e.request.typed != "";
      var asked := complete && !e.request.limited;
      var reply := Step(w, config, e).reply;
      && (reply.CodeIssued? <==> asked && e.request.answer.Usable? && e.request.answer.role != "reader")
      && (reply == Refused(Expired) <==> !open)
      && (reply == Refused(MissingKey) <==> open && !complete)
      && (reply == Refused(RateLimited) <==> complete && !asked)
      && (reply == Refused(BackendDown) <==> asked && e.request.answer.Unavailable?)
      && (reply == Refused(BadKey) <==> asked && e.request.answer.Unusable?)
      && (reply == Refused(AccessDenied) <==>
            asked && e.request.answer.Usable? && e.request.answer.role == "reader")
  {}

  /** The session is closed by a code or by a reader's key, and by nothing else; a code works for five minutes. */
  lemma ConsentIssues(w: World, config: Config, e: Event)
    requires e.request.Consent?
    ensures
      var reply, after := Step(w, config, e).reply, Step(w, config, e).world;
      && after.pending ==
        (if reply.CodeIssued? || reply == Refused(AccessDenied) then w.pending - {e.request.nonce} else w.pending)
      && after.issued.access == w.issued.access && after.issued.refresh == w.issued.refresh
      && (!reply.CodeIssued? ==> after.issued.codes == w.issued.codes)
      && (reply.CodeIssued? ==>
            && reply.code == e.request.code && OnlyAdds(w.issued.codes, after.issued.codes, e.request.code)
            && var code, open := after.issued.codes[e.request.code], w.pending[e.request.nonce];
               && code.client == open.client && code.readable && code.expiry == At(e.at + 300.0)
               && code.claims.key == Some(e.request.key) && code.claims.user == Some(e.request.answer.user)
               && code.claims.role == Some(e.request.answer.role)
               && code.scopes == if open.scopes == [] then [e.request.answer.role] else open.scopes)
  {}

  // ---- the code exchange --------------------------------------------------------------

  /** A code is redeemed exactly by the client it was issued to, in time; anyone else is refused and changes nothing. */
  lemma CodeRedeemedWhen(w: World, config: Config, e: Event)
    requires e.request.ExchangeCode?
    ensures
      var codes, code := w.issued.codes, e.request.code;
      Step(w, config, e).reply.TokensIssued? <==>
        code in codes && codes[code].client == e.request.client && codes[code].readable && e.at < Ends(codes[code])
    ensures !Step(w, config, e).reply.TokensIssued? ==>
      Step(w, config, e).reply == Refused(InvalidGrant) && Step(w, config, e).world == w.(clock := e.at)
  {}

  /** The scopes handed out for a code are the editor's, and the admin's exactly to an admin. */
  lemma CodeScopesAre(w: World, config: Config, e: Event)
    requires e.request.ExchangeCode? && Step(w, config, e).reply.TokensIssued?
    ensures
      var granted := Step(w, config, e).reply.granted;
      && "editor" in granted
      && ("admin" in granted <==> w.issued.codes[e.request.code].claims.role == Some("admin"))
      && forall s :: s in granted ==> s == "admin" || s == "editor"
  {}

  /** The pair a code is exchanged for: for its client, key, user and role, from now on, and nothing else changes. */
  lemma CodePairIs(w: World, config: Config, e: Event)
    requires e.request.ExchangeCode? && Step(w, config, e).reply.TokensIssued?
    ensures
      var reply, before, after := Step(w, config, e).reply, w.issued, Step(w, config, e).world.issued;
      && reply.access == e.request.access && reply.refresh == e.request.refresh
      && OnlyRemoves(before.codes, after.codes, e.request.code)
      && OnlyAdds(before.access, after.access, reply.access) && OnlyAdds(before.refresh, after.refresh, reply.refresh)
      && PairFor(after.access[reply.access], after.refresh[reply.refresh], before.codes[e.request.code].client,
           before.codes[e.request.code].claims, config, e.at)
      && after.access[reply.access].scopes == after.refresh[reply.refresh].scopes == reply.granted
      && after.refresh[reply.refresh].claims.grantedAt == Some(e.at.Floor)
  {}

  /** Two tokens for this client and these claims, each with its lifetime from now. */
  ghost predicate PairFor(a: Grant, r: Grant, client: ClientId, claims: Claims, config: Config, now: real) {
    && a.client == r.client == client
    && a.claims.key == r.claims.key == Some(claims.key.GetOr(""))
    && a.claims.user == r.claims.user == Some(claims.user.GetOr(""))
    && a.claims.role == r.claims.role == Some(claims.role.GetOr(""))
    && a.expiry == At((now.Floor + config.tokenTtl) as real) && r.expiry == At((now.Floor + config.refreshTtl) as real)
  }

  // ---- refreshing ---------------------------------------------------------------------

  /** When the grant behind a refresh token began: at its stamp, or now if it has none. */
  ghost function Since(claims: Claims, now: real): int {
    match claims.grantedAt
    case None => now.Floor
    case Some(stamp) => if stamp == 0 then now.Floor else stamp
  }

  /** The token is this client's, has not run out, was granted every scope asked for, and says whom it acts for. */
  ghost predicate Presentable(w: World, e: Event)
    requires e.request.ExchangeRefresh?
  {
    var tokens, token := w.issued.refresh, e.request.token;
    && token in tokens && tokens[token].client == e.request.client
    && (tokens[token].expiry.At? ==> e.at < tokens[token].expiry.time)
    && (forall s :: s in e.request.asked ==> s in tokens[token].scopes)
    && tokens[token].claims.key.Some? && tokens[token].claims.user.Some? && tokens[token].claims.role.Some?
  }

  /** A refresh succeeds exactly for such a token of a grant not too old, whose key is not known to be finished. */
  lemma RefreshedWhen(w: World, config: Config, e: Event)
    requires e.request.ExchangeRefresh?
    ensures
      var reply, answer := Step(w, config, e).reply, e.request.answer;
      if !Presentable(w, e) then reply == Refused(InvalidGrant) || reply == Refused(InvalidScope)
      else if e.at - Since(w.issued.refresh[e.request.token].claims, e.at) as real > config.maxAge as real then
        reply == Refused(TooOld)
      else if answer.Unusable? || (answer.Usable? && answer.role == "reader") then reply == Refused(KeyRevoked)
      else reply.TokensIssued?
  {}

  /** A refused refresh costs a grant that is too old its token, a finished key everything, and otherwise nothing. */
  lemma RefusedRefreshCosts(w: World, config: Config, e: Event)
    requires e.request.ExchangeRefresh? && Step(w, config, e).reply.Refused?
    ensures
      var reason, before, after := Step(w, config, e).reply.reason, w.issued, Step(w, config, e).world.issued;
      match reason
      case TooOld =>
        && OnlyRemoves(before.refresh, after.refresh, e.request.token)
        && after.access == before.access && after.codes == before.codes
      case KeyRevoked =>
        && e.request.token in before.refresh && before.refresh[e.request.token].claims.key.Some?
        && LosesKey(before, after, before.refresh[e.request.token].claims.key.value)
      case _ => after == before
  {
    if Step(w, config, e).reply.reason == KeyRevoked {
      WithoutKeyLoses(w.issued, w.issued.refresh[e.request.token].claims.key.value);
    }
  }

  /**
   * What a refresh hands out: of the scopes asked for the editor's, and the admin's while the key's user is one; the
   * editor's if that leaves none; all of them while the backend cannot say.
   */
  lemma RefreshScopesAre(w: World, config: Config, e: Event)
    requires e.request.ExchangeRefresh? && Step(w, config, e).reply.TokensIssued?
    ensures
      var granted, asked, answer := Step(w, config, e).reply.granted, e.request.asked, e.request.answer;
      && (answer.Unavailable? ==> granted == asked)
      && (answer.Usable? ==>
            && ("admin" in granted <==> "admin" in asked && answer.role == "admin")
            && ("editor" in granted <==> "editor" in asked || !("admin" in asked && answer.role == "admin"))
            && forall s :: s in granted ==> s == "admin" || s == "editor")
  {
    var asked, answer := e.request.asked, e.request.answer;
    if answer.Usable? {
      forall s ensures s in Allowed(asked, answer.role) <==>
        s in asked && (s == "editor" || (s == "admin" && answer.role == "admin"))
      {
        AllowedIsExactly(asked, answer.role, s);
      }
      var kept := Allowed(asked, answer.role);
      assert kept != [] ==> kept[0] in kept;
    }
  }

  /**
   * The pair a refresh token is rotated into: the user and role as the backend has them now, the beginning of the
   * grant and the scopes it may ask for again as they were; the token presented is gone and nothing else changes.
   */
  lemma RotatedPairIs(w: World, config: Config, e: Event)
    requires e.request.ExchangeRefresh? && Step(w, config, e).reply.TokensIssued?
    ensures
      var reply, before, after := Step(w, config, e).reply, w.issued, Step(w, config, e).world.issued;
      var presented, answer := before.refresh[e.request.token], e.request.answer;
      && reply.access == e.request.access && reply.refresh == e.request.refresh
      && after.codes == before.codes && OnlyAdds(before.access, after.access, reply.access)
      && (e.request.token != reply.refresh ==> e.request.token !in after.refresh)
      && (forall t :: t != e.request.token && t != reply.refresh ==>
            (t in before.refresh <==> t in after.refresh)
            && (t in before.refresh ==> after.refresh[t] == before.refresh[t]))
      && reply.refresh in after.refresh
      && PairFor(after.access[reply.access], after.refresh[reply.refresh], presented.client,
           if answer.Usable? then presented.claims.(user := Some(answer.user), role := Some(answer.role))
           else presented.claims,
           config, e.at)
      && after.access[reply.access].scopes == reply.granted
      && after.refresh[reply.refresh].scopes == presented.scopes
      && after.refresh[reply.refresh].claims.grantedAt == Some(Since(presented.claims, e.at))
  {}

  // ---- use and revocation -------------------------------------------------------------

  /** A bearer token is accepted as stored until it runs out, unless its key is known to be finished. */
  lemma BearerAcceptedWhen(w: World, config: Config, e: Event)
    requires e.request.LoadAccess?
    ensures
      var tokens, token, answer := w.issued.access, e.request.token, e.request.answer;
      var live := token in tokens && e.at < Ends(tokens[token]);
      var finished := answer.Unusable? || (answer.Usable? && answer.role == "reader");
      var out := Step(w, config, e);
      if !live then out.reply == Refused(InvalidGrant) && out.world.issued == w.issued
      else if tokens[token].claims.key.GetOr("") != "" && finished then
        out.reply == Refused(KeyRevoked) && LosesKey(w.issued, out.world.issued, tokens[token].claims.key.value)
      else out.reply == Bearer(tokens[token]) && out.world.issued == w.issued
  {
    var tokens, token := w.issued.access, e.request.token;
    if token in tokens && tokens[token].claims.key.Some? {
      WithoutKeyLoses(w.issued, tokens[token].claims.key.value);
    }
  }

  /** Revoking a token takes that token and nothing else. */
  lemma RevocationTakesOne(w: World, config: Config, e: Event)
    requires e.request.RevokeAccess? || e.request.RevokeRefresh?
    ensures
      var before, after := w.issued, Step(w, config, e).world.issued;
      && Step(w, config, e).reply == Done && after.codes == before.codes
      && (e.request.RevokeAccess? ==>
            OnlyRemoves(before.access, after.access, e.request.token) && after.refresh == before.refresh)
      && (e.request.RevokeRefresh? ==>
            OnlyRemoves(before.refresh, after.refresh, e.request.token) && after.access == before.access)
  {}

  /** A restart closes every consent session and keeps every grant, if the file can be read back. */
  lemma RestartKeeps(w: World, config: Config, e: Event)
    requires e.request.Restart?
    ensures
      var after := Step(w, config, e).world;
      && after.pending == map[]
      && after.issued == if e.request.readable then w.issued else Issued(map[], map[], map[])
  {}

  // ---- over runs ----------------------------------------------------------------------

  /**
   * Whatever happens after a consent with a key that was not an admin's then, promotions included, no token of that
   * consent ever has the admin's scope, and every one has the client and the key of the consent.
   */
  lemma EditorsConsentStaysEditors(w: World, config: Config, e: Event, es: seq<Event>)
    requires Inv(w, config) && Fits(w, e) && Step(w, config, e).reply.CodeIssued?
    requires Happens(Step(w, config, e).world, config, es)
    ensures
      var later, consent := Run(Step(w, config, e).world, config, es), w.consents;
      forall t :: t in later.consent && later.consent[t] == consent ==>
        && (t in later.issued.access ==>
              && (e.request.answer.role != "admin" ==> "admin" !in later.issued.access[t].scopes)
              && later.issued.access[t].client == w.pending[e.request.nonce].client
              && later.issued.access[t].claims.key.GetOr("") == e.request.key)
        && (t in later.issued.refresh ==>
              && (e.request.answer.role != "admin" ==> "admin" !in later.issued.refresh[t].scopes)
              && later.issued.refresh[t].client == w.pending[e.request.nonce].client
              && later.issued.refresh[t].claims.key.GetOr("") == e.request.key)
  {
    ConsentFixesTerms(w, config, e, es);
  }
}
