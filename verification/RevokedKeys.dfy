/**
 * The provider's grants and the caches that answer for their keys, together: what becomes of a revoked key
 * (mcp_server/oauth_provider.py with mcp_server/auth.py).
 */
module RevokedKeys {
  import opened Wrappers
  import opened Digests
  import opened TokenStore
  import opened OAuthProvider
  import opened OAuthRequests
  import opened SlidingWindow
  import KeyCache

  /** What the provider makes of an answer about a key. */
  function Heard(answer: KeyCache.Answer): Answer {
    match answer
    case Err(_) => Unavailable
    case Ok(None) => Unusable
    case Ok(Some(who)) => Usable(who.user, who.role)
  }

  /** What the cache by id says of a key at this time, whatever it was asked before. */
  ghost predicate Checked(check: KeyCache.Backend<KeyId>, key: KeyId, answer: Answer, at: real) {
    exists cache :: KeyCache.Honest(cache, check, at) && answer == Heard(KeyCache.Ask(cache, check, key, at).answer)
  }

  /** A good answer to a consent comes from the cache by hash, and names the key. */
  ghost predicate Verified(verify: KeyCache.Backend<Secret>, typed: Secret, key: KeyId, answer: Answer, at: real) {
    answer.Usable? ==>
      exists who: KeyCache.Identity ::
        who.key == key && KeyCache.RecentlyTrue(verify, typed, Ok(Some(who)), at)
  }

  ghost predicate KeyIs(entries: map<Token, Grant>, token: Token, key: KeyId) {
    token in entries && entries[token].claims.key == Some(key)
  }

  /** The answer about the key in a request is the one the caches give. */
  ghost predicate Informed(w: World, check: KeyCache.Backend<KeyId>, verify: KeyCache.Backend<Secret>, e: Event) {
    match e.request
    case Consent(_, typed, _, key, answer, _) => Verified(verify, typed, key, answer, e.at)
    case ExchangeRefresh(_, token, _, answer, _, _) =>
      forall key :: KeyIs(w.issued.refresh, token, key) ==> Checked(check, key, answer, e.at)
    case LoadAccess(token, answer) =>
      forall key :: KeyIs(w.issued.access, token, key) ==> Checked(check, key, answer, e.at)
    case _ => true
  }

  ghost predicate InformedThroughout(
    w: World, config: Config, check: KeyCache.Backend<KeyId>, verify: KeyCache.Backend<Secret>, es: seq<Event>)
    decreases |es|
  {
    es == [] ||
    (Informed(w, check, verify, es[0])
     && InformedThroughout(Step(w, config, es[0]).world, config, check, verify, es[1..]))
  }

  /** The normal answer about a key that is good. */
  predicate Good(r: KeyCache.Response) {
    r.Response? && r.status == 200 && r.body.Some?
  }

  /** Nothing came back that says anything about the key. */
  predicate Silent(r: KeyCache.Response) {
    r.NoResponse? || r.status == 404 || r.status >= 500
  }

  /** From this time on the backend knows the key neither by its id nor by its secret. */
  ghost predicate Revoked(
    check: KeyCache.Backend<KeyId>, verify: KeyCache.Backend<Secret>, key: KeyId, from: real)
  {
    && KeyCache.RevokedFrom(check, key, from)
    && forall typed, at :: from <= at && Good(verify(typed, at)) ==> verify(typed, at).body.value.key != key
  }

  /** A minute after revocation what the provider hears is the backend's refusal, or that it cannot be reached. */
  lemma RevokedIsHeard(
      check: KeyCache.Backend<KeyId>, verify: KeyCache.Backend<Secret>, key: KeyId, from: real, answer: Answer,
      at: real)
    requires Revoked(check, verify, key, from) && from + 60.0 <= at && Checked(check, key, answer, at)
    ensures answer == if Silent(check(key, at)) then Unavailable else Unusable
  {
    var cache :| KeyCache.Honest(cache, check, at) && answer == Heard(KeyCache.Ask(cache, check, key, at).answer);
    KeyCache.AnswerIsRecent(cache, check, key, at, at);
  }

  /**
   * A minute after its key was revoked a token is refused whenever the backend answers at all, with a 401 say, on a
   * call as on a refresh, and a refusal for the key's sake leaves nothing issued from it.
   */
  lemma RevokedTokenIsRefused(
      w: World, config: Config, check: KeyCache.Backend<KeyId>, verify: KeyCache.Backend<Secret>, e: Event,
      key: KeyId, from: real)
    requires Revoked(check, verify, key, from) && from + 60.0 <= e.at && Informed(w, check, verify, e)
    requires
      var r := check(key, e.at);
      key != "" && r.Response? && r.status < 500 && r.status != 404
    requires
      || (e.request.LoadAccess? && KeyIs(w.issued.access, e.request.token, key))
      || (e.request.ExchangeRefresh? && KeyIs(w.issued.refresh, e.request.token, key))
    ensures Step(w, config, e).reply.Refused?
    ensures Step(w, config, e).reply == Refused(KeyRevoked) ==> NoGrants(Step(w, config, e).world.issued, key)
  {
    RevokedIsHeard(check, verify, key, from, e.request.answer, e.at);
    if Step(w, config, e).reply == Refused(KeyRevoked) {
      assert Step(w, config, e).world.issued == IssuedWithout(w.issued, key);
    }
  }

  lemma SecretForgotten(
      check: KeyCache.Backend<KeyId>, verify: KeyCache.Backend<Secret>, key: KeyId, from: real, typed: Secret,
      who: KeyCache.Identity, now: real)
    requires Revoked(check, verify, key, from) && from + 60.0 <= now
    requires KeyCache.RecentlyTrue(verify, typed, Ok(Some(who)), now)
    ensures who.key != key
  {
    var at: real :| now - 60.0 < at <= now && KeyCache.Says(verify(typed, at), Ok(Some(who)));
    assert Good(verify(typed, at));
  }

  /** Nor does a consent with the key yield a code. */
  lemma RevokedCannotConsent(
      w: World, config: Config, check: KeyCache.Backend<KeyId>, verify: KeyCache.Backend<Secret>, e: Event,
      key: KeyId, from: real)
    requires Revoked(check, verify, key, from) && from + 60.0 <= e.at && Informed(w, check, verify, e)
    requires ConsentsWith(e, key)
    ensures !Step(w, config, e).reply.CodeIssued?
  {
    var typed := e.request.typed;
    forall who: KeyCache.Identity | KeyCache.RecentlyTrue(verify, typed, Ok(Some(who)), e.at) ensures who.key != key {
      SecretForgotten(check, verify, key, from, typed, who, e.at);
    }
  }

  /**
   * Once the grants of a revoked key are gone they are gone for good: from a minute after the revocation nothing is
   * issued from it in any run, whoever asks for it.
   */
  lemma {:induction false} RevokedKeyIsShutOut(
      w: World, config: Config, check: KeyCache.Backend<KeyId>, verify: KeyCache.Backend<Secret>, es: seq<Event>,
      key: KeyId, from: real)
    requires Revoked(check, verify, key, from) && from + 60.0 <= w.clock
    requires NoGrants(w.issued, key) && Happens(w, config, es) && InformedThroughout(w, config, check, verify, es)
    ensures NoGrants(Run(w, config, es).issued, key)
    decreases |es|
  {
    if es != [] {
      var e := es[0];
      if ConsentsWith(e, key) {
        RevokedCannotConsent(w, config, check, verify, e, key, from);
      }
      DoKeepsNoGrants(w.(clock := e.at), config, e.request, key);
      ClockMoves(w, config, e);
      RevokedKeyIsShutOut(Step(w, config, e).world, config, check, verify, es[1..], key, from);
    }
  }

  lemma ClockMoves(w: World, config: Config, e: Event)
    ensures Step(w, config, e).world.clock == e.at
  {}

  // ---- the requests as they run -------------------------------------------------------

  ghost predicate Kept<K>(cache: map<K, KeyCache.Entry>, k: K, now: real) {
    k in cache && now < cache[k].expiresAt
  }

  /** What the provider is told of a key: by a cache, while it has an entry, or by this response. */
  ghost predicate Told<K>(cache: map<K, KeyCache.Entry>, k: K, r: KeyCache.Response, now: real, answer: Answer) {
    if Kept(cache, k, now) then answer == Usable(cache[k].value.user, cache[k].value.role)
    else if Good(r) then answer == Usable(r.body.value.user, r.body.value.role)
    else answer == if Silent(r) then Unavailable else Unusable
  }

  lemma LookedUpIsTold<K>(
      before: map<K, KeyCache.Entry>, after: map<K, KeyCache.Entry>, k: K, r: KeyCache.Response, now: real,
      answer: KeyCache.Answer)
    requires KeyCache.LooksUp(before, after, k, r, now, answer)
    ensures Told(before, k, r, now, Heard(answer))
  {}

  /** An address's failures after this answer about a key typed there. */
  ghost function Held(
      failures: map<Address, seq<real>>, ip: Address, answer: Answer, now: real): map<Address, seq<real>>
  {
    match answer
    case Unusable => failures[ip := Of(failures, ip) + [now]]
    case Usable(_, _) => failures - {ip}
    case Unavailable => failures
  }

  ghost predicate Limited(failures: map<Address, seq<real>>, ip: Address, now: real) {
    |Within(Of(failures, ip), now, 60.0)| >= 20
  }

  /**
   * A key typed into the consent form. One the backend rejects is held against the address, an outage is not, and a
   * good one, a reader's too, wipes the address's failures.
   */
  method VerifyTyped(
      verifier: KeyCache.Verifier, typed: Secret, ip: Address, now: real)
    returns (key: KeyId, answer: Answer)
    requires verifier.Valid() && verifier.clock <= now
    modifies verifier
    ensures verifier.Valid() && Verified(verifier.verify, typed, key, answer, now)
    ensures Told(old(verifier.verifyCache), Sha256(typed), verifier.verify(typed, now), now, answer)
    ensures verifier.failures == Held(old(verifier.failures), ip, answer, now)
  {
    var heard := verifier.VerifyApiKey(typed, now);
    key, answer := "", Heard(heard);
    LookedUpIsTold(
      old(verifier.verifyCache), verifier.verifyCache, Sha256(typed), verifier.verify(typed, now), now, heard);
    if heard.Ok? {
      if heard.value.None? {
        verifier.RecordFailure(ip, now);
      } else {
        key := heard.value.value.key;
        verifier.ClearFailures(ip);
      }
    }
  }

  /** A complete form's key, unless the address has failed too often of late. */
  method VerifyUnlessLimited(verifier: KeyCache.Verifier, typed: Secret, ip: Address, now: real)
    returns (limited: bool, key: KeyId, answer: Answer)
    requires verifier.Valid() && verifier.clock <= now
    modifies verifier
    ensures verifier.Valid() && Verified(verifier.verify, typed, key, answer, now)
    ensures limited <==> Limited(old(verifier.failures), ip, now)
    ensures !limited ==>
      Told(old(verifier.verifyCache), Sha256(typed), verifier.verify(typed, now), now, answer)
    ensures verifier.failures ==
      if limited then old(verifier.failures) else Held(old(verifier.failures), ip, answer, now)
  {
    limited := verifier.IsRateLimited(ip, now);
    key, answer := "", Unavailable;
    if !limited {
      key, answer := VerifyTyped(verifier, typed, ip, now);
    }
  }

  /** The consent form sent in. The failure limiter is consulted once the form is complete. */
  method ConsentPost(
      provider: Provider, verifier: KeyCache.Verifier, nonce: Nonce, typed: Secret, ip: Address, code: Token, now: real)
    returns (reply: Reply, ghost request: Request)
    requires provider.Valid() && provider.world.clock <= now && verifier.Valid() && verifier.clock <= now
    modifies provider, provider.store, verifier
    ensures verifier.Valid()
    ensures request.Consent? && request.nonce == nonce && request.typed == typed && request.code == code
    ensures provider.Answers(request, now, reply)
    ensures Verified(verifier.verify, typed, request.key, request.answer, now)
    ensures verifier.failures ==
      if reply == Refused(BadKey) then old(verifier.failures)[ip := Of(old(verifier.failures), ip) + [now]]
      else if reply == Refused(AccessDenied) || reply.CodeIssued? then old(verifier.failures) - {ip}
      else old(verifier.failures)
    ensures
      var open := nonce in old(provider.pending) && now <= old(provider.pending)[nonce].expiresAt;
      var cache, d, r := old(verifier.verifyCache), Sha256(typed), verifier.verify(typed, now);
      if !open then reply == Refused(Expired)
      else if typed == "" then reply == Refused(MissingKey)
      else if Limited(old(verifier.failures), ip, now) then reply == Refused(RateLimited)
      else if Kept(cache, d, now) then
        reply == if cache[d].value.role == "reader" then Refused(AccessDenied) else CodeIssued(code)
      else if r.NoResponse? || r.status == 404 || r.status >= 500 then reply == Refused(BackendDown)
      else if r.status == 200 && r.body.Some? then
        reply == if r.body.value.role == "reader" then Refused(AccessDenied) else CodeIssued(code)
      else reply == Refused(BadKey)
  {
    var limited, key, answer := false, "", Unavailable;
    if nonce in provider.pending && now <= provider.pending[nonce].expiresAt && typed != "" {
      limited, key, answer := VerifyUnlessLimited(verifier, typed, ip, now);
    }
    request := Consent(nonce, typed, limited, key, answer, code);
    ConsentGivenWhen(provider.world, provider.config, Event(request, now));
    reply := provider.GiveConsent(nonce, typed, limited, key, answer, code, now);
  }

  method CheckKey(verifier: KeyCache.Verifier, key: KeyId, now: real) returns (answer: Answer)
    requires verifier.Valid() && verifier.clock <= now
    modifies verifier`checkCache, verifier`clock
    ensures verifier.Valid() && Checked(verifier.check, key, answer, now)
    ensures Told(old(verifier.checkCache), key, verifier.check(key, now), now, answer)
  {
    verifier.Advance(now);
    ghost var cache := verifier.checkCache;
    var heard := verifier.CheckApiKeyId(key, now);
    answer := Heard(heard);
    LookedUpIsTold(cache, verifier.checkCache, key, verifier.check(key, now), now, heard);
    assert KeyCache.Honest(cache, verifier.check, now);
  }

  /** The key behind a grant, if it has one, was found usable, or the backend could not be reached. */
  ghost predicate Cleared(check: KeyCache.Backend<KeyId>, grant: Grant, answer: Answer, now: real) {
    var key := grant.claims.key.GetOr("");
    key != "" ==> Checked(check, key, answer, now) && !Dead(answer)
  }

  /** The key behind a live token, or the empty one. */
  method BearerKey(provider: Provider, token: Token, now: real) returns (key: KeyId)
    requires provider.Valid() && provider.world.clock <= now
    ensures
      var found := Lookup(Access, provider.world.issued.access, token, now);
      key == if found.Some? then found.value.claims.key.GetOr("") else ""
  {
    provider.store.Remembered(token, now);
    var found := Lookup(Access, provider.store.tokens, Sha256(token), now);
    key := if found.Some? then found.value.claims.key.GetOr("") else "";
  }

  /** A bearer token presented on a call: its key, if it has one, is looked up by id. */
  method AcceptBearer(provider: Provider, verifier: KeyCache.Verifier, token: Token, now: real)
    returns (reply: Reply, ghost request: Request)
    requires provider.Valid() && provider.world.clock <= now && verifier.Valid() && verifier.clock <= now
    modifies provider, provider.store, verifier`checkCache, verifier`clock
    ensures verifier.Valid()
    ensures request.LoadAccess? && request.token == token && provider.Answers(request, now, reply)
    ensures reply.Bearer? ==> Cleared(verifier.check, reply.grant, request.answer, now)
    ensures
      var tokens, cache := old(provider.world.issued.access), old(verifier.checkCache);
      if token !in tokens || now >= Ends(tokens[token]) then reply == Refused(InvalidGrant)
      else
        var key := tokens[token].claims.key.GetOr("");
        var r := verifier.check(key, now);
        if key == "" then reply == Bearer(tokens[token])
        else if Kept(cache, key, now) then
          reply == if cache[key].value.role == "reader" then Refused(KeyRevoked) else Bearer(tokens[token])
        else if r.NoResponse? || r.status == 404 || r.status >= 500 then reply == Bearer(tokens[token])
        else if r.status == 200 && r.body.Some? && r.body.value.role != "reader" then reply == Bearer(tokens[token])
        else reply == Refused(KeyRevoked) && LosesKey(old(provider.world.issued), provider.world.issued, key)
  {
    var key := BearerKey(provider, token, now);
    var answer := Unavailable;
    if key != "" {
      answer := CheckKey(verifier, key, now);
    }
    request := LoadAccess(token, answer);
    BearerAcceptedWhen(provider.world, provider.config, Event(request, now));
    reply := provider.LoadAccessToken(token, answer, now);
  }
}
