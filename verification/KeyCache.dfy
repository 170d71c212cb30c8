/**
 * Verifying API keys against the backend (mcp_server/auth.py): the one-minute caches of good answers, and the limit on
 * failed attempts per address.
 *
 * The backend is any function of the key and the time it is asked.
 */
module KeyCache {
  import opened Wrappers
  import opened Digests
  import opened SlidingWindow

  const CACHE_TTL := 60.0
  const RATE_WINDOW := 60.0
  const RATE_LIMIT := 20

  type KeyId = string

  datatype Identity = Identity(key: KeyId, user: string, role: string)

  /** What comes back over the network: nothing, or a status with a body that may not parse. */
  datatype Response = NoResponse | Response(status: int, body: Option<Identity>)

  datatype Outage = BackendUnavailable

  type Answer = Result<Option<Identity>, Outage>

  /** A missing route counts as an outage; so does every server error, but not a malformed good answer. */
  function Meaning(r: Response): Answer {
    if r.NoResponse? then Err(BackendUnavailable)
    else if r.status == 200 then Ok(r.body)
    else if r.status >= 500 || r.status == 404 then Err(BackendUnavailable)
    else Ok(None)
  }

  /**
   * What a response says: 200 with a body that parses is a good key; nothing, 404 and the server errors are an outage;
   * anything else, 401 and 403 among it, is a refusal.
   */
  ghost predicate Says(r: Response, answer: Answer) {
    match answer
    case Ok(Some(who)) => r == Response(200, Some(who))
    case Ok(None) => r.Response? && if r.status == 200 then r.body == None else r.status < 500 && r.status != 404
    case Err(_) => r.NoResponse? || r.status == 404 || r.status >= 500
  }

  lemma MeaningIs(r: Response, answer: Answer)
    ensures Meaning(r) == answer <==> Says(r, answer)
  {
    if answer.Err? {
      assert answer.error.BackendUnavailable?;
    }
  }

  type Backend<!K> = (K, real) -> Response

  datatype Entry = Entry(expiresAt: real, value: Identity)

  datatype Asked<K> = Asked(cache: map<K, Entry>, answer: Answer)

  /** A lookup: the cached answer while it is fresh, else the backend's, kept only when it is good. */
  function Ask<K>(cache: map<K, Entry>, backend: Backend<K>, k: K, now: real): Asked<K> {
    if k in cache && now < cache[k].expiresAt then Asked(cache, Ok(Some(cache[k].value)))
    else
      var answer := Meaning(backend(k, now));
      if answer.Ok? && answer.value.Some? then Asked(cache[k := Entry(now + CACHE_TTL, answer.value.value)], answer)
      else Asked(cache - {k}, answer)
  }

  /** A lookup, before and after: a fresh entry answers; otherwise the backend, and a good answer is kept one minute. */
  ghost predicate LooksUp<K>(
      before: map<K, Entry>, after: map<K, Entry>, k: K, r: Response, now: real, answer: Answer)
  {
    if k in before && now < before[k].expiresAt then answer == Ok(Some(before[k].value)) && after == before
    else
      && Says(r, answer)
      && after ==
        match answer
        case Ok(Some(who)) => before[k := Entry(now + 60.0, who)]
        case _ => before - {k}
  }

  lemma AskLooksUp<K>(cache: map<K, Entry>, backend: Backend<K>, k: K, now: real)
    ensures
      var asked := Ask(cache, backend, k, now);
      LooksUp(cache, asked.cache, k, backend(k, now), now, asked.answer)
  {
    MeaningIs(backend(k, now), Meaning(backend(k, now)));
  }

  datatype Query<K> = Query(key: K, at: real)

  function AskAll<K>(cache: map<K, Entry>, backend: Backend<K>, qs: seq<Query<K>>): map<K, Entry>
    decreases |qs|
  {
    if qs == [] then cache else AskAll(Ask(cache, backend, qs[0].key, qs[0].at).cache, backend, qs[1..])
  }

  /** One more query is asked of the cache the queries before it have left. */
  lemma {:induction false} AskAllExtends<K>(
      cache: map<K, Entry>, backend: Backend<K>, qs: seq<Query<K>>, q: Query<K>)
    ensures AskAll(cache, backend, qs + [q]) == Ask(AskAll(cache, backend, qs), backend, q.key, q.at).cache
    decreases |qs|
  {
    if qs == [] {
      assert [] + [q] == [q];
    } else {
      assert (qs + [q])[1..] == qs[1..] + [q];
      AskAllExtends(Ask(cache, backend, qs[0].key, qs[0].at).cache, backend, qs[1..], q);
    }
  }

  // ---- what a cache may hold ----------------------------------------------------------

  /** Each entry is what the backend itself answered, one lifetime before the entry expires and not in the future. */
  ghost predicate Honest<K>(cache: map<K, Entry>, backend: Backend<K>, now: real) {
    forall k :: k in cache ==>
      && cache[k].expiresAt - CACHE_TTL <= now
      && Meaning(backend(k, cache[k].expiresAt - CACHE_TTL)) == Ok(Some(cache[k].value))
  }

  ghost predicate Ordered<K>(qs: seq<Query<K>>, from: real) {
    qs == [] || (from <= qs[0].at && Ordered(qs[1..], qs[0].at))
  }

  ghost function LastTime<K>(qs: seq<Query<K>>, from: real): real {
    if qs == [] then from else LastTime(qs[1..], qs[0].at)
  }

  lemma AskIsHonest<K>(cache: map<K, Entry>, backend: Backend<K>, k: K, before: real, now: real)
    requires Honest(cache, backend, before) && before <= now
    ensures Honest(Ask(cache, backend, k, now).cache, backend, now)
  {
    assert now + CACHE_TTL - CACHE_TTL == now;
  }

  lemma {:induction false} AskAllIsHonest<K>(cache: map<K, Entry>, backend: Backend<K>, qs: seq<Query<K>>, from: real)
    requires Honest(cache, backend, from) && Ordered(qs, from)
    ensures Honest(AskAll(cache, backend, qs), backend, LastTime(qs, from))
    decreases |qs|
  {
    if qs != [] {
      AskIsHonest(cache, backend, qs[0].key, from, qs[0].at);
      AskAllIsHonest(Ask(cache, backend, qs[0].key, qs[0].at).cache, backend, qs[1..], qs[0].at);
    }
  }

  /** The backend gave this answer for the key within the last minute. */
  ghost predicate RecentlyTrue<K>(backend: Backend<K>, k: K, answer: Answer, now: real) {
    exists at: real :: now - 60.0 < at <= now && Says(backend(k, at), answer)
  }

  /** After any queries, the next answer is one the backend gave itself at most a minute ago. */
  lemma EveryAnswerIsRecent<K>(backend: Backend<K>, qs: seq<Query<K>>, from: real, k: K, now: real)
    requires Ordered(qs, from) && LastTime(qs, from) <= now
    ensures RecentlyTrue(backend, k, Ask(AskAll(map[], backend, qs), backend, k, now).answer, now)
  {
    AskAllIsHonest(map[], backend, qs, from);
    AnswerIsRecent(AskAll(map[], backend, qs), backend, k, LastTime(qs, from), now);
  }

  lemma AnswerIsRecent<K>(cache: map<K, Entry>, backend: Backend<K>, k: K, before: real, now: real)
    requires Honest(cache, backend, before) && before <= now
    ensures RecentlyTrue(backend, k, Ask(cache, backend, k, now).answer, now)
  {
    var at := if k in cache && now < cache[k].expiresAt then cache[k].expiresAt - CACHE_TTL else now;
    MeaningIs(backend(k, at), Ask(cache, backend, k, now).answer);
    assert now - CACHE_TTL < at <= now && Says(backend(k, at), Ask(cache, backend, k, now).answer);
  }

  /** From this time on the backend, when it can be reached, does not know the key. */
  ghost predicate RevokedFrom<K>(backend: Backend<K>, k: K, revoked: real) {
    forall at: real :: revoked <= at ==>
      !(backend(k, at).Response? && backend(k, at).status == 200 && backend(k, at).body.Some?)
  }

  /** A minute after revocation the key is refused whenever the backend can be reached, and never accepted. */
  lemma RevokedIsRefused<K>(backend: Backend<K>, qs: seq<Query<K>>, from: real, k: K, revoked: real, now: real)
    requires Ordered(qs, from) && LastTime(qs, from) <= now
    requires RevokedFrom(backend, k, revoked) && revoked + 60.0 <= now
    ensures
      var answer, r := Ask(AskAll(map[], backend, qs), backend, k, now).answer, backend(k, now);
      answer == if r.NoResponse? || r.status == 404 || r.status >= 500 then Err(BackendUnavailable) else Ok(None)
  {
    EveryAnswerIsRecent(backend, qs, from, k, now);
  }

  /** The backend asked for a secret by its hash. */
  ghost function Hashed(verify: Backend<Secret>): Backend<Digest> {
    (d: Digest, at: real) => verify(d.of, at)
  }

  lemma DigestAnswerIsRecent(cache: map<Digest, Entry>, verify: Backend<Secret>, secret: Secret, now: real)
    requires Honest(cache, Hashed(verify), now)
    ensures RecentlyTrue(verify, secret, Ask(cache, Hashed(verify), Sha256(secret), now).answer, now)
  {
    var answer := Ask(cache, Hashed(verify), Sha256(secret), now).answer;
    AnswerIsRecent(cache, Hashed(verify), Sha256(secret), now, now);
    var at: real :| now - 60.0 < at <= now && Says(Hashed(verify)(Sha256(secret), at), answer);
    assert Says(verify(secret, at), answer);
  }

  // ---- the caches as they run ---------------------------------------------------------

  class Verifier {
    const verify: Backend<Secret>  // by the key itself
    const check: Backend<KeyId>    // by its id
    var verifyCache: map<Digest, Entry>
    var checkCache: map<KeyId, Entry>
    var failed: map<Address, seq<real>>

    /** Every failure since the address last succeeded, never pruned. */
    ghost var failures: map<Address, seq<real>>
    ghost var clock: real

    ghost function ByDigest(): Backend<Digest> {
      Hashed(verify)
    }

    ghost predicate Valid()
      reads this
    {
      && Honest(verifyCache, ByDigest(), clock)
      && Honest(checkCache, check, clock)
      && Remembers(failed, failures, clock, RATE_WINDOW)
    }

    constructor (verify: Backend<Secret>, check: Backend<KeyId>, now: real)
      ensures Valid() && clock == now && this.verify == verify && this.check == check
    {
      this.verify, this.check := verify, check;
      verifyCache, checkCache, failed, failures, clock := map[], map[], map[], map[], now;
    }

    ghost method Advance(now: real)
      requires Valid() && clock <= now
      modifies this`clock
      ensures Valid() && clock == now
    {
      RemembersLater(failed, failures, clock, now, RATE_WINDOW);
      clock := now;
    }

    method VerifyApiKey(secret: Secret, now: real) returns (answer: Answer)
      requires Valid() && clock <= now
      modifies this`verifyCache, this`clock
      ensures Valid() && clock == now
      ensures
        var asked := Ask(old(verifyCache), ByDigest(), Sha256(secret), now);
        answer == asked.answer && verifyCache == asked.cache
      ensures LooksUp(old(verifyCache), verifyCache, Sha256(secret), verify(secret, now), now, answer)
      ensures RecentlyTrue(verify, secret, answer, now)
    {
      Advance(now);
      DigestAnswerIsRecent(verifyCache, verify, secret, now);
      AskIsHonest(verifyCache, ByDigest(), Sha256(secret), now, now);
      AskLooksUp(verifyCache, ByDigest(), Sha256(secret), now);
      answer := Lookup(Sha256(secret), now);
    }

    /** The verify cache looked up by hash, on a miss through the backend. */
    method Lookup(d: Digest, now: real) returns (answer: Answer)
      modifies this`verifyCache
      ensures
        var asked := Ask(old(verifyCache), ByDigest(), d, now);
        answer == asked.answer && verifyCache == asked.cache
    {
      if d in verifyCache {
        if now < verifyCache[d].expiresAt {
          return Ok(Some(verifyCache[d].value));
        }
        verifyCache := verifyCache - {d};
      }
      assert old(verifyCache) - {d} == verifyCache;
      answer := Meaning(verify(d.of, now));
      if answer.Ok? && answer.value.Some? {
        verifyCache := verifyCache[d := Entry(now + CACHE_TTL, answer.value.value)];
      }
    }

    method CheckApiKeyId(id: KeyId, now: real) returns (answer: Answer)
      requires Valid() && clock <= now
      modifies this`checkCache, this`clock
      ensures Valid() && clock == now
      ensures var asked := Ask(old(checkCache), check, id, now); answer == asked.answer && checkCache == asked.cache
      ensures LooksUp(old(checkCache), checkCache, id, check(id, now), now, answer)
      ensures RecentlyTrue(check, id, answer, now)
    {
      Advance(now);
      AskIsHonest(checkCache, check, id, now, now);
      AskLooksUp(checkCache, check, id, now);
      AnswerIsRecent(checkCache, check, id, now, now);
      answer := LookupById(id, now);
    }

    method LookupById(id: KeyId, now: real) returns (answer: Answer)
      modifies this`checkCache
      ensures var asked := Ask(old(checkCache), check, id, now); answer == asked.answer && checkCache == asked.cache
    {
      if id in checkCache && checkCache[id].expiresAt > now {
        return Ok(Some(checkCache[id].value));
      }
      checkCache := checkCache - {id};
      answer := Meaning(check(id, now));
      if answer.Ok? && answer.value.Some? {
        checkCache := checkCache[id := Entry(now + CACHE_TTL, answer.value.value)];
        assert checkCache == old(checkCache)[id := checkCache[id]];
      }
    }

    /** Limited exactly when the address failed that often in the last minute without a success since. */
    method IsRateLimited(ip: Address, now: real) returns (limited: bool)
      requires Valid() && clock <= now
      modifies this`failed, this`clock
      ensures Valid() && clock == now
      ensures limited <==> |Within(Of(failures, ip), now, 60.0)| >= 20
    {
      Advance(now);
      var recent := Within(Of(failed, ip), now, RATE_WINDOW);
      var pruned := if recent == [] then failed - {ip} else failed[ip := recent];
      PruningRemembers(failed, pruned, failures, now, RATE_WINDOW);
      failed := pruned;
      limited := |recent| >= RATE_LIMIT;
    }

    method RecordFailure(ip: Address, now: real)
      requires Valid() && clock <= now
      modifies this`failed, this`failures, this`clock
      ensures Valid() && clock == now
      ensures failures == old(failures)[ip := Of(old(failures), ip) + [now]]
    {
      Advance(now);
      AddingRemembers(failed, failures, ip, now, RATE_WINDOW);
      failed := failed[ip := Of(failed, ip) + [now]];
      failures := failures[ip := Of(failures, ip) + [now]];
    }

    method ClearFailures(ip: Address)
      requires Valid()
      modifies this`failed, this`failures
      ensures Valid()
      ensures failures == old(failures) - {ip}
    {
      forall a: Address
        ensures Within(Of(failed - {ip}, a), clock, RATE_WINDOW) == Within(Of(failures - {ip}, a), clock, RATE_WINDOW)
      {
        assert Within(Of(failed, a), clock, RATE_WINDOW) == Within(Of(failures, a), clock, RATE_WINDOW);
      }
      failed, failures := failed - {ip}, failures - {ip};
    }

    /**
     * A bearer key on a tool call. An outage turns the call away but is not held against the address;
     * any good key, a reader's too, wipes the address's failures, though a reader's opens no tool.
     */
    method VerifyToken(secret: Secret, ip: Address, now: real) returns (who: Option<Identity>, scopes: seq<string>)
      requires Valid() && clock <= now
      modifies this
      ensures Valid() && clock == now
      ensures
        var d, r := Sha256(secret), verify(secret, now);
        var limited := |Within(Of(old(failures), ip), now, 60.0)| >= 20;
        var kept := d in old(verifyCache) && now < old(verifyCache)[d].expiresAt;
        && (limited || kept ==> verifyCache == old(verifyCache))
        && (limited ==> who == None && failures == old(failures))
        && (!limited && kept ==> who == Some(old(verifyCache)[d].value) && failures == old(failures) - {ip})
        && (!limited && !kept ==>
              if r.Response? && r.status == 200 && r.body.Some? then
                && who == r.body && failures == old(failures) - {ip}
                && verifyCache == old(verifyCache)[d := Entry(now + 60.0, r.body.value)]
              else
                && who == None && verifyCache == old(verifyCache) - {d}
                && failures ==
                  if r.NoResponse? || r.status == 404 || r.status >= 500 then old(failures)
                  else old(failures)[ip := Of(old(failures), ip) + [now]])
      ensures who.Some? ==>
        && RecentlyTrue(verify, secret, Ok(who), now)
        && forall s :: s in scopes <==> s == who.value.role || (s == "editor" && who.value.role == "admin")
      ensures who.None? ==> scopes == []
    {
      var limited := IsRateLimited(ip, now);
      if limited {
        return None, [];
      }
      var answer := VerifyApiKey(secret, now);
      if answer.Err? {
        return None, [];
      }
      if answer.value.None? {
        RecordFailure(ip, now);
        return None, [];
      }
      ClearFailures(ip);
      who := answer.value;
      scopes := if who.value.role == "admin" then ["admin", "editor"] else [who.value.role];
    }
  }
}
