/** The limit on client registrations (mcp_server/oauth_provider.py, _RegistrationRateLimit). */
module RegistrationLimit {
  import opened SlidingWindow

  const LIMIT := 10
  const WINDOW := 3600.0

  /** Each registration came when fewer than the limit had been accepted in the window before it. */
  ghost predicate Limited(times: seq<real>) {
    times == [] ||
      (var earlier, last := times[..|times| - 1], times[|times| - 1];
       && Limited(earlier)
       && (forall i :: 0 <= i < |earlier| ==> earlier[i] <= last)
       && |Within(earlier, last, WINDOW)| < LIMIT)
  }

  /** The times in one window, wherever it starts. */
  ghost function InWindow(times: seq<real>, start: real): seq<real> {
    if times == [] then []
    else
      InWindow(times[..|times| - 1], start)
      + (if start <= times[|times| - 1] < start + WINDOW then [times[|times| - 1]] else [])
  }

  lemma {:induction false} InWindowCount(times: seq<real>, start: real)
    ensures |InWindow(times, start)| == |set i | 0 <= i < |times| && start <= times[i] < start + 3600.0|
  {
    if times != [] {
      var n := |times| - 1;
      InWindowCount(times[..n], start);
      var before := set i | 0 <= i < n && start <= times[..n][i] < start + 3600.0;
      assert (set i | 0 <= i < |times| && start <= times[i] < start + 3600.0) ==
        if start <= times[n] < start + 3600.0 then before + {n} else before;
    }
  }

  lemma {:induction false} WindowIsWithin(times: seq<real>, start: real, now: real)
    requires now < start + WINDOW
    ensures |InWindow(times, start)| <= |Within(times, now, WINDOW)|
  {
    if times != [] {
      WindowIsWithin(times[..|times| - 1], start, now);
    }
  }

  /** No hour, wherever it starts, holds more than ten accepted registrations. */
  lemma NoWindowExceedsLimit(times: seq<real>, start: real)
    requires Limited(times)
    ensures |set i | 0 <= i < |times| && start <= times[i] < start + 3600.0| <= 10
  {
    InWindowCount(times, start);
    InWindowIsLimited(times, start);
  }

  lemma {:induction false} InWindowIsLimited(times: seq<real>, start: real)
    requires Limited(times)
    ensures |InWindow(times, start)| <= LIMIT
  {
    if times != [] {
      var earlier, last := times[..|times| - 1], times[|times| - 1];
      InWindowIsLimited(earlier, start);
      if start <= last < start + WINDOW {
        WindowIsWithin(earlier, start, last);
      }
    }
  }

  /** Every address has kept to the limit, and nothing lies in the future. */
  ghost predicate AllLimited(accepted: map<Address, seq<real>>, now: real) {
    forall a :: a in accepted ==> Limited(accepted[a]) && UpTo(accepted[a], now)
  }

  ghost predicate UpTo(times: seq<real>, now: real) {
    forall i :: 0 <= i < |times| ==> times[i] <= now
  }

  lemma UpToLater(times: seq<real>, now: real, later: real)
    requires UpTo(times, now) && now <= later
    ensures UpTo(times, later)
  {}

  /** One more registration, come when there was room and after all others. */
  lemma StaysLimited(times: seq<real>, now: real)
    requires Limited(times) && UpTo(times, now) && |Within(times, now, WINDOW)| < LIMIT
    ensures Limited(times + [now]) && UpTo(times + [now], now)
  {
    assert (times + [now])[..|times|] == times;
  }

  lemma AllStayLimited(accepted: map<Address, seq<real>>, before: real, ip: Address, now: real)
    requires AllLimited(accepted, before) && before <= now
    ensures AllLimited(accepted, now)
    ensures |Within(Of(accepted, ip), now, WINDOW)| < LIMIT ==>
      AllLimited(accepted[ip := Of(accepted, ip) + [now]], now)
  {
    forall a | a in accepted ensures UpTo(accepted[a], now) {
      UpToLater(accepted[a], before, now);
    }
    if |Within(Of(accepted, ip), now, WINDOW)| < LIMIT {
      StaysLimited(Of(accepted, ip), now);
    }
  }

  /** Every list without its old times; an address with none left is forgotten. */
  function Pruned(seen: map<Address, seq<real>>, now: real): map<Address, seq<real>> {
    map a | a in seen && Within(seen[a], now, WINDOW) != [] :: Within(seen[a], now, WINDOW)
  }

  lemma PrunedList(seen: map<Address, seq<real>>, now: real, a: Address)
    ensures Of(Pruned(seen, now), a) == Within(Of(seen, a), now, WINDOW)
  {}

  lemma PrunedRemembers(seen: map<Address, seq<real>>, accepted: map<Address, seq<real>>, before: real, now: real)
    requires Remembers(seen, accepted, before, WINDOW) && before <= now
    ensures Remembers(Pruned(seen, now), accepted, now, WINDOW)
  {
    RemembersLater(seen, accepted, before, now, WINDOW);
    forall a: Address ensures Of(Pruned(seen, now), a) == Within(Of(seen, a), now, WINDOW) {
      PrunedList(seen, now, a);
    }
    PruningRemembers(seen, Pruned(seen, now), accepted, now, WINDOW);
  }

  /** What is kept of an address after pruning is all that counts against it. */
  lemma PrunedIsRecent(
      seen: map<Address, seq<real>>, accepted: map<Address, seq<real>>, before: real, now: real, a: Address)
    requires Remembers(seen, accepted, before, WINDOW) && before <= now
    ensures Of(Pruned(seen, now), a) == Within(Of(accepted, a), now, WINDOW)
  {
    RemembersLater(seen, accepted, before, now, WINDOW);
    PrunedList(seen, now, a);
    assert Within(Of(seen, a), now, WINDOW) == Within(Of(accepted, a), now, WINDOW);
  }

  class RegistrationRateLimit {
    var seen: map<Address, seq<real>>

    /** Every registration accepted so far, never pruned. */
    ghost var accepted: map<Address, seq<real>>
    ghost var clock: real

    ghost predicate Valid()
      reads this
    {
      Remembers(seen, accepted, clock, WINDOW) && AllLimited(accepted, clock)
    }

    constructor (now: real)
      ensures Valid() && clock == now && accepted == map[]
    {
      seen, accepted, clock := map[], map[], now;
    }

    /** Refuses exactly when the address already had ten accepted in the hour just past. */
    method Admit(ip: Address, now: real) returns (admitted: bool)
      requires Valid() && clock <= now
      modifies this
      ensures Valid() && clock == now
      ensures admitted <==> |Within(Of(old(accepted), ip), now, 3600.0)| < 10
      ensures accepted == if admitted then old(accepted)[ip := Of(old(accepted), ip) + [now]] else old(accepted)
    {
      PrunedRemembers(seen, accepted, clock, now);
      PrunedIsRecent(seen, accepted, clock, now, ip);
      AllStayLimited(accepted, clock, ip, now);
      clock := now;
      seen := Pruned(seen, now);
      var recent := Of(seen, ip);
      if |recent| >= LIMIT {
        return false;
      }
      AddingRemembers(seen, accepted, ip, now, WINDOW);
      seen := seen[ip := recent + [now]];
      accepted := accepted[ip := Of(accepted, ip) + [now]];
      admitted := true;
    }
  }
}
