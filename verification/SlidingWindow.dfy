/** Events of the last so many seconds, for the limiters that keep a list of times per address and prune it. */
module SlidingWindow {
  type Address = string

  /** The times less than this many seconds before now. */
  function Within(times: seq<real>, now: real, span: real): seq<real> {
    if times == [] then []
    else
      var n := |times| - 1;
      Within(times[..n], now, span) + if now - times[n] < span then [times[n]] else []
  }

  /** Exactly the times of the last so many seconds count, each as often as it was. */
  lemma {:induction false} WithinAre(times: seq<real>, now: real, span: real)
    ensures |Within(times, now, span)| == |set i | 0 <= i < |times| && now - times[i] < span|
    ensures forall t :: t in Within(times, now, span) <==> t in times && now - t < span
  {
    if times != [] {
      var n := |times| - 1;
      WithinAre(times[..n], now, span);
      var before := set i | 0 <= i < n && now - times[..n][i] < span;
      assert (set i | 0 <= i < |times| && now - times[i] < span) ==
        if now - times[n] < span then before + {n} else before;
      assert times == times[..n] + [times[n]];
    }
  }

  /** An address never seen has an empty list. */
  function Of(buckets: map<Address, seq<real>>, a: Address): seq<real> {
    if a in buckets then buckets[a] else []
  }

  /** Each address has its own list: the one written for it last, whatever is written for others. */
  lemma OneBucket(buckets: map<Address, seq<real>>, a: Address, times: seq<real>, b: Address)
    ensures Of(buckets[a := times], b) == if b == a then times else Of(buckets, b)
    ensures Of(buckets - {a}, b) == if b == a then [] else Of(buckets, b)
    ensures Of(map[], b) == []
  {}

  lemma {:induction false} WithinLater(times: seq<real>, now: real, later: real, span: real)
    requires now <= later
    ensures Within(Within(times, now, span), later, span) == Within(times, later, span)
  {
    if times != [] {
      WithinLater(times[..|times| - 1], now, later, span);
      var last := times[|times| - 1];
      if now - last < span {
        var kept := Within(times[..|times| - 1], now, span);
        assert (kept + [last])[..|kept|] == kept;
      } else {
        assert Within(times, now, span) == Within(times[..|times| - 1], now, span);
      }
    }
  }

  lemma WithinOneMore(times: seq<real>, t: real, now: real, span: real)
    requires now - t < span
    ensures Within(times + [t], now, span) == Within(times, now, span) + [t]
  {
    assert (times + [t])[..|times|] == times;
  }

  lemma {:induction false} WithinShrinks(times: seq<real>, now: real, span: real)
    ensures |Within(times, now, span)| <= |times|
  {
    if times != [] {
      WithinShrinks(times[..|times| - 1], now, span);
    }
  }

  /** A list of times whose pruned form answers for the whole history. */
  ghost predicate Remembers(kept: map<Address, seq<real>>, history: map<Address, seq<real>>, now: real, span: real) {
    forall a: Address :: Within(Of(kept, a), now, span) == Within(Of(history, a), now, span)
  }

  lemma RemembersLater(
      kept: map<Address, seq<real>>, history: map<Address, seq<real>>, now: real, later: real, span: real)
    requires Remembers(kept, history, now, span) && now <= later
    ensures Remembers(kept, history, later, span)
  {
    forall a: Address ensures Within(Of(kept, a), later, span) == Within(Of(history, a), later, span) {
      WithinLater(Of(kept, a), now, later, span);
      WithinLater(Of(history, a), now, later, span);
    }
  }

  /** Pruning any of the lists loses nothing that still counts. */
  lemma PruningRemembers(
      kept: map<Address, seq<real>>, pruned: map<Address, seq<real>>, history: map<Address, seq<real>>,
      now: real, span: real)
    requires Remembers(kept, history, now, span)
    requires forall a: Address :: Of(pruned, a) == Of(kept, a) || Of(pruned, a) == Within(Of(kept, a), now, span)
    ensures Remembers(pruned, history, now, span)
  {
    forall a: Address ensures Within(Of(pruned, a), now, span) == Within(Of(history, a), now, span) {
      WithinLater(Of(kept, a), now, now, span);
    }
  }

  lemma AddingRemembers(
      kept: map<Address, seq<real>>, history: map<Address, seq<real>>, a: Address, now: real, span: real)
    requires Remembers(kept, history, now, span) && 0.0 < span
    ensures Remembers(kept[a := Of(kept, a) + [now]], history[a := Of(history, a) + [now]], now, span)
  {
    var more, longer := kept[a := Of(kept, a) + [now]], history[a := Of(history, a) + [now]];
    forall b: Address ensures Within(Of(more, b), now, span) == Within(Of(longer, b), now, span) {
      if b == a {
        WithinOneMore(Of(kept, a), now, now, span);
        WithinOneMore(Of(history, a), now, now, span);
      } else {
        assert Of(more, b) == Of(kept, b) && Of(longer, b) == Of(history, b);
      }
    }
  }
}
