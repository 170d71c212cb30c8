/** Sums of a real-valued measure over sequences, and over sequences of buckets. */
module Sums {

  function Sum<T>(f: T -> real, s: seq<T>): real {
    if s == [] then 0.0 else f(s[0]) + Sum(f, s[1..])
  }

  /** All the elements of all the buckets, bucket by bucket. */
  function Flat<T>(buckets: seq<seq<T>>): seq<T> {
    if buckets == [] then [] else buckets[0] + Flat(buckets[1..])
  }

  lemma {:induction false} SumAppend<T>(f: T -> real, s: seq<T>, t: seq<T>)
    ensures Sum(f, s + t) == Sum(f, s) + Sum(f, t)
  {
    if s == [] {
      assert s + t == t;
    } else {
      assert (s + t)[1..] == s[1..] + t;
      SumAppend(f, s[1..], t);
    }
  }

  lemma {:induction false} SumNonNegative<T>(f: T -> real, s: seq<T>)
    requires forall x <- s :: f(x) >= 0.0
    ensures Sum(f, s) >= 0.0
  {
    if s != [] {
      SumNonNegative(f, s[1..]);
    }
  }

  lemma {:induction false} SumMonotone<T>(f: T -> real, g: T -> real, s: seq<T>)
    requires forall x <- s :: f(x) <= g(x)
    ensures Sum(f, s) <= Sum(g, s)
  {
    if s != [] {
      SumMonotone(f, g, s[1..]);
    }
  }

  /** One element out: the sum splits into that element and the rest. */
  lemma SumRemove<T>(f: T -> real, s: seq<T>, k: nat)
    requires k < |s|
    ensures Sum(f, s) == f(s[k]) + Sum(f, s[..k] + s[k + 1..])
  {
    assert s == s[..k] + ([s[k]] + s[k + 1..]);
    SumAppend(f, s[..k], [s[k]] + s[k + 1..]);
    SumAppend(f, s[..k], s[k + 1..]);
  }

  /** A sum of a non-negative measure over part of a collection is at most the whole sum. */
  lemma {:induction false} SumOfPart<T>(f: T -> real, part: seq<T>, whole: seq<T>)
    requires multiset(part) <= multiset(whole)
    requires forall x <- whole :: f(x) >= 0.0
    ensures Sum(f, part) <= Sum(f, whole)
    ensures multiset(part) == multiset(whole) ==> Sum(f, part) == Sum(f, whole)
    decreases |part|
  {
    if part == [] {
      SumNonNegative(f, whole);
      if multiset(part) == multiset(whole) {
        assert |multiset(whole)| == 0;
        assert |whole| == 0;
      }
    } else {
      var k, rest := TakeOne(part, whole);
      SumRemove(f, whole, k);
      SumOfPart(f, part[1..], rest);
    }
  }

  /** The sum over all buckets is the sum of the buckets' sums. */
  function SumOver<T>(f: T -> real, buckets: seq<seq<T>>): real {
    if buckets == [] then 0.0 else Sum(f, buckets[0]) + SumOver(f, buckets[1..])
  }

  lemma {:induction false} SumFlat<T>(f: T -> real, buckets: seq<seq<T>>)
    ensures Sum(f, Flat(buckets)) == SumOver(f, buckets)
  {
    if buckets != [] {
      SumAppend(f, buckets[0], Flat(buckets[1..]));
      SumFlat(f, buckets[1..]);
    }
  }

  lemma {:induction false} InFlat<T>(buckets: seq<seq<T>>, j: nat, x: T)
    requires j < |buckets| && x in buckets[j]
    ensures x in Flat(buckets)
  {
    if j > 0 {
      InFlat(buckets[1..], j - 1, x);
    }
  }

  lemma {:induction false} FromFlat<T>(buckets: seq<seq<T>>, x: T) returns (j: nat)
    requires x in Flat(buckets)
    ensures j < |buckets| && x in buckets[j]
  {
    if x in buckets[0] {
      j := 0;
    } else {
      var i := FromFlat(buckets[1..], x);
      j := i + 1;
    }
  }

  lemma AddToFirst<T>(first: seq<T>, rest: seq<T>, x: T)
    ensures multiset(first + [x] + rest) == multiset(first + rest) + multiset{x}
  {}

  /** Adding an element to one bucket adds exactly that element to the whole. */
  lemma {:induction false} FlatAdd<T>(buckets: seq<seq<T>>, j: nat, x: T)
    requires j < |buckets|
    ensures multiset(Flat(buckets[j := buckets[j] + [x]])) == multiset(Flat(buckets)) + multiset{x}
  {
    var after, rest := buckets[j := buckets[j] + [x]], buckets[1..];
    if j == 0 {
      AddToFirst(buckets[0], Flat(rest), x);
      assert after[1..] == rest;
    } else {
      FlatAdd(rest, j - 1, x);
      assert after[1..] == rest[j - 1 := rest[j - 1] + [x]];
    }
  }

  /** x added up n times; kept recursive so that bounds on sums stay linear. */
  function Times(n: nat, x: real): real {
    if n == 0 then 0.0 else x + Times(n - 1, x)
  }

  lemma {:induction false} TimesIsProduct(n: nat, x: real)
    ensures Times(n, x) == n as real * x
  {
    if n > 0 {
      TimesIsProduct(n - 1, x);
    }
  }

  lemma {:induction false} SumOverAtLeast<T>(f: T -> real, buckets: seq<seq<T>>, low: real)
    requires forall b <- buckets :: low <= Sum(f, b)
    ensures Times(|buckets|, low) <= SumOver(f, buckets)
  {
    if buckets != [] {
      SumOverAtLeast(f, buckets[1..], low);
    }
  }

  lemma {:induction false} SumOverAtMost<T>(f: T -> real, buckets: seq<seq<T>>, high: real)
    requires forall b <- buckets :: Sum(f, b) <= high
    ensures SumOver(f, buckets) <= Times(|buckets|, high)
  {
    if buckets != [] {
      SumOverAtMost(f, buckets[1..], high);
    }
  }

  lemma WithoutAt<T>(t: seq<T>, k: nat)
    requires k < |t|
    ensures multiset(t) == multiset(t[..k] + t[k + 1..]) + multiset{t[k]}
  {
    assert t == t[..k] + ([t[k]] + t[k + 1..]);
  }

  /** The first element of one sequence, found in another that has all its elements, and taken out of both. */
  lemma TakeOne<T>(s: seq<T>, t: seq<T>) returns (k: nat, rest: seq<T>)
    requires s != [] && multiset(s) <= multiset(t)
    ensures k < |t| && t[k] == s[0] && rest == t[..k] + t[k + 1..]
    ensures multiset(s[1..]) <= multiset(rest)
    ensures forall x <- rest :: x in t
    ensures multiset(s) == multiset(t) ==> multiset(s[1..]) == multiset(rest)
  {
    assert s[0] in multiset(s);
    assert s[0] in multiset(t);
    k :| 0 <= k < |t| && t[k] == s[0];
    rest := t[..k] + t[k + 1..];
    WithoutAt(t, k);
    WithoutAt(s, 0);
    assert s[..0] + s[1..] == s[1..];
    RemoveOne(multiset(s[1..]), multiset(rest), s[0]);
  }

  lemma RemoveOne<T>(a: multiset<T>, b: multiset<T>, x: T)
    requires a + multiset{x} <= b + multiset{x}
    ensures a <= b
    ensures a + multiset{x} == b + multiset{x} ==> a == b
  {
    assert (a + multiset{x}) - multiset{x} == a;
    assert (b + multiset{x}) - multiset{x} == b;
  }
}
