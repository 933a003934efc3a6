/** Sequence helpers shared by the scripts: distinctness, JavaScript's
    `[...new Set(xs)]` (distinct values in first-occurrence order), sums and
    occurrence counts. */
module Seqs {

  /** No value occurs twice. */
  predicate Distinct<T(==)>(s: seq<T>) {
    forall i, j :: 0 <= i < j < |s| ==> s[i] != s[j]
  }

  /** The position of the first occurrence of `x` in `s`. */
  function FirstIndex<T(==)>(s: seq<T>, x: T): (r: nat)
    requires x in s
    ensures r < |s| && s[r] == x && x !in s[..r]
  {
    if s[0] == x then 0 else 1 + FirstIndex(s[1..], x)
  }

  /** Appending never moves a first occurrence that already existed. */
  lemma {:induction false} FirstIndexAppend<T>(s: seq<T>, t: seq<T>, x: T)
    requires x in s
    ensures FirstIndex(s + t, x) == FirstIndex(s, x)
  {
    if s[0] != x {
      assert (s + t)[1..] == s[1..] + t;
      FirstIndexAppend(s[1..], t, x);
    }
  }

  /** The distinct values of `s` in the order of their first occurrence, as
      `[...new Set(s)]` and `Array.from(set)` give them. */
  function Dedup<T(==,!new)>(s: seq<T>): (r: seq<T>)
    ensures Distinct(r)
    ensures forall x :: x in r <==> x in s
    ensures forall i, j :: 0 <= i < j < |r| ==> FirstIndex(s, r[i]) < FirstIndex(s, r[j])
  {
    if s == [] then []
    else
      var init, last := s[..|s| - 1], s[|s| - 1];
      assert s == init + [last];
      var d := Dedup(init);
      forall x | x in init ensures FirstIndex(s, x) == FirstIndex(init, x) {
        FirstIndexAppend(init, [last], x);
      }
      if last in d then d
      else
        assert FirstIndex(s, last) == |s| - 1 by {
          assert last !in s[..|s| - 1];
        }
        d + [last]
  }

  /** The number of occurrences of `x` in `s`. */
  function Occurrences<T(==)>(s: seq<T>, x: T): nat {
    if s == [] then 0
    else Occurrences(s[..|s| - 1], x) + (if s[|s| - 1] == x then 1 else 0)
  }

  lemma {:induction false} OccurrencesPositive<T>(s: seq<T>, x: T)
    ensures Occurrences(s, x) > 0 <==> x in s
  {
    if s != [] {
      OccurrencesPositive(s[..|s| - 1], x);
      assert s == s[..|s| - 1] + [s[|s| - 1]];
    }
  }

  lemma {:induction false} OccurrencesAppend<T>(s: seq<T>, t: seq<T>, x: T)
    ensures Occurrences(s + t, x) == Occurrences(s, x) + Occurrences(t, x)
    decreases |t|
  {
    if t == [] {
      assert s + t == s;
    } else {
      assert (s + t)[..|s + t| - 1] == s + t[..|t| - 1];
      OccurrencesAppend(s, t[..|t| - 1], x);
    }
  }

  /** The sum of a sequence of integers. */
  function Sum(s: seq<int>): int {
    if s == [] then 0 else Sum(s[..|s| - 1]) + s[|s| - 1]
  }

  lemma {:induction false} SumAppend(s: seq<int>, t: seq<int>)
    ensures Sum(s + t) == Sum(s) + Sum(t)
    decreases |t|
  {
    if t == [] {
      assert s + t == s;
    } else {
      assert (s + t)[..|s + t| - 1] == s + t[..|t| - 1];
      SumAppend(s, t[..|t| - 1]);
    }
  }

  /** The sum over `keys` of how often each key occurs in `s`. */
  function OccurrenceSum<T(==)>(keys: seq<T>, s: seq<T>): nat {
    if keys == [] then 0
    else OccurrenceSum(keys[..|keys| - 1], s) + Occurrences(s, keys[|keys| - 1])
  }

  /** The occurrences of the values of a duplicate-free `keys` that covers
      every value of `s` add up to the length of `s`: counting per key loses
      and duplicates nothing. */
  lemma {:induction false} OccurrenceSumCovers<T>(keys: seq<T>, s: seq<T>)
    requires Distinct(keys)
    requires forall x :: x in s ==> x in keys
    ensures OccurrenceSum(keys, s) == |s|
    decreases |s|
  {
    if s != [] {
      var init, last := s[..|s| - 1], s[|s| - 1];
      assert s == init + [last];
      assert last in s;
      OccurrenceSumCovers(keys, init);
      OccurrenceSumSnoc(keys, init, last);
      OccurrencesOfDistinct(keys, last);
    } else {
      OccurrenceSumEmpty(keys);
    }
  }

  lemma {:induction false} OccurrenceSumEmpty<T>(keys: seq<T>)
    ensures OccurrenceSum(keys, []) == 0
  {
    if keys != [] {
      OccurrenceSumEmpty(keys[..|keys| - 1]);
    }
  }

  lemma {:induction false} OccurrenceSumSnoc<T>(keys: seq<T>, s: seq<T>, x: T)
    ensures OccurrenceSum(keys, s + [x]) == OccurrenceSum(keys, s) + Occurrences(keys, x)
    decreases |keys|
  {
    if keys != [] {
      var init := keys[..|keys| - 1];
      OccurrenceSumSnoc(init, s, x);
      assert (s + [x])[..|s + [x]| - 1] == s;
    }
  }

  lemma {:induction false} OccurrencesOfDistinct<T>(keys: seq<T>, x: T)
    requires Distinct(keys) && x in keys
    ensures Occurrences(keys, x) == 1
    decreases |keys|
  {
    var init, last := keys[..|keys| - 1], keys[|keys| - 1];
    assert keys == init + [last];
    if last == x {
      assert x !in init;
      OccurrencesPositive(init, x);
    } else {
      OccurrencesOfDistinct(init, x);
    }
  }

  /** How often each key occurs in `s`, key by key. */
  function CountsOf<T(==)>(keys: seq<T>, s: seq<T>): seq<nat> {
    seq(|keys|, k requires 0 <= k < |keys| => Occurrences(s, keys[k]))
  }

  lemma {:induction false} SumCountsOf<T>(keys: seq<T>, s: seq<T>)
    ensures Sum(CountsOf(keys, s)) == OccurrenceSum(keys, s)
    decreases |keys|
  {
    if keys != [] {
      var init := keys[..|keys| - 1];
      SumCountsOf(init, s);
      assert CountsOf(keys, s)[..|keys| - 1] == CountsOf(init, s);
    }
  }

  /** Per-key counts over a duplicate-free key list that covers `s` add up to
      the length of `s`. */
  lemma CountsOfCover<T>(keys: seq<T>, s: seq<T>)
    requires Distinct(keys)
    requires forall x :: x in s ==> x in keys
    ensures Sum(CountsOf(keys, s)) == |s|
  {
    SumCountsOf(keys, s);
    OccurrenceSumCovers(keys, s);
  }

  /** A dictionary of counts with one more occurrence of `x`:
      `counts[x] = (counts[x] || 0) + 1`. */
  function Counted1<T>(counts: map<T, nat>, x: T): map<T, nat> {
    counts[x := (if x in counts then counts[x] else 0) + 1]
  }

  /** The dictionary that counting the values of `s` one by one builds. */
  function Tally<T>(s: seq<T>): map<T, nat> {
    if s == [] then map[] else Counted1(Tally(s[..|s| - 1]), s[|s| - 1])
  }

  /** The dictionary has a key for each value seen, mapped to the number of
      times it was seen. */
  lemma {:induction false} TallyCounts<T>(s: seq<T>)
    ensures forall x :: x in Tally(s) <==> x in s
    ensures forall x :: x in Tally(s) ==> Tally(s)[x] == Occurrences(s, x)
  {
    if s != [] {
      var init, last := s[..|s| - 1], s[|s| - 1];
      TallyCounts(init);
      assert s == init + [last];
      forall x | x in Tally(s)
        ensures Tally(s)[x] == Occurrences(s, x)
      {
        if x == last {
          OccurrencesPositive(init, x);
        }
      }
    }
  }
}
