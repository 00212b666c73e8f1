/** Ascending sorts of planet lists on one numeric key, as the service does
    with `sort.Slice`. That sort is not stable and its algorithm is not part
    of its promise, so clients may only rely on the result being SOME sorted
    permutation of the input; insertion sort is one such permutation. */
module Sorting {
  import opened Models

  /** The key a list is ordered on. */
  datatype SortKey = ByRadius | ByMass

  /** The value of the key for one planet. */
  function KeyOf(k: SortKey, p: Planet): real {
    match k
    case ByRadius => p.radius
    case ByMass => p.mass
  }

  /** The list is nondecreasing on the key. */
  predicate SortedBy(s: seq<Planet>, k: SortKey) {
    forall i, j :: 0 <= i < j < |s| ==> KeyOf(k, s[i]) <= KeyOf(k, s[j])
  }

  /** The sequence of key values along a list. */
  function Keys(s: seq<Planet>, k: SortKey): seq<real> {
    if |s| == 0 then [] else [KeyOf(k, s[0])] + Keys(s[1..], k)
  }

  /** The key sequence has one entry per planet, holding that planet's key. */
  lemma {:induction false} KeysAt(s: seq<Planet>, k: SortKey)
    ensures |Keys(s, k)| == |s|
    ensures forall i :: 0 <= i < |s| ==> Keys(s, k)[i] == KeyOf(k, s[i])
  {
    if |s| > 0 {
      KeysAt(s[1..], k);
    }
  }

  /** Putting a planet whose key bounds a sorted list from below in front of it keeps it sorted. */
  lemma SortedCons(h: Planet, t: seq<Planet>, k: SortKey)
    requires SortedBy(t, k)
    requires forall y :: y in t ==> KeyOf(k, h) <= KeyOf(k, y)
    ensures SortedBy([h] + t, k)
  {
  }

  /** Places `x` into an ordered list, keeping it ordered and losing nothing. */
  function InsertSorted(x: Planet, s: seq<Planet>, k: SortKey): (r: seq<Planet>)
    requires SortedBy(s, k)
    ensures SortedBy(r, k)
    ensures multiset(r) == multiset(s) + multiset{x}
    decreases |s|
  {
    if |s| == 0 then [x]
    else if KeyOf(k, x) <= KeyOf(k, s[0]) then
      SortedCons(x, s, k);
      [x] + s
    else
      var t := InsertSorted(x, s[1..], k);
      assert s == [s[0]] + s[1..];
      assert forall y :: y in t ==> KeyOf(k, s[0]) <= KeyOf(k, y) by {
        forall y | y in t
          ensures KeyOf(k, s[0]) <= KeyOf(k, y)
        {
          assert y in multiset(t);
          if y != x {
            assert y in multiset(s[1..]);
            var i :| 0 <= i < |s[1..]| && s[1..][i] == y;
            assert s[i + 1] == y;
          }
        }
      }
      SortedCons(s[0], t, k);
      [s[0]] + t
  }

  /** A permutation of `s` that is nondecreasing on the key. */
  function SortBy(s: seq<Planet>, k: SortKey): (r: seq<Planet>)
    ensures SortedBy(r, k)
    ensures multiset(r) == multiset(s)
    decreases |s|
  {
    if |s| == 0 then []
    else
      assert s == [s[0]] + s[1..];
      InsertSorted(s[0], SortBy(s[1..], k), k)
  }

  /** Keys distribute over concatenation. */
  lemma {:induction false} KeysAppend(s: seq<Planet>, t: seq<Planet>, k: SortKey)
    ensures Keys(s + t, k) == Keys(s, k) + Keys(t, k)
  {
    if |s| > 0 {
      assert (s + t)[1..] == s[1..] + t;
      KeysAppend(s[1..], t, k);
    } else {
      assert s + t == t;
    }
  }

  /** Removing the element at `j` removes one occurrence of it. */
  lemma MultisetRemoveAt(b: seq<Planet>, j: int)
    requires 0 <= j < |b|
    ensures multiset(b[..j] + b[j+1..]) == multiset(b) - multiset{b[j]}
  {
    assert b == b[..j] + [b[j]] + b[j+1..];
  }

  /** Taking the planet at `j` out of a list takes its key out of the key values. */
  lemma KeysRemoveAt(b: seq<Planet>, j: int, k: SortKey)
    requires 0 <= j < |b|
    ensures multiset(Keys(b, k)) == multiset{KeyOf(k, b[j])} + multiset(Keys(b[..j] + b[j+1..], k))
  {
    var front, back := b[..j], b[j+1..];
    assert b == front + ([b[j]] + back);
    KeysAppend(front, [b[j]] + back, k);
    KeysAppend([b[j]], back, k);
    KeysAppend(front, back, k);
  }

  /** Lists with the same elements have the same key values, counted with multiplicity. */
  lemma {:induction false} KeysPermute(a: seq<Planet>, b: seq<Planet>, k: SortKey)
    requires multiset(a) == multiset(b)
    ensures multiset(Keys(a, k)) == multiset(Keys(b, k))
    decreases |a|
  {
    if |a| == 0 {
      assert |b| == |multiset(b)| == 0;
    } else {
      assert a[0] in multiset(b);
      var j :| 0 <= j < |b| && b[j] == a[0];
      var a', b' := a[..0] + a[1..], b[..j] + b[j+1..];
      assert multiset(a') == multiset(b') by {
        MultisetRemoveAt(a, 0);
        MultisetRemoveAt(b, j);
      }
      KeysPermute(a', b', k);
      KeysPermuteStep(a, b, j, k);
    }
  }

  /** The inductive step of `KeysPermute`: equal key values after taking out
      one occurrence of the same planet give equal key values before. */
  lemma KeysPermuteStep(a: seq<Planet>, b: seq<Planet>, j: int, k: SortKey)
    requires 0 < |a| && 0 <= j < |b| && b[j] == a[0]
    requires multiset(Keys(a[..0] + a[1..], k)) == multiset(Keys(b[..j] + b[j+1..], k))
    ensures multiset(Keys(a, k)) == multiset(Keys(b, k))
  {
    KeysRemoveAt(a, 0, k);
    KeysRemoveAt(b, j, k);
  }

  /** Dropping the head of a sequence drops one occurrence of it. */
  lemma MultisetDropHead<T>(x: seq<T>)
    requires |x| > 0
    ensures multiset(x[1..]) == multiset(x) - multiset{x[0]}
  {
    assert x == [x[0]] + x[1..];
  }

  /** A sequence of reals is nondecreasing. */
  predicate Ascending(s: seq<real>) {
    forall i, j :: 0 <= i < j < |s| ==> s[i] <= s[j]
  }

  /** The head of a nondecreasing sequence is its least value. */
  lemma AscendingHeadLeast(x: seq<real>, v: real)
    requires Ascending(x) && v in multiset(x)
    ensures |x| > 0 && x[0] <= v
  {
  }

  /** Two nondecreasing sequences holding the same values have the same
      length, the same head and the same values after it. */
  lemma AscendingSameHead(x: seq<real>, y: seq<real>)
    requires Ascending(x) && Ascending(y)
    requires multiset(x) == multiset(y)
    ensures |x| == |y|
    ensures |x| > 0 ==> x[0] == y[0] && multiset(x[1..]) == multiset(y[1..])
  {
    assert |x| == |multiset(x)| == |multiset(y)| == |y|;
    if |x| > 0 {
      AscendingHeadLeast(x, y[0]);
      AscendingHeadLeast(y, x[0]);
      MultisetDropHead(x);
      MultisetDropHead(y);
    }
  }

  /** Two nondecreasing sequences holding the same values are equal. */
  lemma {:induction false} AscendingUnique(x: seq<real>, y: seq<real>)
    requires Ascending(x) && Ascending(y)
    requires multiset(x) == multiset(y)
    ensures x == y
    decreases |x|
  {
    AscendingSameHead(x, y);
    if |x| > 0 {
      AscendingUnique(x[1..], y[1..]);
      assert x == [x[0]] + x[1..];
      assert y == [y[0]] + y[1..];
    }
  }

  /** Any two orderings of the same planets that are both sorted on a key
      agree on the key at every position: an unstable sort may reorder
      planets with equal keys, and nothing else. */
  lemma SortedKeysDetermined(a: seq<Planet>, b: seq<Planet>, k: SortKey)
    requires SortedBy(a, k) && SortedBy(b, k)
    requires multiset(a) == multiset(b)
    ensures Keys(a, k) == Keys(b, k)
  {
    KeysPermute(a, b, k);
    KeysAt(a, k);
    KeysAt(b, k);
    AscendingUnique(Keys(a, k), Keys(b, k));
  }
}
