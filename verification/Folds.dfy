/** Weighted sums over sequences, and the few facts about them that several components need. */
module Folds {

  function Sum<T(!new)>(s: seq<T>, w: T -> int): int {
    if s == [] then 0 else Sum(s[..|s| - 1], w) + w(s[|s| - 1])
  }

  lemma {:induction false} SumConcat<T(!new)>(a: seq<T>, b: seq<T>, w: T -> int)
    ensures Sum(a + b, w) == Sum(a, w) + Sum(b, w)
  {
    if b == [] {
      assert a + b == a;
    } else {
      var k := |b| - 1;
      assert (a + b)[..|a + b| - 1] == a + b[..k];
      SumConcat(a, b[..k], w);
    }
  }

  lemma SumAppend<T(!new)>(s: seq<T>, x: T, w: T -> int)
    ensures Sum(s + [x], w) == Sum(s, w) + w(x)
  {
    assert (s + [x])[..|s|] == s;
  }

  /** Two weights that agree on the elements give the same sum. */
  lemma {:induction false} SumCongruent<T(!new)>(s: seq<T>, w: T -> int, v: T -> int)
    requires forall t :: t in s ==> w(t) == v(t)
    ensures Sum(s, w) == Sum(s, v)
  {
    if s != [] {
      assert s[|s| - 1] in s;
      SumCongruent(s[..|s| - 1], w, v);
    }
  }

  lemma {:induction false} SumAtLeast<T(!new)>(s: seq<T>, w: T -> int, v: T -> int)
    requires forall t :: t in s ==> w(t) <= v(t)
    ensures Sum(s, w) <= Sum(s, v)
  {
    if s != [] {
      assert s[|s| - 1] in s;
      SumAtLeast(s[..|s| - 1], w, v);
    }
  }

  lemma {:induction false} SumZero<T(!new)>(s: seq<T>, w: T -> int)
    requires forall t :: t in s ==> w(t) == 0
    ensures Sum(s, w) == 0
  {
    if s != [] {
      assert s[|s| - 1] in s;
      SumZero(s[..|s| - 1], w);
    }
  }

  lemma {:induction false} SumNonNegative<T(!new)>(s: seq<T>, w: T -> int)
    requires forall t :: t in s ==> w(t) >= 0
    ensures Sum(s, w) >= 0
  {
    if s != [] {
      assert s[|s| - 1] in s;
      SumNonNegative(s[..|s| - 1], w);
    }
  }

  lemma SumMiddle<T(!new)>(front: seq<T>, x: T, back: seq<T>, w: T -> int)
    ensures Sum(front + [x] + back, w) == Sum(front + back, w) + w(x)
  {
    SumConcat(front + [x], back, w);
    SumAppend(front, x, w);
    SumConcat(front, back, w);
  }

  lemma SplitAt<T>(s: seq<T>, i: nat)
    requires i < |s|
    ensures s[..i] + [s[i]] + s[i + 1..] == s
  {
  }

  /** Taking one element out of the middle lowers the sum by its weight. */
  lemma SumRemove<T(!new)>(s: seq<T>, i: nat, w: T -> int)
    requires i < |s|
    ensures Sum(s, w) == Sum(s[..i] + s[i + 1..], w) + w(s[i])
  {
    SplitAt(s, i);
    SumMiddle(s[..i], s[i], s[i + 1..], w);
  }

  /** A sum does not depend on the order of its terms. */
  lemma {:induction false} SumPermutation<T(!new)>(a: seq<T>, b: seq<T>, w: T -> int)
    requires multiset(a) == multiset(b)
    ensures Sum(a, w) == Sum(b, w)
    decreases |a|
  {
    if a == [] {
      assert |b| == |multiset(b)|;
    } else {
      var k := |a| - 1;
      var x := a[k];
      assert a == a[..k] + [x];
      assert x in multiset(b);
      var i :| 0 <= i < |b| && b[i] == x;
      assert b == b[..i] + [x] + b[i + 1..];
      var rest := b[..i] + b[i + 1..];
      assert multiset(a[..k]) == multiset(a) - multiset{x};
      assert multiset(rest) == multiset(b) - multiset{x};
      SumPermutation(a[..k], rest, w);
      SumRemove(b, i, w);
    }
  }

  // ----- sums over sets -----

  ghost function SumOver<T(!new)>(s: set<T>, w: T -> int): int {
    if s == {} then 0 else var x :| x in s; w(x) + SumOver(s - {x}, w)
  }

  /** The sum does not depend on which element is taken first. */
  lemma {:induction false} SumOverRemove<T(!new)>(s: set<T>, x: T, w: T -> int)
    requires x in s
    ensures SumOver(s, w) == w(x) + SumOver(s - {x}, w)
    decreases |s|
  {
    var y :| y in s && SumOver(s, w) == w(y) + SumOver(s - {y}, w);
    if x != y {
      SumOverRemove(s - {y}, x, w);
      SumOverRemove(s - {x}, y, w);
      assert s - {y} - {x} == s - {x} - {y};
    }
  }

  lemma {:induction false} SumOverCongruent<T(!new)>(s: set<T>, w: T -> int, v: T -> int)
    requires forall x :: x in s ==> w(x) == v(x)
    ensures SumOver(s, w) == SumOver(s, v)
    decreases |s|
  {
    if s != {} {
      var x :| x in s;
      SumOverRemove(s, x, w);
      SumOverRemove(s, x, v);
      SumOverCongruent(s - {x}, w, v);
    }
  }

  lemma {:induction false} SumOverPlus<T(!new)>(s: set<T>, w: T -> int, v: T -> int, both: T -> int)
    requires forall x :: x in s ==> both(x) == w(x) + v(x)
    ensures SumOver(s, both) == SumOver(s, w) + SumOver(s, v)
    decreases |s|
  {
    if s != {} {
      var x :| x in s;
      SumOverRemove(s, x, w);
      SumOverRemove(s, x, v);
      SumOverRemove(s, x, both);
      SumOverPlus(s - {x}, w, v, both);
    }
  }
}
