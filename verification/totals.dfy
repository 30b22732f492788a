/** Sums over sequences. */
module Totals {

  function When(b: bool, x: int): int {
    if b then x else 0
  }

  function Sum<T>(s: seq<T>, f: T -> int): int {
    if s == [] then 0 else Sum(s[..|s| - 1], f) + f(s[|s| - 1])
  }

  lemma SumAppended<T>(s: seq<T>, x: T, f: T -> int)
    ensures Sum(s + [x], f) == Sum(s, f) + f(x)
  {
    assert (s + [x])[..|s|] == s;
  }

  lemma SumOfTwo<T>(x: T, y: T, f: T -> int)
    ensures Sum([x, y], f) == f(x) + f(y)
  {
    assert [x, y] == [x] + [y];
    SumAppended([x], y, f);
    SumAppended([], x, f);
    assert [] + [x] == [x];
  }

  lemma SumOfOne<T>(x: T, f: T -> int)
    ensures Sum([x], f) == f(x)
  {
    assert [x][..0] == [];
  }

  lemma {:induction false} SumConcat<T>(s: seq<T>, t: seq<T>, f: T -> int)
    ensures Sum(s + t, f) == Sum(s, f) + Sum(t, f)
  {
    if t == [] {
      assert s + t == s;
    } else {
      SumConcat(s, t[..|t| - 1], f);
      assert (s + t)[..|s + t| - 1] == s + t[..|t| - 1];
    }
  }

  lemma {:induction false} SumUpdated<T>(s: seq<T>, i: nat, x: T, f: T -> int)
    requires i < |s|
    ensures Sum(s[i := x], f) == Sum(s, f) - f(s[i]) + f(x)
  {
    var last := |s| - 1;
    if i == last {
      assert s[i := x][..last] == s[..last];
    } else {
      assert s[i := x][..last] == s[..last][i := x];
      SumUpdated(s[..last], i, x, f);
    }
  }

  lemma {:induction false} SumRemoved<T>(s: seq<T>, i: nat, f: T -> int)
    requires i < |s|
    ensures Sum(s[..i] + s[i + 1..], f) == Sum(s, f) - f(s[i])
  {
    var last := |s| - 1;
    if i == last {
      assert s[..i] + s[i + 1..] == s[..last];
    } else {
      SumRemoved(s[..last], i, f);
      assert (s[..i] + s[i + 1..])[..last - 1] == s[..last][..i] + s[..last][i + 1..];
    }
  }

  lemma WithoutOne<T>(s: seq<T>, t: seq<T>, i: nat)
    requires s != [] && i < |t| && t[i] == s[|s| - 1] && multiset(s) == multiset(t)
    ensures multiset(s[..|s| - 1]) == multiset(t[..i] + t[i + 1..])
  {
    assert s == s[..|s| - 1] + [t[i]];
    assert t == t[..i] + [t[i]] + t[i + 1..];
    assert multiset(t[..i] + t[i + 1..]) == multiset(s) - multiset{t[i]};
  }

  /** A sum does not depend on the order of its terms. */
  lemma {:induction false} SumPermuted<T>(s: seq<T>, t: seq<T>, f: T -> int)
    requires multiset(s) == multiset(t)
    ensures Sum(s, f) == Sum(t, f)
    decreases |s|
  {
    assert |s| == |multiset(s)| == |multiset(t)| == |t|;
    if s != [] {
      assert s[|s| - 1] in multiset(t);
      var i :| 0 <= i < |t| && t[i] == s[|s| - 1];
      WithoutOne(s, t, i);
      SumPermuted(s[..|s| - 1], t[..i] + t[i + 1..], f);
      SumRemoved(t, i, f);
    }
  }

  lemma {:induction false} SumSame<T>(s: seq<T>, f: T -> int, g: T -> int)
    requires forall i :: 0 <= i < |s| ==> f(s[i]) == g(s[i])
    ensures Sum(s, f) == Sum(s, g)
  {
    if s != [] {
      SumSame(s[..|s| - 1], f, g);
    }
  }

  lemma {:induction false} SumMonotone<T>(s: seq<T>, f: T -> int, g: T -> int)
    requires forall i :: 0 <= i < |s| ==> f(s[i]) <= g(s[i])
    ensures Sum(s, f) <= Sum(s, g)
  {
    if s != [] {
      SumMonotone(s[..|s| - 1], f, g);
    }
  }

  lemma {:induction false} SumNonNegative<T>(s: seq<T>, f: T -> int)
    requires forall i :: 0 <= i < |s| ==> f(s[i]) >= 0
    ensures Sum(s, f) >= 0
    ensures forall i :: 0 <= i < |s| ==> Sum(s, f) >= f(s[i])
  {
    if s != [] {
      SumNonNegative(s[..|s| - 1], f);
    }
  }

  /** Terms at most `c` times as large give a sum at most `c` times as large. */
  lemma {:induction false} SumBounded<T>(s: seq<T>, f: T -> int, g: T -> int, c: int)
    requires forall i :: 0 <= i < |s| ==> g(s[i]) <= c * f(s[i])
    ensures Sum(s, g) <= c * Sum(s, f)
  {
    if s != [] {
      SumBounded(s[..|s| - 1], f, g, c);
    }
  }

  lemma {:induction false} SumScaled<T>(s: seq<T>, f: T -> int, g: T -> int, c: int)
    requires forall i :: 0 <= i < |s| ==> g(s[i]) == c * f(s[i])
    ensures Sum(s, g) == c * Sum(s, f)
  {
    if s != [] {
      SumScaled(s[..|s| - 1], f, g, c);
    }
  }

  lemma {:induction false} SumOfSums<T>(s: seq<T>, f: T -> int, g: T -> int, h: T -> int)
    requires forall i :: 0 <= i < |s| ==> h(s[i]) == f(s[i]) + g(s[i])
    ensures Sum(s, h) == Sum(s, f) + Sum(s, g)
  {
    if s != [] {
      SumOfSums(s[..|s| - 1], f, g, h);
    }
  }
}
