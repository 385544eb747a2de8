/** Totals over the elements of a sequence: of numbers and of multisets. */
module Bags {

  function Sum<T>(f: T -> nat, s: seq<T>): nat {
    if s == [] then 0 else Sum(f, s[..|s| - 1]) + f(s[|s| - 1])
  }

  ghost function Total<T, E>(f: T -> multiset<E>, s: seq<T>): multiset<E> {
    if s == [] then multiset{} else Total(f, s[..|s| - 1]) + f(s[|s| - 1])
  }

  function Map<T, U>(f: T -> U, s: seq<T>): seq<U> {
    seq(|s|, i requires 0 <= i < |s| => f(s[i]))
  }

  /** The elements that meet a condition, in order. */
  function Filter<T>(holds: T -> bool, s: seq<T>): seq<T> {
    if s == [] then [] else Filter(holds, s[..|s| - 1]) + if holds(s[|s| - 1]) then [s[|s| - 1]] else []
  }

  /** The positions at which a sequence meets a condition. */
  ghost function Positions<T>(holds: T -> bool, s: seq<T>): set<nat> {
    set i: nat | i < |s| && holds(s[i])
  }

  lemma PositionsGrow<T>(holds: T -> bool, s: seq<T>)
    requires s != []
    ensures var n := |s| - 1;
      |Positions(holds, s)| == |Positions(holds, s[..n])| + if holds(s[n]) then 1 else 0
  {
    var n := |s| - 1;
    var before := Positions(holds, s[..n]);
    assert Positions(holds, s) == if holds(s[n]) then before + {n} else before;
  }

  lemma {:induction false} SumUpdate<T>(f: T -> nat, s: seq<T>, i: nat, x: T)
    requires i < |s|
    ensures Sum(f, s[i := x]) + f(s[i]) == Sum(f, s) + f(x)
  {
    var n := |s| - 1;
    if i == n {
      assert s[i := x][..n] == s[..n];
    } else {
      assert s[i := x][..n] == s[..n][i := x];
      SumUpdate(f, s[..n], i, x);
    }
  }

  lemma {:induction false} TotalUpdate<T, E>(f: T -> multiset<E>, s: seq<T>, i: nat, x: T)
    requires i < |s|
    ensures Total(f, s[i := x]) + f(s[i]) == Total(f, s) + f(x)
  {
    var n := |s| - 1;
    if i == n {
      assert s[i := x][..n] == s[..n];
    } else {
      assert s[i := x][..n] == s[..n][i := x];
      TotalUpdate(f, s[..n], i, x);
      AddBoth(Total(f, s[..n][i := x]), f(s[i]), Total(f, s[..n]), f(x), f(s[n]));
    }
  }

  lemma AddBoth<E>(a: multiset<E>, b: multiset<E>, c: multiset<E>, d: multiset<E>, e: multiset<E>)
    requires a + b == c + d
    ensures a + e + b == c + e + d
  {
    assert a + e + b == a + b + e && c + e + d == c + d + e;
  }

  /** Replacing an element by one that holds `extra` more. */
  lemma TotalGrows<T, E>(f: T -> multiset<E>, s: seq<T>, i: nat, x: T, extra: multiset<E>)
    requires i < |s| && f(x) == f(s[i]) + extra
    ensures Total(f, s[i := x]) == Total(f, s) + extra
  {
    TotalUpdate(f, s, i, x);
    Cancel(Total(f, s[i := x]), Total(f, s), f(s[i]), extra);
  }

  lemma Cancel<E>(a: multiset<E>, b: multiset<E>, c: multiset<E>, extra: multiset<E>)
    requires a + c == b + (c + extra)
    ensures a == b + extra
  {
    assert a == a + c - c;
    assert b + extra == b + (c + extra) - c;
  }

  lemma {:induction false} SumConstant<T>(f: T -> nat, s: seq<T>, c: nat)
    requires forall i :: 0 <= i < |s| ==> f(s[i]) == c
    ensures Sum(f, s) == c * |s|
  {
    if s != [] {
      SumConstant(f, s[..|s| - 1], c);
      assert c * |s| == c * (|s| - 1) + c;
    }
  }

  lemma {:induction false} SumAtMost<T>(f: T -> nat, s: seq<T>)
    requires forall i :: 0 <= i < |s| ==> f(s[i]) <= 1
    ensures Sum(f, s) <= |s|
  {
    if s != [] {
      SumAtMost(f, s[..|s| - 1]);
    }
  }

  lemma {:induction false} TotalEmpty<T, E>(f: T -> multiset<E>, s: seq<T>)
    requires forall i :: 0 <= i < |s| ==> f(s[i]) == multiset{}
    ensures Total(f, s) == multiset{}
  {
    if s != [] {
      TotalEmpty(f, s[..|s| - 1]);
    }
  }

  /** The size of a total is the sum of the sizes. */
  lemma {:induction false} TotalSize<T, E>(f: T -> multiset<E>, g: T -> nat, s: seq<T>)
    requires forall i :: 0 <= i < |s| ==> |f(s[i])| == g(s[i])
    ensures |Total(f, s)| == Sum(g, s)
  {
    if s != [] {
      TotalSize(f, g, s[..|s| - 1]);
    }
  }

  /** Two elements hold together no more than all of them. */
  lemma {:induction false} TwoHold<T, E>(f: T -> multiset<E>, s: seq<T>, i: nat, j: nat, e: E)
    requires i < j < |s|
    ensures f(s[i])[e] + f(s[j])[e] <= Total(f, s)[e]
  {
    var n := |s| - 1;
    if j < n {
      TwoHold(f, s[..n], i, j, e);
    } else {
      OneHolds(f, s[..n], i, e);
    }
  }

  lemma {:induction false} OneHolds<T, E>(f: T -> multiset<E>, s: seq<T>, i: nat, e: E)
    requires i < |s|
    ensures f(s[i])[e] <= Total(f, s)[e]
  {
    if i < |s| - 1 {
      OneHolds(f, s[..|s| - 1], i, e);
    }
  }

  lemma MapSnoc<T, U>(f: T -> U, s: seq<T>, x: T)
    ensures Map(f, s + [x]) == Map(f, s) + [f(x)]
  {
  }

  lemma MapConcat<T, U>(f: T -> U, a: seq<T>, b: seq<T>)
    ensures Map(f, a + b) == Map(f, a) + Map(f, b)
  {
  }

  /** Taking one element out of the middle. */
  lemma TakeOut<T>(before: seq<T>, x: T, after: seq<T>)
    ensures multiset(before + [x] + after) == multiset(before + after) + multiset{x}
  {
  }

  lemma MapTakeOut<T, U>(f: T -> U, before: seq<T>, x: T, after: seq<T>)
    ensures multiset(Map(f, before + [x] + after)) == multiset(Map(f, before + after)) + multiset{f(x)}
  {
    MapConcat(f, before + [x], after);
    MapSnoc(f, before, x);
    MapConcat(f, before, after);
    TakeOut(Map(f, before), f(x), Map(f, after));
  }

  /** Images of permutations are permutations. */
  lemma {:induction false} MapPermutation<T, U>(f: T -> U, a: seq<T>, b: seq<T>)
    requires multiset(a) == multiset(b)
    ensures multiset(Map(f, a)) == multiset(Map(f, b))
  {
    if a == [] {
      assert |multiset(b)| == 0 && b == [];
    } else {
      var init, x := a[..|a| - 1], a[|a| - 1];
      assert a == init + [x] + [] && init + [] == init;
      assert x in multiset(b);
      var k :| 0 <= k < |b| && b[k] == x;
      var before, after := b[..k], b[k + 1..];
      assert b == before + [x] + after;
      TakeOut(init, x, []);
      TakeOut(before, x, after);
      Cancel(multiset(init), multiset(before + after), multiset{x}, multiset{});
      MapPermutation(f, init, before + after);
      MapTakeOut(f, init, x, []);
      MapTakeOut(f, before, x, after);
    }
  }
}
