/** Stable sorting with respect to a comparison, and the order of strings. */
module Sorting {

  /** A comparison that ranks any two elements, perhaps equally. */
  ghost predicate Ranking<T(!new)>(le: (T, T) -> bool) {
    && (forall a, b :: le(a, b) || le(b, a))
    && (forall a, b, c :: le(a, b) && le(b, c) ==> le(a, c))
  }

  /** No two different elements of the sequence rank equally. */
  ghost predicate Decisive<T>(le: (T, T) -> bool, s: seq<T>) {
    forall a, b :: a in s && b in s && le(a, b) && le(b, a) ==> a == b
  }

  ghost predicate TotalOrder<T(!new)>(le: (T, T) -> bool) {
    Ranking(le) && forall a, b :: le(a, b) && le(b, a) ==> a == b
  }

  predicate Sorted<T>(le: (T, T) -> bool, s: seq<T>) {
    forall i, j :: 0 <= i < j < |s| ==> le(s[i], s[j])
  }

  /** In front of the first element that is not smaller, so equal elements keep their order. */
  function Insert<T>(le: (T, T) -> bool, x: T, s: seq<T>): seq<T> {
    if s == [] || le(x, s[0]) then [x] + s else [s[0]] + Insert(le, x, s[1..])
  }

  function Sort<T>(le: (T, T) -> bool, s: seq<T>): seq<T> {
    if s == [] then [] else Insert(le, s[0], Sort(le, s[1..]))
  }

  lemma {:induction false} InsertKeeps<T>(le: (T, T) -> bool, x: T, s: seq<T>)
    ensures multiset(Insert(le, x, s)) == multiset{x} + multiset(s)
  {
    if s != [] && !le(x, s[0]) {
      InsertKeeps(le, x, s[1..]);
      assert s == [s[0]] + s[1..];
    }
  }

  /** Sorting loses and invents nothing. */
  lemma {:induction false} SortKeeps<T>(le: (T, T) -> bool, s: seq<T>)
    ensures multiset(Sort(le, s)) == multiset(s)
  {
    if s != [] {
      SortKeeps(le, s[1..]);
      InsertKeeps(le, s[0], Sort(le, s[1..]));
      assert s == [s[0]] + s[1..];
    }
  }

  lemma SameElements<T>(a: seq<T>, b: seq<T>)
    requires multiset(a) == multiset(b)
    ensures |a| == |b| && forall x :: x in a <==> x in b
  {
    assert |a| == |multiset(a)| && |b| == |multiset(b)|;
    forall x
      ensures x in a <==> x in b
    {
      assert x in a <==> x in multiset(a);
      assert x in b <==> x in multiset(b);
    }
  }

  lemma {:induction false} InsertSorts<T(!new)>(le: (T, T) -> bool, x: T, s: seq<T>)
    requires Ranking(le) && Sorted(le, s)
    ensures Sorted(le, Insert(le, x, s))
  {
    if s == [] {
    } else if le(x, s[0]) {
      forall j | 0 <= j < |s|
        ensures le(x, s[j])
      {
        assert j > 0 ==> le(s[0], s[j]);
      }
    } else {
      var rest := Insert(le, x, s[1..]);
      InsertSorts(le, x, s[1..]);
      InsertKeeps(le, x, s[1..]);
      SameElements(rest, [x] + s[1..]);
      forall j | 0 <= j < |rest|
        ensures le(s[0], rest[j])
      {
        assert rest[j] in [x] + s[1..];
      }
    }
  }

  lemma {:induction false} SortSorts<T(!new)>(le: (T, T) -> bool, s: seq<T>)
    requires Ranking(le)
    ensures Sorted(le, Sort(le, s))
  {
    if s != [] {
      SortSorts(le, s[1..]);
      InsertSorts(le, s[0], Sort(le, s[1..]));
    }
  }

  /** Two sorted arrangements of the same elements are the same. */
  lemma {:induction false} SortedUnique<T(!new)>(le: (T, T) -> bool, a: seq<T>, b: seq<T>)
    requires Ranking(le) && Decisive(le, a) && Sorted(le, a) && Sorted(le, b) && multiset(a) == multiset(b)
    ensures a == b
  {
    SameElements(a, b);
    if a != [] {
      FirstIsLeast(le, a, b);
      Uncons(a);
      Uncons(b);
      SortedUnique(le, a[1..], b[1..]);
    }
  }

  lemma Uncons<T>(s: seq<T>)
    requires s != []
    ensures s == [s[0]] + s[1..] && multiset(s[1..]) == multiset(s) - multiset{s[0]}
  {
    assert s == [s[0]] + s[1..];
  }

  lemma FirstIsLeast<T(!new)>(le: (T, T) -> bool, a: seq<T>, b: seq<T>)
    requires Ranking(le) && Decisive(le, a) && Sorted(le, a) && Sorted(le, b)
    requires a != [] && b != [] && forall x :: x in a <==> x in b
    ensures a[0] == b[0]
  {
    assert a[0] in b && b[0] in a;
    var i :| 0 <= i < |b| && b[i] == a[0];
    var j :| 0 <= j < |a| && a[j] == b[0];
    assert i == 0 || le(b[0], b[i]);
    assert j == 0 || le(a[0], a[j]);
  }

  /** Sorting depends on the elements alone, not on their order. */
  lemma SortOfPermutation<T(!new)>(le: (T, T) -> bool, a: seq<T>, b: seq<T>)
    requires Ranking(le) && Decisive(le, a) && multiset(a) == multiset(b)
    ensures Sort(le, a) == Sort(le, b)
  {
    SortSorts(le, a);
    SortSorts(le, b);
    SortKeeps(le, a);
    SortKeeps(le, b);
    SameElements(Sort(le, a), a);
    SortedUnique(le, Sort(le, a), Sort(le, b));
  }

  // ---------- strings ----------

  /** The order of strings by their code points, which for UTF-8 is the order by bytes. */
  predicate StringLe(a: string, b: string) {
    a == "" || (b != "" && (a[0] < b[0] || (a[0] == b[0] && StringLe(a[1..], b[1..]))))
  }

  lemma {:induction false} StringLeTotal(a: string, b: string)
    ensures StringLe(a, b) || StringLe(b, a)
    ensures StringLe(a, b) && StringLe(b, a) ==> a == b
  {
    if a != "" && b != "" {
      StringLeTotal(a[1..], b[1..]);
      assert a == [a[0]] + a[1..] && b == [b[0]] + b[1..];
    }
  }

  lemma {:induction false} StringLeTransitive(a: string, b: string, c: string)
    requires StringLe(a, b) && StringLe(b, c)
    ensures StringLe(a, c)
  {
    if a != "" && a[0] == b[0] && b[0] == c[0] {
      StringLeTransitive(a[1..], b[1..], c[1..]);
    }
  }

  lemma StringLeIsTotalOrder()
    ensures TotalOrder(StringLe)
  {
    forall a: string, b: string
      ensures StringLe(a, b) || StringLe(b, a)
      ensures StringLe(a, b) && StringLe(b, a) ==> a == b
    {
      StringLeTotal(a, b);
    }
    forall a: string, b: string, c: string | StringLe(a, b) && StringLe(b, c)
      ensures StringLe(a, c)
    {
      StringLeTransitive(a, b, c);
    }
  }

  /** The first position at which two texts differ. */
  ghost predicate DifferAt(a: string, b: string, k: int) {
    0 <= k < |a| && k < |b| && a[..k] == b[..k] && a[k] != b[k]
  }

  /** The order of texts is that of a dictionary: a beginning first, else the first difference decides. */
  lemma {:induction false} StringLeIsDictionary(a: string, b: string)
    ensures StringLe(a, b) <==> a <= b || exists k :: DifferAt(a, b, k) && a[k] < b[k]
  {
    if a != "" && b != "" {
      if a[0] == b[0] {
        StringLeIsDictionary(a[1..], b[1..]);
        SameFirst(a, b);
      } else {
        assert DifferAt(a, b, 0);
        if k :| DifferAt(a, b, k) && a[k] < b[k] {
          FirstDifference(a, b, k);
        }
      }
    }
  }

  lemma FirstDifference(a: string, b: string, k: nat)
    requires DifferAt(a, b, k)
    ensures a[0] != b[0] ==> k == 0
  {
    assert a[..k] != "" ==> a[..k][0] == b[..k][0];
  }

  lemma SameFirst(a: string, b: string)
    requires a != "" && b != "" && a[0] == b[0]
    ensures a <= b <==> a[1..] <= b[1..]
    ensures (exists k :: DifferAt(a, b, k) && a[k] < b[k])
      <==> exists k :: DifferAt(a[1..], b[1..], k) && a[1..][k] < b[1..][k]
  {
    assert a == [a[0]] + a[1..] && b == [b[0]] + b[1..];
    if k :| DifferAt(a, b, k) && a[k] < b[k] {
      assert a[1..][..k - 1] == a[..k][1..] && b[1..][..k - 1] == b[..k][1..];
      assert DifferAt(a[1..], b[1..], k - 1) && a[1..][k - 1] < b[1..][k - 1];
    }
    if k :| DifferAt(a[1..], b[1..], k) && a[1..][k] < b[1..][k] {
      assert a[..k + 1] == [a[0]] + a[1..][..k] && b[..k + 1] == [b[0]] + b[1..][..k];
      assert DifferAt(a, b, k + 1) && a[k + 1] < b[k + 1];
    }
  }

  // ---------- duplicates ----------

  predicate StrictlySorted<T(==)>(le: (T, T) -> bool, s: seq<T>) {
    forall i, j :: 0 <= i < j < |s| ==> le(s[i], s[j]) && s[i] != s[j]
  }

  /** `Vec::dedup`: drop each element that equals its successor. */
  function Dedup<T(==)>(s: seq<T>): seq<T> {
    if |s| <= 1 then s
    else if s[0] == s[1] then Dedup(s[1..])
    else [s[0]] + Dedup(s[1..])
  }

  lemma {:induction false} DedupElements<T>(s: seq<T>)
    ensures forall x :: x in Dedup(s) <==> x in s
  {
    if |s| > 1 {
      DedupElements(s[1..]);
      assert s == [s[0]] + s[1..];
      assert s[1..][0] == s[1];
    }
  }

  /** Removing adjacent duplicates of a sorted sequence removes all duplicates. */
  lemma {:induction false} DedupStrict<T(!new)>(le: (T, T) -> bool, s: seq<T>)
    requires TotalOrder(le) && Sorted(le, s)
    ensures StrictlySorted(le, Dedup(s))
  {
    if |s| > 1 {
      DedupStrict(le, s[1..]);
      if s[0] != s[1] {
        var rest := Dedup(s[1..]);
        DedupElements(s[1..]);
        forall j | 0 <= j < |rest|
          ensures le(s[0], rest[j]) && s[0] != rest[j]
        {
          assert rest[j] in s[1..];
          var i :| 0 <= i < |s[1..]| && s[1..][i] == rest[j];
          assert le(s[0], s[i + 1]) && le(s[0], s[1]);
          assert i == 0 || le(s[1], s[i + 1]);
        }
      }
    }
  }

  function SortedSet(s: seq<string>): seq<string> {
    Dedup(Sort(StringLe, s))
  }

  /** The sorted, deduplicated form: strictly increasing, with the same elements. */
  lemma SortedSetSpec(s: seq<string>)
    ensures StrictlySorted(StringLe, SortedSet(s))
    ensures forall x :: x in SortedSet(s) <==> x in s
  {
    StringLeIsTotalOrder();
    SortSorts(StringLe, s);
    SortKeeps(StringLe, s);
    SameElements(Sort(StringLe, s), s);
    DedupElements(Sort(StringLe, s));
    DedupStrict(StringLe, Sort(StringLe, s));
  }
}
