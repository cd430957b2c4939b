/** Sorting as the built-in sort does it: a sorted permutation of the input. */
module Sorting {

  type Order<!T> = (T, T) -> bool

  ghost predicate TotalOrder<T(!new)>(le: Order<T>) {
    && (forall a, b :: le(a, b) || le(b, a))
    && (forall a, b, c :: le(a, b) && le(b, c) ==> le(a, c))
  }

  ghost predicate Sorted<T>(s: seq<T>, le: Order<T>) {
    forall i, j :: 0 <= i < j < |s| ==> le(s[i], s[j])
  }

  function Insert<T>(x: T, s: seq<T>, le: Order<T>): seq<T> {
    if s == [] then [x]
    else
      var last := s[|s| - 1];
      if le(last, x) then s + [x] else Insert(x, s[..|s| - 1], le) + [last]
  }

  function Sort<T>(s: seq<T>, le: Order<T>): seq<T> {
    if s == [] then [] else Insert(s[|s| - 1], Sort(s[..|s| - 1], le), le)
  }

  lemma {:induction false} InsertKeepsElements<T>(x: T, s: seq<T>, le: Order<T>)
    ensures multiset(Insert(x, s, le)) == multiset(s) + multiset{x}
  {
    if s != [] {
      assert s == s[..|s| - 1] + [s[|s| - 1]];
      InsertKeepsElements(x, s[..|s| - 1], le);
    }
  }

  lemma {:induction false} SortKeepsElements<T>(s: seq<T>, le: Order<T>)
    ensures multiset(Sort(s, le)) == multiset(s)
  {
    if s != [] {
      assert s == s[..|s| - 1] + [s[|s| - 1]];
      SortKeepsElements(s[..|s| - 1], le);
      InsertKeepsElements(s[|s| - 1], Sort(s[..|s| - 1], le), le);
    }
  }

  lemma SameElements<T>(s: seq<T>, t: seq<T>)
    requires multiset(s) == multiset(t)
    ensures |s| == |t| && forall x :: x in s <==> x in t
  {
    assert |multiset(s)| == |s| && |multiset(t)| == |t|;
    forall x ensures x in s <==> x in t {
      assert x in s <==> x in multiset(s);
      assert x in t <==> x in multiset(t);
    }
  }

  lemma {:induction false} InsertSorts<T(!new)>(x: T, s: seq<T>, le: Order<T>)
    requires TotalOrder(le) && Sorted(s, le)
    ensures Sorted(Insert(x, s, le), le)
  {
    if s != [] {
      var front, last := s[..|s| - 1], s[|s| - 1];
      if !le(last, x) {
        InsertSorts(x, front, le);
        InsertKeepsElements(x, front, le);
        forall y | y in Insert(x, front, le)
          ensures le(y, last)
        {
          assert y in multiset(Insert(x, front, le));
          if y != x {
            var i :| 0 <= i < |front| && front[i] == y;
          }
        }
      }
    }
  }

  lemma {:induction false} SortSorts<T(!new)>(s: seq<T>, le: Order<T>)
    requires TotalOrder(le)
    ensures Sorted(Sort(s, le), le)
  {
    if s != [] {
      SortSorts(s[..|s| - 1], le);
      InsertSorts(s[|s| - 1], Sort(s[..|s| - 1], le), le);
    }
  }

  // ---------------------------------------------------------------------------------------
  // Strings compare by code point
  // ---------------------------------------------------------------------------------------

  predicate LexLe(a: string, b: string) {
    if a == [] then true
    else if b == [] then false
    else if a[0] != b[0] then a[0] < b[0]
    else LexLe(a[1..], b[1..])
  }

  /** The first difference is at `k`, and there `a` has the smaller character. */
  predicate DiffersAt(a: string, b: string, k: nat) { k < |a| && k < |b| && a[..k] == b[..k] && a[k] < b[k] }

  lemma DiffersInTail(a: string, b: string, k: nat)
    requires a != [] && b != [] && a[0] == b[0]
    ensures DiffersAt(a, b, k + 1) <==> DiffersAt(a[1..], b[1..], k)
    ensures !DiffersAt(a, b, 0)
  {
    if k < |a| - 1 && k < |b| - 1 {
      assert a[..k + 1] == [a[0]] + a[1..][..k] && b[..k + 1] == [b[0]] + b[1..][..k];
      assert a[1..][..k] == a[..k + 1][1..] && b[1..][..k] == b[..k + 1][1..];
    }
  }

  lemma DiffersAtOnce(a: string, b: string, k: nat)
    requires a != [] && b != [] && a[0] != b[0]
    ensures DiffersAt(a, b, k) <==> k == 0 && a[0] < b[0]
  {
    if 0 < k < |a| && k < |b| {
      assert a[..k][0] == a[0] && b[..k][0] == b[0];
    }
  }

  /** Strings compare by their first difference, and a prefix comes first. */
  lemma {:induction false} LexLeMeans(a: string, b: string)
    ensures LexLe(a, b) <==> a <= b || exists k: nat :: DiffersAt(a, b, k)
  {
    if a != [] && b != [] {
      if a[0] == b[0] {
        LexLeMeans(a[1..], b[1..]);
        assert a == [a[0]] + a[1..] && b == [b[0]] + b[1..];
        forall k: nat {
          DiffersInTail(a, b, k);
        }
        hide DiffersAt;
        if k: nat :| DiffersAt(a, b, k) {
          DiffersInTail(a, b, 0);
          assert DiffersAt(a[1..], b[1..], k - 1);
        }
        if k: nat :| DiffersAt(a[1..], b[1..], k) {
          DiffersInTail(a, b, k);
        }
      } else {
        DiffersAtOnce(a, b, 0);
        forall k: nat
          ensures DiffersAt(a, b, k) <==> k == 0 && a[0] < b[0]
        {
          DiffersAtOnce(a, b, k);
        }
      }
    }
  }

  lemma {:induction false} LexTotal(a: string, b: string)
    ensures LexLe(a, b) || LexLe(b, a)
  {
    if a != [] && b != [] && a[0] == b[0] {
      LexTotal(a[1..], b[1..]);
    }
  }

  lemma {:induction false} LexTransitive(a: string, b: string, c: string)
    requires LexLe(a, b) && LexLe(b, c)
    ensures LexLe(a, c)
  {
    if a != [] && b != [] && c != [] && a[0] == b[0] == c[0] {
      LexTransitive(a[1..], b[1..], c[1..]);
    }
  }

  lemma {:induction false} LexAntisymmetric(a: string, b: string)
    requires LexLe(a, b) && LexLe(b, a)
    ensures a == b
  {
    if a != [] && b != [] {
      LexAntisymmetric(a[1..], b[1..]);
      assert a == [a[0]] + a[1..] && b == [b[0]] + b[1..];
    }
  }

  lemma LexIsTotalOrder()
    ensures TotalOrder(LexLe)
  {
    forall a, b ensures LexLe(a, b) || LexLe(b, a) {
      LexTotal(a, b);
    }
    forall a, b, c | LexLe(a, b) && LexLe(b, c) ensures LexLe(a, c) {
      LexTransitive(a, b, c);
    }
  }

  ghost predicate StrictlyIncreasing(s: seq<string>) {
    forall i, j :: 0 <= i < j < |s| ==> LexLe(s[i], s[j]) && s[i] != s[j]
  }

  lemma SortedNames(names: seq<string>)
    requires forall i, j :: 0 <= i < j < |names| ==> names[i] != names[j]
    ensures StrictlyIncreasing(Sort(names, LexLe))
    ensures |Sort(names, LexLe)| == |names| && forall n :: n in Sort(names, LexLe) <==> n in names
  {
    LexIsTotalOrder();
    SortSorts(names, LexLe);
    SortKeepsElements(names, LexLe);
    SameElements(Sort(names, LexLe), names);
    SortKeepsDistinct(names);
  }

  lemma {:induction false} DistinctMultiset(s: seq<string>)
    ensures (forall i, j :: 0 <= i < j < |s| ==> s[i] != s[j]) <==> forall x :: multiset(s)[x] <= 1
  {
    if s != [] {
      var front, last := s[..|s| - 1], s[|s| - 1];
      assert s == front + [last];
      DistinctMultiset(front);
      assert last in front <==> multiset(front)[last] > 0;
      if forall x :: multiset(s)[x] <= 1 {
        assert multiset(s) == multiset(front) + multiset{last};
        assert multiset(s)[last] <= 1;
        forall i, j | 0 <= i < j < |s| ensures s[i] != s[j] {
          assert multiset(front) <= multiset(s);
          assert j == |s| - 1 ==> front[i] in multiset(front);
        }
      }
    }
  }

  lemma SortKeepsDistinct(names: seq<string>)
    requires forall i, j :: 0 <= i < j < |names| ==> names[i] != names[j]
    ensures forall i, j :: 0 <= i < j < |Sort(names, LexLe)| ==> Sort(names, LexLe)[i] != Sort(names, LexLe)[j]
  {
    SortKeepsElements(names, LexLe);
    DistinctMultiset(names);
    DistinctMultiset(Sort(names, LexLe));
  }

  /** A strictly increasing list is determined by its elements. */
  lemma {:induction false} IncreasingIsUnique(s: seq<string>, t: seq<string>)
    requires StrictlyIncreasing(s) && StrictlyIncreasing(t) && forall x :: x in s <==> x in t
    ensures s == t
  {
    assert s != [] ==> s[0] in s && s[0] in t;
    assert t != [] ==> t[0] in t && t[0] in s;
    if s != [] {
      var j :| 0 <= j < |s| && s[j] == t[0];
      var k :| 0 <= k < |t| && t[k] == s[0];
      if j > 0 && k > 0 {
        LexAntisymmetric(s[0], t[0]);
      }
      forall x ensures x in s[1..] <==> x in t[1..] {
        assert x in s[1..] <==> x in s && x != s[0];
        assert x in t[1..] <==> x in t && x != t[0];
      }
      IncreasingIsUnique(s[1..], t[1..]);
    }
  }
}
