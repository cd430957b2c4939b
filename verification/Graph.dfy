/** Paths in the dependency graph of a view. */
module Graph {
  import opened Domain
  import opened Registry
  import Fixpoint

  predicate DependsOn(features: FeatureTable, name: string, dep: string) {
    name in features && exists d :: d in features[name].deps && d.feature == dep
  }

  /** A chain of declared dependencies: each name depends on the next one. */
  ghost predicate Path(features: FeatureTable, p: seq<string>) {
    p != [] && forall i :: 0 <= i < |p| - 1 ==> DependsOn(features, p[i], p[i + 1])
  }

  /** An order in which every feature comes after its dependencies. */
  ghost predicate TopologicalOrder(features: FeatureTable, order: seq<string>) {
    && NoDup(order)
    && (forall n :: n in order ==> n in features)
    && forall i, dep :: 0 <= i < |order| && DependsOn(features, order[i], dep) ==> dep in order[..i]
  }

  /** Each step along `p` leads towards the front of the order. */
  ghost predicate Descends(order: seq<string>, p: seq<string>) {
    forall i, at :: 0 <= i < |p| - 1 && 0 <= at < |order| && order[at] == p[i] ==> p[i + 1] in order[..at]
  }

  lemma {:induction false} PathDescends(order: seq<string>, p: seq<string>, i: nat) returns (at: nat)
    requires NoDup(order) && Descends(order, p) && p != [] && p[0] in order && i < |p|
    ensures at < |order| && order[at] == p[i]
    ensures i > 0 ==> forall k :: 0 <= k < i ==> p[k] in order[at + 1..]
  {
    if i == 0 {
      at :| 0 <= at < |order| && order[at] == p[0];
    } else {
      var j := i - 1;
      var before := PathDescends(order, p, j);
      assert p[j + 1] in order[..before];
      at :| 0 <= at < before && order[at] == p[i];
      assert order[before] in order[at + 1..];
      forall k | 0 <= k < i
        ensures p[k] in order[at + 1..]
      {
        if k < i - 1 {
          var j :| before + 1 <= j < |order| && order[j] == p[k];
          assert order[at + 1..][j - at - 1] == p[k];
        } else {
          assert order[at + 1..][before - at - 1] == p[k];
        }
      }
    }
  }

  /** A descending path stays in the order and repeats nothing. */
  lemma DescentIsSimple(order: seq<string>, p: seq<string>)
    requires NoDup(order) && Descends(order, p) && p != [] && p[0] in order
    ensures NoDup(p) && forall n :: n in p ==> n in order
  {
    forall i, j | 0 <= i < j < |p|
      ensures p[i] != p[j]
    {
      var at := PathDescends(order, p, j);
      var k :| at + 1 <= k < |order| && order[k] == p[i];
    }
    forall i | 0 <= i < |p|
      ensures p[i] in order
    {
      var _ := PathDescends(order, p, i);
    }
  }

  lemma PathsInOrderAreSimple(features: FeatureTable, order: seq<string>, p: seq<string>)
    requires TopologicalOrder(features, order) && Path(features, p) && p[0] in order
    ensures NoDup(p) && forall n :: n in p ==> n in order
  {
    forall i, at | 0 <= i < |p| - 1 && 0 <= at < |order| && order[at] == p[i]
      ensures p[i + 1] in order[..at]
    {
      assert DependsOn(features, order[at], p[i + 1]);
    }
    DescentIsSimple(order, p);
  }

  /** A sequence without repetitions is no longer than the set it is drawn from. */
  lemma {:induction false} Pigeonhole<T>(s: seq<T>, nodes: set<T>)
    requires NoDup(s) && forall x :: x in s ==> x in nodes
    ensures |s| <= |nodes|
  {
    if s != [] {
      Pigeonhole(s[1..], nodes - {s[0]});
    }
  }
}
