/** Least fixpoints over finite tables. A table maps each of a fixed set of names to an answer,
    or to `bottom` when there is no answer yet; a monotone step never takes an answer back.
    Iterating from the all-bottom table, as many rounds as there are names always suffice. */
module Fixpoint {

  type Table<A> = map<string, A>

  type Step<!A> = Table<A> -> Table<A>

  /** `t'` agrees with `t` wherever `t` has an answer. */
  ghost predicate Refines<A>(bottom: A, t: Table<A>, t': Table<A>) {
    t.Keys == t'.Keys && forall n :: n in t ==> t[n] == bottom || t[n] == t'[n]
  }

  ghost predicate Monotone<A(!new)>(bottom: A, names: set<string>, f: Step<A>) {
    && (forall t: Table<A> :: t.Keys == names ==> f(t).Keys == names)
    && (forall t: Table<A>, t': Table<A> :: t.Keys == names && Refines(bottom, t, t') ==> Refines(bottom, f(t), f(t')))
  }

  function Bottom<A>(bottom: A, names: set<string>): Table<A> { map n | n in names :: bottom }

  function Iterate<A>(bottom: A, names: set<string>, f: Step<A>, k: nat): Table<A> {
    if k == 0 then Bottom(bottom, names) else f(Iterate(bottom, names, f, k - 1))
  }

  lemma {:induction false} IterateRefines<A(!new)>(bottom: A, names: set<string>, f: Step<A>, k: nat, k': nat)
    requires Monotone(bottom, names, f) && k <= k'
    ensures Iterate(bottom, names, f, k').Keys == names
    ensures Refines(bottom, Iterate(bottom, names, f, k), Iterate(bottom, names, f, k'))
  {
    if k > 0 {
      IterateRefines(bottom, names, f, k - 1, k' - 1);
    } else if k' > 0 {
      IterateRefines(bottom, names, f, 0, k' - 1);
    }
  }

  /** Every iterate stays below every solution. */
  lemma {:induction false} IterateIsLeast<A(!new)>(bottom: A, names: set<string>, f: Step<A>, t: Table<A>, k: nat)
    requires Monotone(bottom, names, f) && t.Keys == names && f(t) == t
    ensures Refines(bottom, Iterate(bottom, names, f, k), t)
  {
    if k > 0 {
      IterateIsLeast(bottom, names, f, t, k - 1);
      IterateRefines(bottom, names, f, 0, k - 1);
    }
  }

  ghost function Answered<A>(bottom: A, t: Table<A>): set<string> { set n | n in t && t[n] != bottom }

  lemma AnsweredGrows<A>(bottom: A, t: Table<A>, t': Table<A>)
    requires Refines(bottom, t, t') && t != t'
    ensures |Answered(bottom, t)| < |Answered(bottom, t')|
  {
    var n :| n in t && t[n] != t'[n];
    assert n !in Answered(bottom, t) && n in Answered(bottom, t');
    Subset(Answered(bottom, t) + {n}, Answered(bottom, t'));
  }

  lemma {:induction false} Subset<T>(a: set<T>, b: set<T>)
    requires a <= b
    ensures |a| <= |b|
  {
    if a != {} {
      var x :| x in a;
      Subset(a - {x}, b - {x});
    }
  }

  lemma {:induction false} StableOrGrowing<A(!new)>(bottom: A, names: set<string>, f: Step<A>, k: nat)
    requires Monotone(bottom, names, f)
    ensures Iterate(bottom, names, f, k) == Iterate(bottom, names, f, k + 1)
         || |Answered(bottom, Iterate(bottom, names, f, k + 1))| > k
  {
    var t, t' := Iterate(bottom, names, f, k), Iterate(bottom, names, f, k + 1);
    IterateRefines(bottom, names, f, k, k + 1);
    if t != t' {
      AnsweredGrows(bottom, t, t');
      if k > 0 {
        StableOrGrowing(bottom, names, f, k - 1);
      }
    }
  }

  lemma Stabilises<A(!new)>(bottom: A, names: set<string>, f: Step<A>)
    requires Monotone(bottom, names, f)
    ensures f(Iterate(bottom, names, f, |names|)) == Iterate(bottom, names, f, |names|)
  {
    var t' := Iterate(bottom, names, f, |names| + 1);
    StableOrGrowing(bottom, names, f, |names|);
    IterateRefines(bottom, names, f, 0, |names| + 1);
    Subset(Answered(bottom, t'), names);
  }
}
