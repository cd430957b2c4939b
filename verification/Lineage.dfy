/** Leaf closure: the metadata of a computed feature, although derived one level at a time,
    describes the whole set of source reports that were consumed transitively. */
module Lineage {
  import opened Domain
  import opened Registry
  import opened Semantics
  import Fixpoint

  type Leaves = set<SourceStamp>

  /** Freshness is the oldest report, availability the latest one (known only if all are), and
      trust holds exactly when every report is trusted. */
  ghost predicate Describes(dataTs: Time, availableAt: Option<Time>, source: Option<AvailabilitySource>,
                            leaves: Leaves) {
    && (exists s :: s in leaves && s.reportTs == dataTs)
    && (forall s :: s in leaves ==> dataTs <= s.reportTs)
    && (availableAt.Some? <==> forall s :: s in leaves ==> s.availableAt.Some?)
    && (availableAt.Some? ==>
          && (exists s :: s in leaves && s.availableAt == availableAt)
          && (forall s :: s in leaves ==> s.availableAt.value <= availableAt.value))
    && (availableAt.Some? && source == Some(SourceProvided) <==> forall s :: s in leaves ==> TrustedStamp(s))
  }

  ghost predicate FactDescribes(f: Fact, leaves: Leaves) {
    Describes(f.dataTs, f.availableAt, f.availabilitySource, leaves)
  }

  ghost predicate ComputationDescribes(c: Computation, leaves: Leaves) {
    Describes(c.dataTs, c.availableAt, c.availabilitySource, leaves)
  }

  lemma StampDescribesItself(stamps: map<string, SourceStamp>, source: string)
    requires source in stamps
    ensures FactDescribes(SourceFact(stamps, source), {stamps[source]})
  {
    assert stamps[source] in {stamps[source]};
  }

  ghost function UnionOf(sets: seq<Leaves>): Leaves {
    if sets == [] then {} else UnionOf(sets[..|sets| - 1]) + sets[|sets| - 1]
  }

  lemma {:induction false} InUnionOf(sets: seq<Leaves>, s: SourceStamp)
    ensures s in UnionOf(sets) <==> exists i :: 0 <= i < |sets| && s in sets[i]
  {
    if sets != [] {
      InUnionOf(sets[..|sets| - 1], s);
    }
  }

  /** The minimum over facts describes the union of what the facts describe. */
  lemma {:induction false} MinDescribes(facts: seq<Fact>, sets: seq<Leaves>)
    requires |facts| == |sets| > 0 && forall i :: 0 <= i < |facts| ==> FactDescribes(facts[i], sets[i])
    ensures exists s :: s in UnionOf(sets) && s.reportTs == MinTs(facts)
    ensures forall s :: s in UnionOf(sets) ==> MinTs(facts) <= s.reportTs
  {
    var last := |facts| - 1;
    if last > 0 {
      MinDescribes(facts[..last], sets[..last]);
      var s :| s in UnionOf(sets[..last]) && s.reportTs == MinTs(facts[..last]);
      assert s in UnionOf(sets);
    }
    var s' :| s' in sets[last] && s'.reportTs == facts[last].dataTs;
    assert s' in UnionOf(sets);
  }

  lemma {:induction false} MaxDescribes(facts: seq<Fact>, sets: seq<Leaves>)
    requires |facts| == |sets| && forall i :: 0 <= i < |facts| ==> FactDescribes(facts[i], sets[i])
    requires AllAvailable(facts)
    ensures exists s :: s in UnionOf(sets) && s.availableAt == Some(MaxAvailability(facts))
    ensures forall s :: s in UnionOf(sets) ==> s.availableAt.Some? && s.availableAt.value <= MaxAvailability(facts)
  {
    var last := |facts| - 1;
    assert facts[last] in facts;
    if last > 0 {
      assert forall f :: f in facts[..last] ==> f in facts;
      MaxDescribes(facts[..last], sets[..last]);
      var s :| s in UnionOf(sets[..last]) && s.availableAt == Some(MaxAvailability(facts[..last]));
      assert s in UnionOf(sets);
    }
    var s' :| s' in sets[last] && s'.availableAt == facts[last].availableAt;
    assert s' in UnionOf(sets);
  }

  lemma PartOfUnion(sets: seq<Leaves>, i: nat)
    requires i < |sets|
    ensures sets[i] <= UnionOf(sets)
  {
    forall s | s in sets[i]
      ensures s in UnionOf(sets)
    {
      InUnionOf(sets, s);
    }
  }

  lemma AvailabilityDescribes(facts: seq<Fact>, sets: seq<Leaves>)
    requires |facts| == |sets| > 0 && forall i :: 0 <= i < |facts| ==> FactDescribes(facts[i], sets[i])
    ensures AllAvailable(facts) <==> forall s :: s in UnionOf(sets) ==> s.availableAt.Some?
  {
    if AllAvailable(facts) {
      forall s | s in UnionOf(sets)
        ensures s.availableAt.Some?
      {
        InUnionOf(sets, s);
        var i :| 0 <= i < |sets| && s in sets[i];
        assert facts[i] in facts;
      }
    }
    if forall s :: s in UnionOf(sets) ==> s.availableAt.Some? {
      forall i | 0 <= i < |facts|
        ensures facts[i].availableAt.Some?
      {
        PartOfUnion(sets, i);
      }
    }
  }

  lemma TrustDescribes(facts: seq<Fact>, sets: seq<Leaves>)
    requires |facts| == |sets| > 0 && forall i :: 0 <= i < |facts| ==> FactDescribes(facts[i], sets[i])
    ensures AllTrusted(facts) <==> forall s :: s in UnionOf(sets) ==> TrustedStamp(s)
  {
    if AllTrusted(facts) {
      forall s | s in UnionOf(sets)
        ensures TrustedStamp(s)
      {
        InUnionOf(sets, s);
        var i :| 0 <= i < |sets| && s in sets[i];
        assert facts[i] in facts;
      }
    }
    if forall s :: s in UnionOf(sets) ==> TrustedStamp(s) {
      forall i | 0 <= i < |facts|
        ensures facts[i].availableAt.Some? && facts[i].availabilitySource == Some(SourceProvided)
      {
        PartOfUnion(sets, i);
      }
    }
  }

  lemma SummaryDescribes(v: Value, facts: seq<Fact>, degraded: bool, sets: seq<Leaves>)
    requires |facts| == |sets| > 0 && forall i :: 0 <= i < |facts| ==> FactDescribes(facts[i], sets[i])
    ensures ComputationDescribes(Summarise(v, facts, degraded), UnionOf(sets))
  {
    MinDescribes(facts, sets);
    AvailabilityDescribes(facts, sets);
    TrustDescribes(facts, sets);
    if AllAvailable(facts) {
      MaxDescribes(facts, sets);
    }
  }

  // ---------------------------------------------------------------------------------------
  // The leaves of a feature
  // ---------------------------------------------------------------------------------------

  /** The leaf set of each consumed input of one feature: its stamps, then its dependencies. */
  ghost function InputLeaves(env: Env, f: FeatureDef, order: seq<string>,
                             below: map<string, Leaves>): (sets: seq<Leaves>)
    requires forall s :: s in f.inputs ==> s in env.stamps
    requires forall d :: d in order ==> d in below
    ensures |sets| == |f.inputs| + |order|
  {
    seq(|f.inputs|, i requires 0 <= i < |f.inputs| => {env.stamps[f.inputs[i]]}) +
    seq(|order|, i requires 0 <= i < |order| => below[order[i]])
  }

  ghost function LeavesVia(env: Env, f: FeatureDef, deps: DepsOutcome, below: map<string, Leaves>): Leaves {
    if deps.DepsReady? && (forall s :: s in f.inputs ==> s in env.stamps) &&
      (forall d :: d in deps.order ==> d in below)
    then UnionOf(InputLeaves(env, f, deps.order, below))
    else {}
  }

  /** The reports consumed transitively by a feature, `k` levels deep. `known` gives the leaves
      of the computations that were in the context beforehand. */
  ghost function LeavesOf(env: Env, known: map<string, Leaves>, k: nat, name: string): Leaves
    requires forall n :: n in env.given <==> n in known
    decreases k, 0
  {
    if name in known then known[name]
    else if name !in env.features || k == 0 then {}
    else
      var deps := EvalDeps(env, Unfold(env, k - 1), env.features[name].deps);
      LeavesVia(env, env.features[name], deps, if deps.DepsReady? then LeavesBelow(env, known, k, deps.order)
                else map[])
  }

  ghost function LeavesBelow(env: Env, known: map<string, Leaves>, k: nat, order: seq<string>): map<string, Leaves>
    requires k > 0 && forall n :: n in env.given <==> n in known
    decreases k - 1, 1
  {
    map d | d in order :: LeavesOf(env, known, k - 1, d)
  }

  /** One feature: if the metadata of its dependencies describes their leaves, then its own
      metadata describes the union. */
  lemma AssembledDescribes(env: Env, f: FeatureDef, deps: DepsOutcome, below: map<string, Leaves>)
    requires forall s :: s in f.inputs ==> env.loader(s).Some?
    requires deps.DepsReady? && forall d :: d in deps.order ==> d in deps.comps
    requires Assemble(env, f, deps).Computed?
    requires forall d :: d in deps.order ==> d in below && ComputationDescribes(deps.comps[d], below[d])
    ensures forall s :: s in f.inputs ==> s in env.stamps
    ensures ComputationDescribes(Assemble(env, f, deps).comp, UnionOf(InputLeaves(env, f, deps.order, below)))
  {
    var facts := Facts(env, f, deps.order, deps.comps);
    var sets := InputLeaves(env, f, deps.order, below);
    forall i | 0 <= i < |facts|
      ensures FactDescribes(facts[i], sets[i])
    {
      if i < |f.inputs| {
        StampDescribesItself(env.stamps, f.inputs[i]);
      }
    }
    var v := env.udfs[f.udf](Payloads(env, f), ValuesOf(deps.comps)).value;
    SummaryDescribes(v, facts, deps.degraded, sets);
  }

  /** The usable dependencies carry exactly the computations that the table has for them. */
  lemma {:induction false} DepsComeFromTable(env: Env, t: Table, deps: seq<Dependency>)
    requires EvalDeps(env, t, deps).DepsReady?
    ensures forall d :: d in EvalDeps(env, t, deps).comps ==>
      Lookup(env, t, d) == Computed(EvalDeps(env, t, deps).comps[d])
  {
    if deps != [] {
      DepsComeFromTable(env, t, deps[..|deps| - 1]);
    }
  }

  lemma EvaluatedDescribes(env: Env, t: Table, f: FeatureDef, below: map<string, Leaves>)
    requires EvalFeature(env, t, f).Computed?
    requires EvalDeps(env, t, f.deps).DepsReady? ==> forall d :: d in EvalDeps(env, t, f.deps).order ==>
      && d in below
      && (Lookup(env, t, d).Computed? ==> ComputationDescribes(Lookup(env, t, d).comp, below[d]))
    ensures ComputationDescribes(EvalFeature(env, t, f).comp, LeavesVia(env, f, EvalDeps(env, t, f.deps), below))
  {
    DepsComeFromTable(env, t, f.deps);
    AssembledDescribes(env, f, EvalDeps(env, t, f.deps), below);
  }

  lemma UnfoldedIsEvaluated(env: Env, k: nat, name: string)
    requires k > 0 && name in env.features && name !in env.given
    ensures Lookup(env, Unfold(env, k), name) == EvalFeature(env, Unfold(env, k - 1), env.features[name])
  {
    assert Unfold(env, k) == Next(env, Unfold(env, k - 1));
  }

  lemma UnfoldedBottom(env: Env, name: string)
    requires name !in env.given
    ensures !Lookup(env, Unfold(env, 0), name).Computed?
  {
  }

  ghost predicate KnownDescribes(env: Env, known: map<string, Leaves>) {
    && (forall n :: n in env.given <==> n in known)
    && forall n :: n in known ==> ComputationDescribes(env.given[n], known[n])
  }

  ghost predicate DescribedAt(env: Env, known: map<string, Leaves>, k: nat, name: string)
    requires forall n :: n in env.given <==> n in known
  {
    var o := Lookup(env, Unfold(env, k), name);
    o.Computed? ==> ComputationDescribes(o.comp, LeavesOf(env, known, k, name))
  }

  lemma DescribedOneLevelUp(env: Env, known: map<string, Leaves>, k: nat, name: string)
    requires KnownDescribes(env, known)
    requires forall d :: DescribedAt(env, known, k, d)
    ensures DescribedAt(env, known, k + 1, name)
  {
    if name in env.features && name !in env.given {
      UnfoldedIsEvaluated(env, k + 1, name);
      var f, t := env.features[name], Unfold(env, k);
      if EvalFeature(env, t, f).Computed? {
        var order := EvalDeps(env, t, f.deps).order;
        assert forall d :: d in order ==> DescribedAt(env, known, k, d);
        EvaluatedDescribes(env, t, f, LeavesBelow(env, known, k + 1, order));
      }
    }
  }

  lemma {:induction false} LevelDescribed(env: Env, known: map<string, Leaves>, k: nat)
    requires KnownDescribes(env, known)
    ensures forall name :: DescribedAt(env, known, k, name)
  {
    hide DescribedAt, ComputationDescribes;
    if k > 0 {
      LevelDescribed(env, known, k - 1);
    }
    forall name
      ensures DescribedAt(env, known, k, name)
    {
      if name !in env.given && k == 0 {
        UnfoldedIsNotDescribed(env, known, name);
      } else if k > 0 {
        DescribedOneLevelUp(env, known, k - 1, name);
      } else {
        GivenIsDescribed(env, known, name);
      }
    }
  }

  lemma UnfoldedIsNotDescribed(env: Env, known: map<string, Leaves>, name: string)
    requires (forall n :: n in env.given <==> n in known) && name !in env.given
    ensures DescribedAt(env, known, 0, name)
  {
    UnfoldedBottom(env, name);
  }

  lemma GivenIsDescribed(env: Env, known: map<string, Leaves>, name: string)
    requires KnownDescribes(env, known) && name in env.given
    ensures DescribedAt(env, known, 0, name)
  {
  }

  ghost function LeavesIn(env: Env, known: map<string, Leaves>, name: string): Leaves
    requires forall n :: n in env.given <==> n in known
  {
    LeavesOf(env, known, |env.features.Keys|, name)
  }

  /** Leaf closure: for every computed feature, `data_ts` is the oldest report time over all
      transitively consumed reports, `available_at` is the latest availability exactly when all
      are known, and the feature is trusted exactly when all of them are. */
  lemma LeafClosure(env: Env, known: map<string, Leaves>, name: string)
    requires KnownDescribes(env, known)
    requires Denotation(env, name).Computed?
    ensures ComputationDescribes(Denotation(env, name).comp, LeavesIn(env, known, name))
  {
    LevelDescribed(env, known, |env.features.Keys|);
    assert DescribedAt(env, known, |env.features.Keys|, name);
  }

  /** A trusted value that was available at an observation was built from reports that were
      all issued by then. */
  lemma TrustedIsNeverFromTheFuture(dataTs: Time, availableAt: Time, leaves: Leaves, observationTs: Time)
    requires Describes(dataTs, Some(availableAt), Some(SourceProvided), leaves)
    requires forall s :: s in leaves ==> HonestStamp(s)
    requires availableAt <= observationTs
    ensures forall s :: s in leaves ==> s.reportTs <= observationTs
  {
    assert forall s :: s in leaves ==> TrustedStamp(s);
  }
}
