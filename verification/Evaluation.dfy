/** What a computed feature says, in the terms of compute/engine.py: the arguments of its user function,
    its status, and the inputs that its metadata summarises. */
module Evaluation {
  import opened Domain
  import opened Registry
  import opened Semantics
  import opened Engine

  /** The dependency has a value that is older than its edge allows. */
  predicate TooOld(env: Env, d: Dependency, o: Outcome) {
    o.Computed? && d.maxInputAge.Some? && env.calcTs > o.comp.dataTs + d.maxInputAge.value * 1_000_000
  }

  /** A required edge without a usable value: the feature is skipped. */
  predicate CutsOff(env: Env, d: Dependency, o: Outcome) { d.required && (o.Skipped? || TooOld(env, d, o)) }

  /** An optional edge that is missing or too old, or a dependency that is degraded itself. */
  predicate Degrades(env: Env, d: Dependency, o: Outcome) {
    o.Skipped? || TooOld(env, d, o) || (o.Computed? && o.comp.degraded)
  }

  /** Some edge leads to feature `n`, which has a value. */
  ghost predicate Reaches(env: Env, t: Table, deps: seq<Dependency>, n: string) {
    (exists d :: d in deps && d.feature == n) && Lookup(env, t, n).Computed?
  }

  ghost predicate SomeDegrades(env: Env, t: Table, deps: seq<Dependency>) {
    exists d :: d in deps && Degrades(env, d, Lookup(env, t, d.feature))
  }

  /** What has been gathered after a pass over `deps` in which nothing was decided. */
  ghost predicate Gathered(env: Env, t: Table, deps: seq<Dependency>, r: DepsOutcome) {
    && r.DepsReady? && NoDup(r.order)
    && (forall n :: n in r.order <==> n in r.comps)
    && (forall n :: n in r.comps <==> Reaches(env, t, deps, n))
    && (forall n :: n in r.comps ==> Lookup(env, t, n) == Computed(r.comps[n]))
    && (r.degraded <==> SomeDegrades(env, t, deps))
  }

  /** Edge `i` is the first one that fails or cuts the feature off. */
  ghost predicate Decides(env: Env, t: Table, deps: seq<Dependency>, i: nat) {
    && i < |deps| && Stops(env, t, deps[i]) && forall j :: 0 <= j < i ==> !Stops(env, t, deps[j])
  }

  predicate Stops(env: Env, t: Table, d: Dependency) {
    var o := Lookup(env, t, d.feature);
    o.Failed? || CutsOff(env, d, o)
  }

  lemma ReachesSnoc(env: Env, t: Table, front: seq<Dependency>, last: Dependency, n: string)
    ensures Reaches(env, t, front + [last], n) <==>
      Reaches(env, t, front, n) || (n == last.feature && Lookup(env, t, n).Computed?)
  {
    hide Lookup;
    assert last in front + [last] && forall d :: d in front ==> d in front + [last];
  }

  lemma DegradesSnoc(env: Env, t: Table, front: seq<Dependency>, last: Dependency)
    ensures SomeDegrades(env, t, front + [last]) <==>
      SomeDegrades(env, t, front) || Degrades(env, last, Lookup(env, t, last.feature))
  {
    hide Lookup, Degrades;
    assert last in front + [last] && forall d :: d in front ==> d in front + [last];
  }

  lemma GatheredSnoc(env: Env, t: Table, front: seq<Dependency>, last: Dependency, r: DepsOutcome)
    requires Gathered(env, t, front, r) && !Stops(env, t, last)
    ensures Gathered(env, t, front + [last], AddDep(r, last, Lookup(env, t, last.feature), env.calcTs))
  {
    hide Lookup, Reaches, SomeDegrades;
    forall n
      ensures Reaches(env, t, front + [last], n) <==>
        Reaches(env, t, front, n) || (n == last.feature && Lookup(env, t, n).Computed?)
    {
      ReachesSnoc(env, t, front, last, n);
    }
    DegradesSnoc(env, t, front, last);
  }

  /** Without an edge that fails or cuts off, everything computed is gathered. */
  lemma {:induction false} PassGathers(env: Env, t: Table, deps: seq<Dependency>)
    requires forall d :: d in deps ==> !Stops(env, t, d)
    ensures Gathered(env, t, deps, EvalDeps(env, t, deps))
  {
    if deps != [] {
      var front, last := deps[..|deps| - 1], deps[|deps| - 1];
      assert deps == front + [last];
      PassGathers(env, t, front);
      hide Gathered, AddDep, Stops, Lookup;
      GatheredSnoc(env, t, front, last, EvalDeps(env, t, front));
    }
  }

  /** The first edge that fails or cuts off decides. */
  lemma FirstStopDecides(env: Env, t: Table, deps: seq<Dependency>, i: nat)
    requires Decides(env, t, deps, i)
    ensures EvalDeps(env, t, deps) == if Lookup(env, t, deps[i].feature).Failed?
      then DepsFailed(Lookup(env, t, deps[i].feature).error) else DepsSkip
  {
    hide Lookup;
    PassGathers(env, t, deps[..i]);
    EvalDepsSnoc(env, t, deps, i);
    EvalDepsStops(env, t, deps, i + 1);
  }

  // ---------------------------------------------------------------------------------------
  // Which outcome a feature has
  // ---------------------------------------------------------------------------------------

  /** What Python raises before or after the user function runs, edges aside. */
  ghost predicate AllStamped(env: Env, f: FeatureDef) { forall s :: s in f.inputs ==> s in env.stamps }

  ghost predicate AllLoaded(env: Env, f: FeatureDef) { forall s :: s in f.inputs ==> env.loader(s).Some? }

  /** The features whose values the user function gets. */
  ghost predicate Uses(env: Env, f: FeatureDef, n: string) {
    (exists d :: d in f.deps && d.feature == n) && Denotation(env, n).Computed?
  }

  /** `payloads` and `values` are the arguments of the user function of `f`: the report of each declared
      source, and the value of each dependency that has one. */
  ghost predicate Arguments(env: Env, f: FeatureDef, payloads: map<string, Value>, values: map<string, Value>) {
    && (forall s :: s in payloads <==> s in f.inputs)
    && (forall s :: s in payloads ==> env.loader(s) == Some(payloads[s]))
    && (forall n :: n in values <==> Uses(env, f, n))
    && forall n :: n in values ==> values[n] == Denotation(env, n).comp.value
  }

  /** The consumed inputs with what is known about them: each declared source, then each used
      dependency once. */
  ghost predicate IsInputList(env: Env, f: FeatureDef, used: seq<string>, facts: seq<Fact>)
    requires AllStamped(env, f)
  {
    && NoDup(used) && (forall n :: n in used <==> Uses(env, f, n)) && (forall n :: n in used ==> n in env.features)
    && |facts| == |f.inputs| + |used| && ListsSources(env, f, facts) && ListsUsed(env, f, used, facts)
  }

  ghost predicate ListsSources(env: Env, f: FeatureDef, facts: seq<Fact>)
    requires AllStamped(env, f) && |facts| >= |f.inputs|
  {
    forall i :: 0 <= i < |f.inputs| ==>
      var s := env.stamps[f.inputs[i]];
      facts[i] == Fact(SourceInput(f.inputs[i]), s.reportTs, s.contentHash, s.availableAt, s.availabilitySource)
  }

  ghost predicate ListsUsed(env: Env, f: FeatureDef, used: seq<string>, facts: seq<Fact>)
    requires |facts| == |f.inputs| + |used| && forall n :: n in used ==> n in env.features
  {
    forall i :: 0 <= i < |used| && Denotation(env, used[i]).Computed? ==>
      var c := Denotation(env, used[i]).comp;
      facts[|f.inputs| + i] == Fact(FeatureInput(used[i], env.features[used[i]].version), c.dataTs, c.valueHash,
                                    c.availableAt, c.availabilitySource)
  }

  /** The metadata of a computation over the inputs `facts`. */
  ghost predicate Summary(c: Computation, facts: seq<Fact>) {
    && (exists i :: 0 <= i < |facts| && facts[i].dataTs == c.dataTs)
    && (exists i :: 0 <= i < |facts| && facts[i].dataTs == c.maxInputDataTs)
    && (forall i :: 0 <= i < |facts| ==> c.dataTs <= facts[i].dataTs <= c.maxInputDataTs)
    && c.valueHash == ValueHash(c.value)
    && c.fingerprint == OfInputs(multiset(seq(|facts|, i requires 0 <= i < |facts| =>
                                                Input(facts[i].id, facts[i].dataTs, facts[i].hash))))
    && (c.availableAt.Some? <==> forall i :: 0 <= i < |facts| ==> facts[i].availableAt.Some?)
    && (c.availableAt.Some? ==>
          && (exists i :: 0 <= i < |facts| && facts[i].availableAt == c.availableAt)
          && forall i :: 0 <= i < |facts| && facts[i].availableAt.Some? ==>
               facts[i].availableAt.value <= c.availableAt.value)
    && (c.availabilitySource.None? <==> c.availableAt.None?)
    && (c.availabilitySource == Some(SourceProvided) <==>
          c.availableAt.Some? && forall i :: 0 <= i < |facts| ==> facts[i].availabilitySource == Some(SourceProvided))
  }

  lemma {:induction false} MinIsOne(facts: seq<Fact>) returns (i: nat)
    requires facts != []
    ensures i < |facts| && facts[i].dataTs == MinTs(facts) && forall j :: 0 <= j < |facts| ==>
      MinTs(facts) <= facts[j].dataTs
  {
    i := |facts| - 1;
    if |facts| > 1 {
      var front := MinIsOne(facts[..|facts| - 1]);
      i := if facts[front].dataTs <= facts[i].dataTs then front else i;
      assert forall j :: 0 <= j < |facts| - 1 ==> facts[..|facts| - 1][j] == facts[j];
    }
  }

  lemma {:induction false} MaxIsOne(facts: seq<Fact>) returns (i: nat)
    requires facts != []
    ensures i < |facts| && facts[i].dataTs == MaxTs(facts) && forall j :: 0 <= j < |facts| ==>
      facts[j].dataTs <= MaxTs(facts)
  {
    i := |facts| - 1;
    if |facts| > 1 {
      var front := MaxIsOne(facts[..|facts| - 1]);
      i := if facts[front].dataTs >= facts[i].dataTs then front else i;
      assert forall j :: 0 <= j < |facts| - 1 ==> facts[..|facts| - 1][j] == facts[j];
    }
  }

  lemma {:induction false} LatestIsOne(facts: seq<Fact>) returns (i: nat)
    requires AllAvailable(facts)
    ensures i < |facts| && facts[i].availableAt == Some(MaxAvailability(facts))
    ensures forall j :: 0 <= j < |facts| ==>
      facts[j].availableAt.Some? && facts[j].availableAt.value <= MaxAvailability(facts)
  {
    i := |facts| - 1;
    assert facts[i] in facts;
    if |facts| > 1 {
      assert forall f :: f in facts[..|facts| - 1] ==> f in facts;
      var front := LatestIsOne(facts[..|facts| - 1]);
      i := if facts[front].availableAt.value >= facts[i].availableAt.value then front else i;
      assert forall j :: 0 <= j < |facts| - 1 ==> facts[..|facts| - 1][j] == facts[j];
    }
  }

  lemma SummariseMeans(v: Value, facts: seq<Fact>, degraded: bool)
    requires facts != []
    ensures Summary(Summarise(v, facts, degraded), facts)
    ensures Summarise(v, facts, degraded).value == v && Summarise(v, facts, degraded).degraded == degraded
  {
    var c := Summarise(v, facts, degraded);
    var _ := MinIsOne(facts);
    var _ := MaxIsOne(facts);
    assert forall i :: 0 <= i < |facts| ==> facts[i] in facts;
    if AllAvailable(facts) {
      var _ := LatestIsOne(facts);
    }
    assert InputsOf(facts)
      == seq(|facts|, i requires 0 <= i < |facts| => Input(facts[i].id, facts[i].dataTs, facts[i].hash));
  }

  // ---------------------------------------------------------------------------------------
  // The denotation of a feature
  // ---------------------------------------------------------------------------------------

  lemma DenotationUnfolds(env: Env, name: string)
    requires name in env.features && name !in env.given
    ensures Denotation(env, name) == EvalFeature(env, Meaning(env), env.features[name])
  {
    MeaningIsSolution(env);
    assert Wanted(name);
  }

  /** Some edge of the feature fails or cuts it off. */
  ghost predicate SomeEdgeStops(env: Env, f: FeatureDef) { exists d :: d in f.deps && Stops(env, Meaning(env), d) }

  lemma {:induction false} SomeStopIsFirst(env: Env, t: Table, deps: seq<Dependency>) returns (i: nat)
    requires exists d :: d in deps && Stops(env, t, d)
    ensures Decides(env, t, deps, i)
  {
    hide Stops;
    var d :| d in deps && Stops(env, t, d);
    var k :| 0 <= k < |deps| && deps[k] == d;
    if j :| 0 <= j < k && Stops(env, t, deps[j]) {
      assert deps[..k][j] == deps[j] && deps[j] in deps[..k];
      i := SomeStopIsFirst(env, t, deps[..k]);
    } else {
      i := k;
    }
  }

  /** The arguments that the engine builds from a pass without a stop. */
  lemma ArgumentsOf(env: Env, f: FeatureDef, r: DepsOutcome)
    requires AllLoaded(env, f) && Gathered(env, Meaning(env), f.deps, r)
    ensures forall n :: n in r.order <==> Uses(env, f, n)
    ensures forall n :: n in r.order <==> n in r.comps
    ensures forall n :: n in r.comps ==> Denotation(env, n) == Computed(r.comps[n])
    ensures NoDup(r.order) && Arguments(env, f, Payloads(env, f), ValuesOf(r.comps))
  {
    hide Meaning, Lookup;
  }

  lemma FactAt(env: Env, f: FeatureDef, order: seq<string>, comps: map<string, Computation>, i: nat)
    requires AllStamped(env, f) && forall d :: d in order ==> d in env.features && d in comps
    ensures |Facts(env, f, order, comps)| == |f.inputs| + |order|
    ensures i < |f.inputs| ==>
      f.inputs[i] in env.stamps && Facts(env, f, order, comps)[i] == SourceFact(env.stamps, f.inputs[i])
    ensures i < |order| ==>
      order[i] in comps && Facts(env, f, order, comps)[|f.inputs| + i] == DepFact(env.features, comps, order[i])
  {
    if i < |f.inputs| {
      assert f.inputs[i] in f.inputs;
    }
    if i < |order| {
      assert order[i] in order;
    }
  }

  lemma SourcesAreListed(env: Env, f: FeatureDef, order: seq<string>, comps: map<string, Computation>)
    requires AllStamped(env, f) && forall d :: d in order ==> d in env.features && d in comps
    ensures |Facts(env, f, order, comps)| == |f.inputs| + |order| && ListsSources(env, f, Facts(env, f, order, comps))
  {
    FactAt(env, f, order, comps, 0);
    hide Facts;
    forall i | 0 <= i < |f.inputs|
      ensures f.inputs[i] in env.stamps && Facts(env, f, order, comps)[i] == SourceFact(env.stamps, f.inputs[i])
    {
      FactAt(env, f, order, comps, i);
    }
  }

  lemma UsedAreListed(env: Env, f: FeatureDef, order: seq<string>, comps: map<string, Computation>)
    requires AllStamped(env, f)
    requires forall d :: d in order ==> d in env.features && d in comps && Denotation(env, d) == Computed(comps[d])
    ensures |Facts(env, f, order, comps)| == |f.inputs| + |order|
    ensures ListsUsed(env, f, order, Facts(env, f, order, comps))
  {
    hide Denotation;
    FactAt(env, f, order, comps, 0);
    hide Facts;
    forall i | 0 <= i < |order|
      ensures order[i] in comps
      ensures Facts(env, f, order, comps)[|f.inputs| + i] == DepFact(env.features, comps, order[i])
    {
      FactAt(env, f, order, comps, i);
    }
    assert forall i :: 0 <= i < |order| ==> order[i] in order;
  }

  lemma FactsAreInputs(env: Env, f: FeatureDef, r: DepsOutcome)
    requires AllLoaded(env, f) && AllStamped(env, f) && Gathered(env, Meaning(env), f.deps, r)
    requires forall n :: Uses(env, f, n) ==> n in env.features
    ensures forall d :: d in r.order ==> d in env.features && d in r.comps
    ensures IsInputList(env, f, r.order, Facts(env, f, r.order, r.comps))
  {
    ArgumentsOf(env, f, r);
    hide Gathered, Denotation, Arguments, Uses, Payloads, ValuesOf, Meaning, Lookup, Facts, ListsSources, ListsUsed;
    SourcesAreListed(env, f, r.order, r.comps);
    UsedAreListed(env, f, r.order, r.comps);
  }

  /** A computed feature: its user function was called with the report of each declared source and the
      value of each dependency that has one; no edge failed or cut it off; it is degraded exactly if
      an edge degrades it; and its metadata summarises the consumed inputs. */
  lemma ComputedMeans(env: Env, name: string)
    returns (payloads: map<string, Value>, values: map<string, Value>, used: seq<string>, facts: seq<Fact>)
    requires name in env.features && name !in env.given && Denotation(env, name).Computed?
    ensures var f, c := env.features[name], Denotation(env, name).comp;
      && Arguments(env, f, payloads, values)
      && f.udf in env.udfs && env.udfs[f.udf](payloads, values) == Some(c.value)
      && (forall d :: d in f.deps ==> !Stops(env, Meaning(env), d))
      && (c.degraded <==> exists d :: d in f.deps && Degrades(env, d, Denotation(env, d.feature)))
      && AllStamped(env, f) && IsInputList(env, f, used, facts) && Summary(c, facts)
  {
    var f, m := env.features[name], Meaning(env);
    DenotationUnfolds(env, name);
    hide Meaning;
    if SomeEdgeStops(env, f) {
      var i := SomeStopIsFirst(env, m, f.deps);
      FirstStopDecides(env, m, f.deps, i);
    }
    PassGathers(env, m, f.deps);
    payloads, values, used, facts := ComputedFrom(env, f, EvalDeps(env, m, f.deps));
  }

  lemma ComputedFrom(env: Env, f: FeatureDef, r: DepsOutcome)
    returns (payloads: map<string, Value>, values: map<string, Value>, used: seq<string>, facts: seq<Fact>)
    requires AllLoaded(env, f) && Gathered(env, Meaning(env), f.deps, r) && Assemble(env, f, r).Computed?
    ensures var c := Assemble(env, f, r).comp;
      && Arguments(env, f, payloads, values)
      && f.udf in env.udfs && env.udfs[f.udf](payloads, values) == Some(c.value)
      && (c.degraded <==> exists d :: d in f.deps && Degrades(env, d, Denotation(env, d.feature)))
      && AllStamped(env, f) && IsInputList(env, f, used, facts) && Summary(c, facts)
  {
    hide Meaning, Summary, Summarise, Facts;
    ArgumentsOf(env, f, r);
    FactsAreInputs(env, f, r);
    payloads, values, used, facts := Payloads(env, f), ValuesOf(r.comps), r.order, Facts(env, f, r.order, r.comps);
    SummariseMeans(env.udfs[f.udf](payloads, values).value, facts, r.degraded);
  }

  /** The status that a request records for a feature: skipped without a value, degraded if an edge
      degrades it, and otherwise ok. */
  lemma NodeStatusMeans(env: Env, ctx: RequestContext, name: string)
    requires ctx.Agrees(env, Meaning(env)) && name in ctx.statuses && name in env.features && name !in env.given
    ensures ctx.statuses[name] == SkippedNode <==> Denotation(env, name) == Skipped
    ensures ctx.statuses[name] == Degraded <==>
      Denotation(env, name).Computed? &&
      exists d :: d in env.features[name].deps && Degrades(env, d, Denotation(env, d.feature))
  {
    if Denotation(env, name).Computed? {
      var payloads, values, used, facts := ComputedMeans(env, name);
    }
    hide Meaning, Degrades;
  }

  /** A feature with an unreadable source fails before any edge is looked at. */
  lemma UnloadedFails(env: Env, name: string)
    requires name in env.features && name !in env.given
    ensures Denotation(env, name) == Failed(SourceUnavailable) || AllLoaded(env, env.features[name])
  {
    DenotationUnfolds(env, name);
  }

  /** The first edge that fails or cuts off decides: its error is the feature's, or the feature is skipped. */
  lemma StoppedMeans(env: Env, name: string, i: nat)
    requires name in env.features && name !in env.given && AllLoaded(env, env.features[name])
    requires Decides(env, Meaning(env), env.features[name].deps, i)
    ensures var o := Denotation(env, env.features[name].deps[i].feature);
      Denotation(env, name) == if o.Failed? then o else Skipped
  {
    DenotationUnfolds(env, name);
    hide Meaning;
    FirstStopDecides(env, Meaning(env), env.features[name].deps, i);
  }

  /** Without such an edge, the checks in the order in which the engine makes them: stamps, known
      dependencies, the user function, its answer, and that there is any input. */
  lemma UnstoppedMeans(env: Env, name: string)
    requires name in env.features && name !in env.given && AllLoaded(env, env.features[name])
    requires forall d :: d in env.features[name].deps ==> !Stops(env, Meaning(env), d)
    ensures ChecksDecide(env, env.features[name], Denotation(env, name))
  {
    var f := env.features[name];
    DenotationUnfolds(env, name);
    hide Meaning;
    PassGathers(env, Meaning(env), f.deps);
    CheckAll(env, f, EvalDeps(env, Meaning(env), f.deps));
  }

  lemma UnknownUse(env: Env, f: FeatureDef, order: seq<string>)
    requires forall n :: n in order <==> Uses(env, f, n)
    ensures (exists n :: Uses(env, f, n) && n !in env.features) <==> exists d :: d in order && d !in env.features
  {
    hide Uses;
  }

  lemma CheckAll(env: Env, f: FeatureDef, r: DepsOutcome)
    requires AllLoaded(env, f) && Gathered(env, Meaning(env), f.deps, r)
    ensures ChecksDecide(env, f, Assemble(env, f, r))
  {
    ArgumentsOf(env, f, r);
    hide Gathered, Uses, Arguments, Payloads, ValuesOf, Meaning, Facts, Summarise, Denotation, AnswerDecides;
    UnknownUse(env, f, r.order);
    if AllStamped(env, f) && (forall d :: d in r.order ==> d in env.features) && f.udf in env.udfs {
      AnswerCheck(env, f, r);
      hide Assemble;
      assert Arguments(env, f, Payloads(env, f), ValuesOf(r.comps));
    }
  }

  lemma AnswerCheck(env: Env, f: FeatureDef, r: DepsOutcome)
    requires AllLoaded(env, f) && AllStamped(env, f) && f.udf in env.udfs && r.DepsReady?
    requires forall n :: n in r.order <==> n in r.comps
    requires forall d :: d in r.order ==> d in env.features
    ensures AnswerDecides(env, f, Payloads(env, f), ValuesOf(r.comps), Assemble(env, f, r))
  {
    hide Summary, AllAvailable, AllTrusted;
    FactAt(env, f, r.order, r.comps, 0);
    var facts, values := Facts(env, f, r.order, r.comps), ValuesOf(r.comps);
    assert facts == [] <==> f.inputs == [] && values == map[] by {
      if r.order != [] {
        assert r.order[0] in r.order && r.order[0] in values;
      } else {
        assert forall n :: n !in r.comps;
      }
    }
    hide Facts, Payloads, ValuesOf;
    var v := env.udfs[f.udf](Payloads(env, f), values);
    if v.Some? && facts != [] {
      SummariseMeans(v.value, facts, r.degraded);
    }
  }

  ghost predicate ChecksDecide(env: Env, f: FeatureDef, o: Outcome) {
    if !AllStamped(env, f) then o == Failed(MissingStamp)
    else if exists n :: Uses(env, f, n) && n !in env.features then o == Failed(Error.UnknownFeature)
    else if f.udf !in env.udfs then o == Failed(UnknownUdf)
    else exists payloads, values :: Arguments(env, f, payloads, values) && AnswerDecides(env, f, payloads, values, o)
  }

  /** What the answer of the user function makes of the feature. */
  predicate AnswerDecides(env: Env, f: FeatureDef, payloads: map<string, Value>, values: map<string, Value>, o: Outcome)
    requires f.udf in env.udfs
  {
    var answer := env.udfs[f.udf](payloads, values);
    if answer.None? then o == Failed(UdfRaised)
    else if f.inputs == [] && values == map[] then o == Failed(NoInputs)
    else o.Computed? && o.comp.value == answer.value
  }
}
