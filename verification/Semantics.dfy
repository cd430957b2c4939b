/** What a feature means: a pure denotation of the compute DAG, with no cache, no recursion
    stack and no evaluation order. Engine.dfy proves that the memoised resolver computes it. */
module Semantics {
  import opened Domain
  import opened Registry
  import Fixpoint

  /** A computed feature with the metadata derived from its own inputs. */
  datatype Computation = Computation(
    value: Value, dataTs: Time, maxInputDataTs: Time, valueHash: Digest, fingerprint: Fingerprint,
    degraded: bool, availableAt: Option<Time>, availabilitySource: Option<AvailabilitySource>)

  datatype Error =
    | UnknownFeature | DependencyCycle | SourceUnavailable | MissingStamp | UnknownUdf | UdfRaised | NoInputs
    | NegativeSafetyGap

  datatype Outcome = Computed(comp: Computation) | Skipped | Failed(error: Error)

  /** A user function maps source payloads and dependency values to a value, or raises. */
  type UdfBody = (map<string, Value>, map<string, Value>) -> Option<Value>

  /** Everything one request is evaluated against. `given` holds the computations that were
      already in the context before evaluation (recompute waves read them from history). */
  datatype Env = Env(
    features: FeatureTable, udfs: map<string, UdfBody>, loader: string -> Option<Value>,
    stamps: map<string, SourceStamp>, calcTs: Time, given: map<string, Computation>)

  /** One consumed input: a source report or a dependency. */
  datatype Fact = Fact(
    id: InputId, dataTs: Time, hash: Digest,
    availableAt: Option<Time>, availabilitySource: Option<AvailabilitySource>)

  // ---------------------------------------------------------------------------------------
  // One feature, given the outcomes of its dependencies
  // ---------------------------------------------------------------------------------------

  predicate EdgeIsStale(d: Dependency, inputDataTs: Time, calcTs: Time) {
    d.maxInputAge.Some? && calcTs - inputDataTs > d.maxInputAge.value * SECOND
  }

  /** The dependency pass of one feature: an insertion-ordered dictionary of usable
      dependencies and the degraded flag, or the reason it stopped. */
  datatype DepsOutcome =
    | DepsReady(order: seq<string>, comps: map<string, Computation>, degraded: bool)
    | DepsSkip
    | DepsFailed(error: Error)

  const NO_DEPS: DepsOutcome := DepsReady([], map[], false)

  function AddDep(acc: DepsOutcome, d: Dependency, o: Outcome, calcTs: Time): DepsOutcome {
    if !acc.DepsReady? then acc
    else match o
      case Failed(e) => DepsFailed(e)
      case Skipped => if d.required then DepsSkip else acc.(degraded := true)
      case Computed(c) =>
        var stale := EdgeIsStale(d, c.dataTs, calcTs);
        if stale && d.required then DepsSkip
        else DepsReady(if d.feature in acc.comps then acc.order else acc.order + [d.feature],
                       acc.comps[d.feature := c],
                       acc.degraded || stale || c.degraded)
  }

  function SourceFact(stamps: map<string, SourceStamp>, source: string): Fact
    requires source in stamps
  {
    var s := stamps[source];
    Fact(SourceInput(source), s.reportTs, s.contentHash, s.availableAt, s.availabilitySource)
  }

  function DepFact(features: FeatureTable, comps: map<string, Computation>, dep: string): Fact
    requires dep in features && dep in comps
  {
    var c := comps[dep];
    Fact(FeatureInput(dep, features[dep].version), c.dataTs, c.valueHash, c.availableAt, c.availabilitySource)
  }

  function Facts(env: Env, f: FeatureDef, order: seq<string>, comps: map<string, Computation>): seq<Fact>
    requires forall s :: s in f.inputs ==> s in env.stamps
    requires forall d :: d in order ==> d in env.features && d in comps
  {
    seq(|f.inputs|, i requires 0 <= i < |f.inputs| => SourceFact(env.stamps, f.inputs[i])) +
    seq(|order|, i requires 0 <= i < |order| => DepFact(env.features, comps, order[i]))
  }

  function MinTs(facts: seq<Fact>): Time
    requires facts != []
  {
    if |facts| == 1 then facts[0].dataTs else Min(MinTs(facts[..|facts| - 1]), facts[|facts| - 1].dataTs)
  }

  function MaxTs(facts: seq<Fact>): Time
    requires facts != []
  {
    if |facts| == 1 then facts[0].dataTs else Max(MaxTs(facts[..|facts| - 1]), facts[|facts| - 1].dataTs)
  }

  predicate AllAvailable(facts: seq<Fact>) {
    facts != [] && forall f :: f in facts ==> f.availableAt.Some?
  }

  predicate AllTrusted(facts: seq<Fact>) {
    AllAvailable(facts) && forall f :: f in facts ==> f.availabilitySource == Some(SourceProvided)
  }

  function MaxAvailability(facts: seq<Fact>): Time
    requires AllAvailable(facts)
  {
    if |facts| == 1 then facts[0].availableAt.value
    else Max(MaxAvailability(facts[..|facts| - 1]), facts[|facts| - 1].availableAt.value)
  }

  function InputsOf(facts: seq<Fact>): seq<Input> {
    seq(|facts|, i requires 0 <= i < |facts| => Input(facts[i].id, facts[i].dataTs, facts[i].hash))
  }

  function Summarise(v: Value, facts: seq<Fact>, degraded: bool): Computation
    requires facts != []
  {
    Computation(v, MinTs(facts), MaxTs(facts), ValueHash(v), OfInputs(multiset(InputsOf(facts))), degraded,
                if AllAvailable(facts) then Some(MaxAvailability(facts)) else None,
                if AllTrusted(facts) then Some(SourceProvided)
                else if AllAvailable(facts) then Some(IngestionTime) else None)
  }

  function Payloads(env: Env, f: FeatureDef): map<string, Value>
    requires forall s :: s in f.inputs ==> env.loader(s).Some?
  {
    map s | s in f.inputs :: env.loader(s).value
  }

  function ValuesOf(comps: map<string, Computation>): map<string, Value> {
    map d | d in comps :: comps[d].value
  }

  /** The part of the evaluation after the dependencies: stamps, user function, metadata. */
  function Assemble(env: Env, f: FeatureDef, deps: DepsOutcome): Outcome
    requires forall s :: s in f.inputs ==> env.loader(s).Some?
    requires deps.DepsReady? ==> forall d :: d in deps.order ==> d in deps.comps
  {
    match deps
    case DepsSkip => Skipped
    case DepsFailed(e) => Failed(e)
    case DepsReady(order, comps, degraded) =>
      if exists s :: s in f.inputs && s !in env.stamps then Failed(MissingStamp)
      else if exists d :: d in order && d !in env.features then Failed(UnknownFeature)
      else if f.udf !in env.udfs then Failed(UnknownUdf)
      else
        var v := env.udfs[f.udf](Payloads(env, f), ValuesOf(comps));
        var facts := Facts(env, f, order, comps);
        if v.None? then Failed(UdfRaised)
        else if facts == [] then Failed(NoInputs)
        else Computed(Summarise(v.value, facts, degraded))
  }

  // ---------------------------------------------------------------------------------------
  // The whole DAG: the least table of outcomes closed under one-feature evaluation
  // ---------------------------------------------------------------------------------------

  type Table = Fixpoint.Table<Outcome>

  /** The outcome of a name relative to a table of outcomes for the registry's features. */
  function Lookup(env: Env, t: Table, name: string): Outcome {
    if name in env.given then Computed(env.given[name])
    else if name !in env.features || name !in t then Failed(UnknownFeature)
    else t[name]
  }

  function EvalDeps(env: Env, t: Table, deps: seq<Dependency>): (r: DepsOutcome)
    ensures r.DepsReady? ==> forall d :: d in r.order <==> d in r.comps
  {
    if deps == [] then NO_DEPS
    else
      var last := deps[|deps| - 1];
      AddDep(EvalDeps(env, t, deps[..|deps| - 1]), last, Lookup(env, t, last.feature), env.calcTs)
  }

  function EvalFeature(env: Env, t: Table, f: FeatureDef): Outcome {
    if exists s :: s in f.inputs && env.loader(s).None? then Failed(SourceUnavailable)
    else Assemble(env, f, EvalDeps(env, t, f.deps))
  }

  function Next(env: Env, t: Table): Table {
    map n | n in env.features :: EvalFeature(env, t, env.features[n])
  }

  function StepOf(env: Env): Fixpoint.Step<Outcome> { t => Next(env, t) }

  const CYCLE: Outcome := Failed(DependencyCycle)

  /** Outcomes that unfold at most `k` levels of dependencies; deeper ones read as a cycle. */
  function Unfold(env: Env, k: nat): Table {
    Fixpoint.Iterate(CYCLE, env.features.Keys, StepOf(env), k)
  }

  /** The meaning of every feature of the registry. */
  function Meaning(env: Env): Table { Unfold(env, |env.features.Keys|) }

  function Denotation(env: Env, name: string): Outcome { Lookup(env, Meaning(env), name) }

  // ---------------------------------------------------------------------------------------
  // The meaning is the least solution of the recursive equation
  // ---------------------------------------------------------------------------------------

  lemma {:induction false} EvalDepsRefines(env: Env, t: Table, t': Table, deps: seq<Dependency>)
    requires Fixpoint.Refines(CYCLE, t, t')
    ensures EvalDeps(env, t, deps) == DepsFailed(DependencyCycle) || EvalDeps(env, t, deps) == EvalDeps(env, t', deps)
  {
    if deps != [] {
      EvalDepsRefines(env, t, t', deps[..|deps| - 1]);
    }
  }

  lemma StepIsMonotone(env: Env)
    ensures Fixpoint.Monotone(CYCLE, env.features.Keys, StepOf(env))
  {
    forall t: Table, t': Table | t.Keys == env.features.Keys && Fixpoint.Refines(CYCLE, t, t')
      ensures Fixpoint.Refines(CYCLE, StepOf(env)(t), StepOf(env)(t'))
    {
      forall n | n in env.features
        ensures Next(env, t)[n] == CYCLE || Next(env, t)[n] == Next(env, t')[n]
      {
        EvalDepsRefines(env, t, t', env.features[n].deps);
      }
    }
  }

  /** Unfolding as many levels as there are features is enough: the meaning satisfies the
      recursive equation that the resolver follows. */
  lemma MeaningIsFixpoint(env: Env)
    ensures Meaning(env).Keys == env.features.Keys
    ensures Next(env, Meaning(env)) == Meaning(env)
  {
    var names := env.features.Keys;
    StepIsMonotone(env);
    Fixpoint.Stabilises(CYCLE, names, StepOf(env));
    Fixpoint.IterateRefines(CYCLE, names, StepOf(env), 0, |names|);
  }

  /** It is the least solution: any other one agrees with it on every feature that the meaning
      does not report as caught in a cycle. */
  lemma MeaningIsLeast(env: Env, t: Table)
    requires t.Keys == env.features.Keys && Next(env, t) == t
    ensures Fixpoint.Refines(CYCLE, Meaning(env), t)
  {
    StepIsMonotone(env);
    Fixpoint.IterateIsLeast(CYCLE, env.features.Keys, StepOf(env), t, |env.features.Keys|);
  }

  /** Marks a name whose defining equation is wanted. */
  ghost predicate Wanted(name: string) { true }

  /** `m` satisfies the defining equation of every feature. */
  ghost predicate Solution(env: Env, m: Table) {
    && m.Keys == env.features.Keys
    && forall n {:trigger Wanted(n)} :: Wanted(n) && n in m ==> m[n] == EvalFeature(env, m, env.features[n])
  }

  lemma MeaningIsSolution(env: Env)
    ensures Solution(env, Meaning(env))
  {
    MeaningIsFixpoint(env);
    forall n | Wanted(n) && n in Meaning(env)
      ensures Meaning(env)[n] == EvalFeature(env, Meaning(env), env.features[n])
    {
      assert Next(env, Meaning(env))[n] == EvalFeature(env, Meaning(env), env.features[n]);
    }
  }
}
