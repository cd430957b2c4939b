/** Recomputing one dependent feature from offline history (feature_store.py). */
module Recompute {
  import opened Domain
  import opened Registry
  import opened Semantics
  import opened Engine
  import opened Pit

  /** What a stored row looks like to the engine. Rows without metadata fall back on their own
      data time and value; a degraded row reads as an ordinary one. */
  function ComputationOf(r: FeatureResult): Computation {
    Computation(r.value, r.dataTs,
                if r.maxInputDataTs.Some? then r.maxInputDataTs.value else r.dataTs,
                if r.valueHash.Some? then r.valueHash.value else ValueHash(r.value),
                if r.fingerprint.Some? then r.fingerprint.value else OfValue(r.value),
                false, r.availableAt, r.availabilitySource)
  }

  datatype Recomputed = Row(result: FeatureResult) | NoRow | Error(error: Semantics.Error)

  /** The dependency rows read before the engine runs. */
  datatype Prefill = Filled(given: map<string, Computation>) | MissingInput | UnknownInput

  function DepQuery(features: FeatureTable, view: ViewRef, entity: EntityKey, d: Dependency): Query
    requires d.feature in features
  {
    Query(entity, d.feature, ResolvedVersion(d, features[d.feature]), view)
  }

  function PrefillDep(features: FeatureTable, view: ViewRef, entity: EntityKey, d: Dependency,
                      h: History, calcTs: Time, safetyGap: nat, acc: Prefill): Prefill {
    if !acc.Filled? then acc
    else if d.feature !in features then UnknownInput
    else
      var rec := PitRecord(h, DepQuery(features, view, entity, d), calcTs, safetyGap);
      if rec.None? then MissingInput else Filled(acc.given[d.feature := ComputationOf(rec.value.result)])
  }

  function PrefillDeps(features: FeatureTable, view: ViewRef, entity: EntityKey, deps: seq<Dependency>,
                       h: History, calcTs: Time, safetyGap: nat): Prefill {
    if deps == [] then Filled(map[])
    else
      var acc := PrefillDeps(features, view, entity, deps[..|deps| - 1], h, calcTs, safetyGap);
      PrefillDep(features, view, entity, deps[|deps| - 1], h, calcTs, safetyGap, acc)
  }

  /** The wave has no report to read: every source load fails. */
  function NoSource(name: string): Option<Value> { None }

  function WaveEnv(features: FeatureTable, udfs: map<string, UdfBody>, calcTs: Time,
                   given: map<string, Computation>): Env {
    Env(features, udfs, NoSource, map[], calcTs, given)
  }

  function Answer(r: Response, name: string): Recomputed {
    match r
    case Raised(e) => Error(e)
    case Results(rs) => if name in rs then Row(rs[name]) else NoRow
  }

  /** What a recompute returns, as a function of the history. */
  function RecomputeFrom(features: FeatureTable, udfs: map<string, UdfBody>, view: ViewRef, entity: EntityKey,
                         name: string, h: History, calcTs: Time, safetyGap: nat): Recomputed {
    if name !in features then Error(UnknownFeature)
    else match PrefillDeps(features, view, entity, features[name].deps, h, calcTs, safetyGap)
      case UnknownInput => Error(UnknownFeature)
      case MissingInput => NoRow
      case Filled(given) =>
        EvaluateOver(WaveEnv(features, udfs, calcTs, given), entity, name)
  }

  function EvaluateOver(env: Env, entity: EntityKey, name: string): Recomputed {
    Answer(Respond(env, Meaning(env), entity, [name]), name)
  }

  /** The answer when the engine does not run. */
  function PrefillStop(p: Prefill): Option<Recomputed> {
    match p
    case Filled(_) => None
    case MissingInput => Some(NoRow)
    case UnknownInput => Some(Error(UnknownFeature))
  }

  /** With a negative safety gap the first dependency decides: an unknown feature and a stored row
      are errors, and without a row the input is missing. */
  function NegativeGapStop(features: FeatureTable, view: ViewRef, entity: EntityKey, deps: seq<Dependency>,
                           h: History): Option<Recomputed> {
    if deps == [] then None
    else if deps[0].feature !in features then Some(Error(UnknownFeature))
    else if HasRow(h, DepQuery(features, view, entity, deps[0])) then Some(Error(NegativeSafetyGap))
    else Some(NoRow)
  }

  function RecomputeWithNegativeGap(features: FeatureTable, udfs: map<string, UdfBody>, view: ViewRef,
                                    entity: EntityKey, name: string, h: History, calcTs: Time): Recomputed {
    if name !in features then Error(UnknownFeature)
    else
      var stop := NegativeGapStop(features, view, entity, features[name].deps, h);
      if stop.Some? then stop.value else EvaluateOver(WaveEnv(features, udfs, calcTs, map[]), entity, name)
  }

  function RecomputeWith(features: FeatureTable, udfs: map<string, UdfBody>, view: ViewRef, entity: EntityKey,
                         name: string, h: History, calcTs: Time, safetyGap: int): Recomputed {
    if safetyGap < 0 then RecomputeWithNegativeGap(features, udfs, view, entity, name, h, calcTs)
    else RecomputeFrom(features, udfs, view, entity, name, h, calcTs, safetyGap)
  }

  lemma {:induction false} PrefillStops(features: FeatureTable, view: ViewRef, entity: EntityKey, deps: seq<Dependency>,
                                        h: History, calcTs: Time, safetyGap: nat, i: nat)
    requires i <= |deps| && !PrefillDeps(features, view, entity, deps[..i], h, calcTs, safetyGap).Filled?
    ensures PrefillDeps(features, view, entity, deps, h, calcTs, safetyGap)
         == PrefillDeps(features, view, entity, deps[..i], h, calcTs, safetyGap)
  {
    if i == |deps| {
      assert deps[..i] == deps;
    } else {
      assert deps[..|deps| - 1][..i] == deps[..i];
      PrefillStops(features, view, entity, deps[..|deps| - 1], h, calcTs, safetyGap, i);
    }
  }

  class FeatureStore {
    const view: ViewRef
    const core: ComputeCore
    const offline: OfflineStore

    constructor (view: ViewDef, udfs: map<string, UdfBody>, offline: OfflineStore)
      ensures this.view == view.ref && this.offline == offline
      ensures core.features == ByName(view.features) && core.udfs == udfs
    {
      this.view, this.offline := view.ref, offline;
      core := new ComputeCore(ByName(view.features), udfs);
    }

    /** Read the dependencies into a fresh context, or stop with the answer. */
    method PrefillContext(entity: EntityKey, deps: seq<Dependency>, calcTs: Time, safetyGap: int)
      returns (stop: Option<Recomputed>, ctx: RequestContext)
      ensures fresh(ctx) && ctx.Valid() && ctx.loader == NoSource
      ensures forall n :: n in ctx.statuses ==> n in ctx.features
      ensures safetyGap < 0 ==> stop == NegativeGapStop(core.features, view, entity, deps, offline.history)
      ensures safetyGap < 0 && stop.None? ==> ctx.features == map[]
      ensures safetyGap >= 0 ==>
        var prefill := PrefillDeps(core.features, view, entity, deps, offline.history, calcTs, safetyGap);
        stop == PrefillStop(prefill) && (stop.None? ==> prefill == Filled(ctx.features))
    {
      hide PitRecord, HasRow, DepQuery, ComputationOf;
      ctx := new RequestContext(NoSource);
      for i := 0 to |deps|
        invariant ctx.Valid() && ctx.loader == NoSource && fresh(ctx)
        invariant forall n :: n in ctx.statuses ==> n in ctx.features
        invariant safetyGap < 0 ==> i == 0 && ctx.features == map[]
        invariant safetyGap >= 0 ==>
          PrefillDeps(core.features, view, entity, deps[..i], offline.history, calcTs, safetyGap)
            == Filled(ctx.features)
      {
        var d := deps[i];
        assert deps[..i + 1][..i] == deps[..i];
        if d.feature !in core.features {
          stop := Some(Error(UnknownFeature));
        } else {
          var reading := offline.GetPit(DepQuery(core.features, view, entity, d), calcTs, safetyGap);
          if reading.Refused? {
            stop := Some(Error(NegativeSafetyGap));
          } else if reading.record.None? {
            stop := Some(NoRow);
          } else {
            stop := None;
            ctx.CacheFeature(d.feature, ComputationOf(reading.record.value.result));
          }
        }
        if stop.Some? {
          if safetyGap >= 0 {
            PrefillStops(core.features, view, entity, deps, offline.history, calcTs, safetyGap, i + 1);
          }
          return;
        }
      }
      assert deps[..|deps|] == deps;
      stop := None;
    }

    method ComputeDependentFromOffline(entity: EntityKey, name: string, calcTs: Time, safetyGap: int)
      returns (r: Recomputed)
      ensures r == RecomputeWith(core.features, core.udfs, view, entity, name, offline.history, calcTs, safetyGap)
    {
      hide PrefillDeps, NegativeGapStop, Answer, Respond;
      if name !in core.features {
        return Error(UnknownFeature);
      }
      var stop, ctx := PrefillContext(entity, core.features[name].deps, calcTs, safetyGap);
      if stop.Some? {
        return stop.value;
      }
      ghost var env := WaveEnv(core.features, core.udfs, calcTs, ctx.features);
      var response := core.Compute(entity, [name], ctx, map[], calcTs, env);
      return Answer(response, name);
    }
  }

  // ---------------------------------------------------------------------------------------
  // A recompute evaluates one feature over the rows it read
  // ---------------------------------------------------------------------------------------

  /** The version that the rows read for `dep` have: the pin of its last edge. */
  function PinOf(features: FeatureTable, deps: seq<Dependency>, dep: string): nat
    requires dep in features && exists d :: d in deps && d.feature == dep
  {
    var last := deps[|deps| - 1];
    if last.feature == dep then ResolvedVersion(last, features[dep])
    else
      assert deps == deps[..|deps| - 1] + [last];
      PinOf(features, deps[..|deps| - 1], dep)
  }

  predicate HasEdge(deps: seq<Dependency>, dep: string) { exists d :: d in deps && d.feature == dep }

  lemma {:induction false} PrefillReadsHistory(features: FeatureTable, view: ViewRef, entity: EntityKey,
                                               deps: seq<Dependency>,
                                               h: History, calcTs: Time, safetyGap: nat)
    requires PrefillDeps(features, view, entity, deps, h, calcTs, safetyGap).Filled?
    ensures var given := PrefillDeps(features, view, entity, deps, h, calcTs, safetyGap).given;
      && (forall d :: d in given <==> HasEdge(deps, d))
      && forall d :: d in given ==>
           && d in features
           && var rec := PitRecord(h, Query(entity, d, PinOf(features, deps, d), view), calcTs, safetyGap);
           && rec.Some? && given[d] == ComputationOf(rec.value.result)
  {
    if deps != [] {
      var front, last := deps[..|deps| - 1], deps[|deps| - 1];
      PrefillReadsHistory(features, view, entity, front, h, calcTs, safetyGap);
      assert deps == front + [last];
      var before := PrefillDeps(features, view, entity, front, h, calcTs, safetyGap).given;
      var given := PrefillDeps(features, view, entity, deps, h, calcTs, safetyGap).given;
      forall d | d in given
        ensures d in features && HasEdge(deps, d)
        ensures var rec := PitRecord(h, Query(entity, d, PinOf(features, deps, d), view), calcTs, safetyGap);
          rec.Some? && given[d] == ComputationOf(rec.value.result)
      {
        if d != last.feature {
          assert d in before;
          PinOfFront(features, front, last, d);
        } else {
          PinOfLast(features, front, last);
        }
      }
    }
  }

  lemma PinOfFront(features: FeatureTable, front: seq<Dependency>, last: Dependency, d: string)
    requires d in features && HasEdge(front, d) && d != last.feature
    ensures HasEdge(front + [last], d) && PinOf(features, front + [last], d) == PinOf(features, front, d)
  {
    assert (front + [last])[..|front|] == front;
    var e :| e in front && e.feature == d;
    assert e in front + [last];
  }

  lemma PinOfLast(features: FeatureTable, front: seq<Dependency>, last: Dependency)
    requires last.feature in features
    ensures HasEdge(front + [last], last.feature)
    ensures PinOf(features, front + [last], last.feature) == ResolvedVersion(last, features[last.feature])
  {
    assert last in front + [last];
  }

  /** The dependency pass when every dependency was read beforehand. */
  function DepsFrom(given: map<string, Computation>, deps: seq<Dependency>, calcTs: Time): (r: DepsOutcome)
    requires forall d :: d in deps ==> d.feature in given
    ensures !r.DepsFailed?
    ensures r.DepsReady? ==>
      && (forall d :: d in r.order <==> d in r.comps) &&
        (forall d :: d in r.comps ==> d in given && r.comps[d] == given[d])
      && (forall d :: d in r.order <==> HasEdge(deps, d))
  {
    if deps == [] then NO_DEPS
    else
      var front, last := deps[..|deps| - 1], deps[|deps| - 1];
      assert deps == front + [last];
      AddDep(DepsFrom(given, front, calcTs), last, Computed(given[last.feature]), calcTs)
  }

  lemma {:induction false} EvalDepsFromGiven(env: Env, t: Table, deps: seq<Dependency>)
    requires forall d :: d in deps ==> d.feature in env.given
    ensures EvalDeps(env, t, deps) == DepsFrom(env.given, deps, env.calcTs)
  {
    if deps != [] {
      EvalDepsFromGiven(env, t, deps[..|deps| - 1]);
    }
  }

  /** The outcome of the wave for one feature of a registry without self-dependencies. */
  function WaveOutcome(env: Env, f: FeatureDef): Outcome
    requires forall d :: d in f.deps ==> d.feature in env.given
  {
    if exists s :: s in f.inputs && env.loader(s).None? then Failed(SourceUnavailable)
    else Assemble(env, f, DepsFrom(env.given, f.deps, env.calcTs))
  }

  lemma RespondSingle(env: Env, m: Table, entity: EntityKey, name: string)
    ensures Respond(env, m, entity, [name]) == RespondOne(env, m, entity, Results(map[]), name)
  {
    assert [name][..|[name]| - 1] == [];
    assert Respond(env, m, entity, []) == Results(map[]);
  }

  lemma WaveOutcomeIsMeant(env: Env, m: Table, name: string)
    requires Solution(env, m) && name in env.features && name !in env.given
    requires forall d :: d in env.features[name].deps ==> d.feature in env.given
    ensures Lookup(env, m, name) == WaveOutcome(env, env.features[name])
  {
    assert Wanted(name);
    EvalDepsFromGiven(env, m, env.features[name].deps);
  }

  lemma RecomputeIsOneEvaluation(env: Env, entity: EntityKey, name: string)
    requires name in env.features && name !in env.given
    requires forall d :: d in env.features[name].deps ==> d.feature in env.given
    ensures EvaluateOver(env, entity, name) ==
      match WaveOutcome(env, env.features[name])
      case Failed(e) => Error(e)
      case Skipped => NoRow
      case Computed(c) => Row(ResultOf(env.features, env.calcTs, entity, name, c))
  {
    MeaningIsSolution(env);
    RespondSingle(env, Meaning(env), entity, name);
    WaveOutcomeIsMeant(env, Meaning(env), name);
  }

  /** A recomputed row is the evaluation of its feature over the rows that were selected at the
      computation time, one for each declared dependency. */
  lemma RowExplained(features: FeatureTable, udfs: map<string, UdfBody>, view: ViewRef, entity: EntityKey,
                     name: string, h: History, calcTs: Time, safetyGap: nat)
    returns (given: map<string, Computation>, deps: DepsOutcome, comp: Computation)
    requires name in features && !HasEdge(features[name].deps, name)
    requires RecomputeFrom(features, udfs, view, entity, name, h, calcTs, safetyGap).Row?
    ensures PrefillDeps(features, view, entity, features[name].deps, h, calcTs, safetyGap) == Filled(given)
    ensures forall d :: d in features[name].deps ==> d.feature in given
    ensures features[name].inputs == []
    ensures deps == DepsFrom(given, features[name].deps, calcTs) && deps.DepsReady?
    ensures Assemble(WaveEnv(features, udfs, calcTs, given), features[name], deps) == Computed(comp)
    ensures RecomputeFrom(features, udfs, view, entity, name, h, calcTs, safetyGap)
         == Row(ResultOf(features, calcTs, entity, name, comp))
  {
    var f := features[name];
    given := PrefillDeps(features, view, entity, f.deps, h, calcTs, safetyGap).given;
    PrefillReadsHistory(features, view, entity, f.deps, h, calcTs, safetyGap);
    var env := WaveEnv(features, udfs, calcTs, given);
    RecomputeIsOneEvaluation(env, entity, name);
    deps := DepsFrom(given, f.deps, calcTs);
    comp := WaveRowExplained(features, udfs, calcTs, given, name);
  }

  lemma WaveRowExplained(features: FeatureTable, udfs: map<string, UdfBody>, calcTs: Time,
                         given: map<string, Computation>,
                         name: string) returns (comp: Computation)
    requires name in features && forall d :: d in features[name].deps ==> d.feature in given
    requires WaveOutcome(WaveEnv(features, udfs, calcTs, given), features[name]).Computed?
    ensures features[name].inputs == [] && DepsFrom(given, features[name].deps, calcTs).DepsReady?
    ensures WaveOutcome(WaveEnv(features, udfs, calcTs, given), features[name]) == Computed(comp)
    ensures Assemble(WaveEnv(features, udfs, calcTs, given), features[name],
                     DepsFrom(given, features[name].deps, calcTs)) == Computed(comp)
  {
    var env, f := WaveEnv(features, udfs, calcTs, given), features[name];
    SourcelessHasNoInputs(env, f);
    hide DepsFrom, Assemble;
    comp := WaveOutcome(env, f).comp;
  }

  lemma SourcelessHasNoInputs(env: Env, f: FeatureDef)
    requires env.loader == NoSource
    ensures f.inputs == [] || exists s :: s in f.inputs && env.loader(s).None?
  {
    if f.inputs != [] {
      assert f.inputs[0] in f.inputs;
    }
  }

  // ---------------------------------------------------------------------------------------
  // Availability of a recomputed row
  // ---------------------------------------------------------------------------------------

  lemma {:induction false} MinIsLower(facts: seq<Fact>, i: nat)
    requires i < |facts|
    ensures MinTs(facts) <= facts[i].dataTs
  {
    if i < |facts| - 1 {
      MinIsLower(facts[..|facts| - 1], i);
    }
  }

  lemma {:induction false} MaxAvailabilityBounds(facts: seq<Fact>, i: nat)
    requires AllAvailable(facts) && i < |facts|
    ensures facts[i].availableAt.value <= MaxAvailability(facts)
    ensures exists f :: f in facts && f.availableAt == Some(MaxAvailability(facts))
  {
    var last := |facts| - 1;
    assert facts[last] in facts;
    if last > 0 {
      var front := facts[..last];
      assert forall f :: f in front ==> f in facts;
      MaxAvailabilityBounds(front, if i < last then i else 0);
      var f :| f in front && f.availableAt == Some(MaxAvailability(front));
      assert f in facts;
    }
  }

  lemma AssembledFreshness(env: Env, f: FeatureDef, deps: DepsOutcome)
    requires forall s :: s in f.inputs ==> env.loader(s).Some?
    requires deps.DepsReady? && forall d :: d in deps.order ==> d in deps.comps
    requires Assemble(env, f, deps).Computed?
    ensures forall s :: s in f.inputs ==> s in env.stamps
    ensures forall d :: d in deps.order ==> d in env.features
    ensures var facts := Facts(env, f, deps.order, deps.comps);
      && facts != []
      && Assemble(env, f, deps).comp.dataTs == MinTs(facts)
      && Assemble(env, f, deps).comp.maxInputDataTs == MaxTs(facts)
  {
  }

  /** The effective availability of a computation that is stored at `calcTs`. */
  function StoredAvailability(c: Computation, calcTs: Time): Time {
    if c.availableAt.Some? then c.availableAt.value else calcTs
  }

  /** A computed row is available no earlier than any row it consumed, and no later than the
      latest of them and its own computation time. */
  lemma AssembledAvailability(env: Env, f: FeatureDef, deps: DepsOutcome)
    requires f.inputs == [] && deps.DepsReady?
    requires forall d :: d in deps.order ==>
      d in deps.comps && StoredAvailability(deps.comps[d], env.calcTs) <= env.calcTs
    requires Assemble(env, f, deps).Computed?
    ensures forall d :: d in deps.order ==>
      && Assemble(env, f, deps).comp.dataTs <= deps.comps[d].dataTs
      && (deps.comps[d].availableAt.Some? ==>
            deps.comps[d].availableAt.value <= StoredAvailability(Assemble(env, f, deps).comp, env.calcTs))
      && (deps.comps[d].availableAt.None? ==> Assemble(env, f, deps).comp.availableAt.None?)
    ensures StoredAvailability(Assemble(env, f, deps).comp, env.calcTs) <= env.calcTs
    ensures deps.order != []
  {
    AssembledFreshness(env, f, deps);
    var facts := Facts(env, f, deps.order, deps.comps);
    forall d | d in deps.order
      ensures MinTs(facts) <= deps.comps[d].dataTs
      ensures AllAvailable(facts) ==>
        deps.comps[d].availableAt.Some? && deps.comps[d].availableAt.value <= MaxAvailability(facts)
    {
      ConsumedRowBounds(env, f, deps.order, deps.comps, d);
    }
    if AllAvailable(facts) {
      var _ := LatestRowIsConsumed(env, f, deps.order, deps.comps);
    }
  }

  lemma ConsumedRowBounds(env: Env, f: FeatureDef, order: seq<string>, comps: map<string, Computation>, d: string)
    requires f.inputs == [] && d in order && forall n :: n in order ==> n in comps && n in env.features
    ensures Facts(env, f, order, comps) != []
    ensures MinTs(Facts(env, f, order, comps)) <= comps[d].dataTs
    ensures AllAvailable(Facts(env, f, order, comps)) ==>
      comps[d].availableAt.Some? && comps[d].availableAt.value <= MaxAvailability(Facts(env, f, order, comps))
  {
    var facts := Facts(env, f, order, comps);
    var i :| 0 <= i < |order| && order[i] == d;
    assert facts[i] == DepFact(env.features, comps, d) && facts[i] in facts;
    MinIsLower(facts, i);
    if AllAvailable(facts) {
      MaxAvailabilityBounds(facts, i);
    }
  }

  lemma LatestRowIsConsumed(env: Env, f: FeatureDef, order: seq<string>, comps: map<string, Computation>)
    returns (d: string)
    requires f.inputs == [] && forall n :: n in order ==> n in comps && n in env.features
    requires Facts(env, f, order, comps) != [] && AllAvailable(Facts(env, f, order, comps))
    ensures d in order && comps[d].availableAt == Some(MaxAvailability(Facts(env, f, order, comps)))
  {
    var facts := Facts(env, f, order, comps);
    MaxAvailabilityBounds(facts, 0);
    var fact :| fact in facts && fact.availableAt == Some(MaxAvailability(facts));
    var i :| 0 <= i < |facts| && facts[i] == fact;
    d := order[i];
  }

  /** A recomputed row could itself be selected at its computation time. */
  lemma RowIsEligible(features: FeatureTable, udfs: map<string, UdfBody>, view: ViewRef, entity: EntityKey,
                      name: string, h: History, calcTs: Time, safetyGap: nat)
    requires name in features && !HasEdge(features[name].deps, name)
    requires RecomputeFrom(features, udfs, view, entity, name, h, calcTs, safetyGap).Row?
    ensures Eligible(RecomputeFrom(features, udfs, view, entity, name, h, calcTs, safetyGap).result, calcTs, safetyGap)
  {
    var given, deps, c := RowExplained(features, udfs, view, entity, name, h, calcTs, safetyGap);
    GivenIsEligible(features, view, entity, features[name].deps, h, calcTs, safetyGap);
    AssembledAvailability(WaveEnv(features, udfs, calcTs, given), features[name], deps);
    assert deps.order[0] in deps.order;
  }

  /** With a negative safety gap nothing is ever recomputed: without dependencies there is no input. */
  lemma NegativeGapGivesNoRow(features: FeatureTable, udfs: map<string, UdfBody>, view: ViewRef, entity: EntityKey,
                              name: string, h: History, calcTs: Time)
    ensures !RecomputeWithNegativeGap(features, udfs, view, entity, name, h, calcTs).Row?
  {
    if RecomputeWithNegativeGap(features, udfs, view, entity, name, h, calcTs).Row? {
      var deps := features[name].deps;
      assert deps == [] && PrefillDeps(features, view, entity, deps, h, calcTs, 0) == Filled(map[]);
      var given, ready, c := RowExplained(features, udfs, view, entity, name, h, calcTs, 0);
      AssembledAvailability(WaveEnv(features, udfs, calcTs, given), features[name], ready);
    }
  }

  lemma GivenIsEligible(features: FeatureTable, view: ViewRef, entity: EntityKey, deps: seq<Dependency>,
                        h: History, calcTs: Time, safetyGap: nat)
    requires PrefillDeps(features, view, entity, deps, h, calcTs, safetyGap).Filled?
    ensures var given := PrefillDeps(features, view, entity, deps, h, calcTs, safetyGap).given;
      forall d :: d in given ==>
        given[d].dataTs <= calcTs - safetyGap && StoredAvailability(given[d], calcTs) <= calcTs
  {
    PrefillReadsHistory(features, view, entity, deps, h, calcTs, safetyGap);
    forall d | HasEdge(deps, d) && d in features {
      PitIndexSelects(h, Query(entity, d, PinOf(features, deps, d), view), calcTs, safetyGap);
    }
  }

  // ---------------------------------------------------------------------------------------
  // Freshness never goes backwards
  // ---------------------------------------------------------------------------------------

  lemma {:induction false} ExtremesAreMonotone(a: seq<Fact>, b: seq<Fact>)
    requires |a| == |b| > 0 && forall i :: 0 <= i < |a| ==> a[i].dataTs <= b[i].dataTs
    ensures MinTs(a) <= MinTs(b) && MaxTs(a) <= MaxTs(b)
  {
    if |a| > 1 {
      ExtremesAreMonotone(a[..|a| - 1], b[..|b| - 1]);
    }
  }

  /** Two dependency passes over the same edges use the same dependencies in the same order. */
  lemma {:induction false} SameOrder(given: map<string, Computation>, given': map<string, Computation>,
                                     deps: seq<Dependency>, calcTs: Time, calcTs': Time)
    requires forall d :: d in deps ==> d.feature in given && d.feature in given'
    requires DepsFrom(given, deps, calcTs).DepsReady? && DepsFrom(given', deps, calcTs').DepsReady?
    ensures DepsFrom(given, deps, calcTs).order == DepsFrom(given', deps, calcTs').order
  {
    if deps != [] {
      SameOrder(given, given', deps[..|deps| - 1], calcTs, calcTs');
    }
  }

  lemma FresherFacts(env: Env, env': Env, f: FeatureDef, order: seq<string>,
                     comps: map<string, Computation>, comps': map<string, Computation>)
    requires env.features == env'.features && f.inputs == [] && order != []
    requires forall d :: d in order ==>
      d in env.features && d in comps && d in comps' && comps[d].dataTs <= comps'[d].dataTs
    ensures MinTs(Facts(env, f, order, comps)) <= MinTs(Facts(env', f, order, comps'))
    ensures MaxTs(Facts(env, f, order, comps)) <= MaxTs(Facts(env', f, order, comps'))
  {
    var facts, facts' := Facts(env, f, order, comps), Facts(env', f, order, comps');
    forall i | 0 <= i < |facts|
      ensures facts[i].dataTs <= facts'[i].dataTs
    {
      assert order[i] in order;
    }
    ExtremesAreMonotone(facts, facts');
  }

  lemma FresherInputsGiveFresherOutput(env: Env, env': Env, f: FeatureDef, deps: DepsOutcome, deps': DepsOutcome)
    requires env.features == env'.features && f.inputs == []
    requires deps.DepsReady? && deps'.DepsReady? && deps.order == deps'.order
    requires forall d :: d in deps.order ==>
      d in deps.comps && d in deps'.comps && deps.comps[d].dataTs <= deps'.comps[d].dataTs
    requires Assemble(env, f, deps).Computed? && Assemble(env', f, deps').Computed?
    ensures Assemble(env, f, deps).comp.dataTs <= Assemble(env', f, deps').comp.dataTs
    ensures Assemble(env, f, deps).comp.maxInputDataTs <= Assemble(env', f, deps').comp.maxInputDataTs
  {
    AssembledFreshness(env, f, deps);
    AssembledFreshness(env', f, deps');
    FresherFacts(env, env', f, deps.order, deps.comps, deps'.comps);
  }

  lemma LaterInputsAreFresher(features: FeatureTable, view: ViewRef, entity: EntityKey, deps: seq<Dependency>,
                              h: History, more: History, calcTs: Time, calcTs': Time, safetyGap: nat)
    requires calcTs <= calcTs'
    requires PrefillDeps(features, view, entity, deps, h, calcTs, safetyGap).Filled?
    requires PrefillDeps(features, view, entity, deps, h + more, calcTs', safetyGap).Filled?
    ensures var given := PrefillDeps(features, view, entity, deps, h, calcTs, safetyGap).given;
            var given' := PrefillDeps(features, view, entity, deps, h + more, calcTs', safetyGap).given;
      forall d :: d in given && d in given' ==> given[d].dataTs <= given'[d].dataTs
  {
    PrefillReadsHistory(features, view, entity, deps, h, calcTs, safetyGap);
    PrefillReadsHistory(features, view, entity, deps, h + more, calcTs', safetyGap);
    forall d | HasEdge(deps, d) && d in features
      ensures var q := Query(entity, d, PinOf(features, deps, d), view);
        PitRecord(h, q, calcTs, safetyGap).Some? && PitRecord(h + more, q, calcTs', safetyGap).Some? ==>
          PitRecord(h, q, calcTs, safetyGap).value.result.dataTs <= PitRecord(h + more, q, calcTs',
                                                                              safetyGap).value.result.dataTs
    {
      var q := Query(entity, d, PinOf(features, deps, d), view);
      if PitRecord(h, q, calcTs, safetyGap).Some? {
        LaterLooksFindFresher(h, more, q, calcTs, calcTs', safetyGap);
      }
    }
  }

  /** Successive recomputes of one feature for one entity, over a history that only grows and
      with a clock that does not go back, have pointwise nondecreasing freshness. */
  lemma FreshnessNeverGoesBackwards(features: FeatureTable, udfs: map<string, UdfBody>, view: ViewRef,
                                    entity: EntityKey,
                                    name: string, h: History, more: History, calcTs: Time, calcTs': Time,
                                    safetyGap: nat)
    requires calcTs <= calcTs' && name in features && !HasEdge(features[name].deps, name)
    requires RecomputeFrom(features, udfs, view, entity, name, h, calcTs, safetyGap).Row?
    requires RecomputeFrom(features, udfs, view, entity, name, h + more, calcTs', safetyGap).Row?
    ensures var r := RecomputeFrom(features, udfs, view, entity, name, h, calcTs, safetyGap).result;
            var r' := RecomputeFrom(features, udfs, view, entity, name, h + more, calcTs', safetyGap).result;
      && r.dataTs <= r'.dataTs
      && r.maxInputDataTs.Some? && r'.maxInputDataTs.Some? && r.maxInputDataTs.value <= r'.maxInputDataTs.value
  {
    var deps := features[name].deps;
    var given, ready, c := RowExplained(features, udfs, view, entity, name, h, calcTs, safetyGap);
    var given', ready', c' := RowExplained(features, udfs, view, entity, name, h + more, calcTs', safetyGap);
    LaterInputsAreFresher(features, view, entity, deps, h, more, calcTs, calcTs', safetyGap);
    SameOrder(given, given', deps, calcTs, calcTs');
    FresherInputsGiveFresherOutput(WaveEnv(features, udfs, calcTs, given), WaveEnv(features, udfs, calcTs', given'),
                                   features[name], ready, ready');
  }
}
