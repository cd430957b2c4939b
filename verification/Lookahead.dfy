/** No lookahead over whole runs: every stored row, however it was derived, was available no
    earlier than everything it was derived from. */
module Lookahead {
  import opened Domain
  import opened Registry
  import opened Semantics
  import opened Engine
  import opened Lineage
  import opened Pit
  import opened Dedup
  import opened Recompute
  import ModelBatch

  /** The offline history with its provenance: for each row the earlier rows it was computed
      from and, where they are known, the source reports at its origin. */
  datatype World = World(rows: History, parents: seq<set<nat>>, leaves: seq<Option<Leaves>>)

  const EMPTY: World := World([], [], [])

  /** What can happen to the history. */
  datatype Action =
    /** A row that was computed elsewhere: a model score, a table import. */
    | Import(record: Record)
    /** One feature of one entity, computed from its source reports. */
    | Compute(view: ViewRef, env: Env, entity: EntityKey, name: string)
    /** One unit of a recompute wave, or of a staged batch. */
    | Recompute(view: ViewRef, features: FeatureTable, udfs: map<string, UdfBody>, entity: EntityKey, name: string,
                calcTs: Time, safetyGap: nat)
    /** A batch of a model feature. */
    | Score(view: ViewRef, features: FeatureTable, name: string, runner: ModelBatch.ModelRunner,
            entities: seq<EntityKey>, observationTs: Time, safetyGap: nat)

  /** Registries reject self-dependencies, and trusted stamps are honest when they are ingested. */
  ghost predicate Allowed(a: Action) {
    match a
    case Import(_) => true
    case Score(_, _, _, _, _, _, _) => true
    case Compute(_, env, _, _) => env.given == map[] && forall s :: s in env.stamps ==> HonestStamp(env.stamps[s])
    case Recompute(_, features, _, _, name, _, _) => name in features ==> !HasEdge(features[name].deps, name)
  }

  /** The rows that a recompute reads, one for each dependency. */
  ghost function RowsReadByRecompute(view: ViewRef, features: FeatureTable, entity: EntityKey, deps: seq<Dependency>,
                                     h: History, calcTs: Time, safetyGap: nat): set<nat> {
    set d | d in deps && d.feature in features && HasEdge(deps, d.feature)
         && PitIndex(h, Query(entity, d.feature, PinOf(features, deps, d.feature), view), calcTs, safetyGap).Some?
      :: PitIndex(h, Query(entity, d.feature, PinOf(features, deps, d.feature), view), calcTs, safetyGap).value
  }

  ghost function RowsReadByScore(view: ViewRef, features: FeatureTable, entity: EntityKey, deps: seq<Dependency>,
                                 h: History, observationTs: Time, safetyGap: nat): set<nat> {
    set d | d in deps && ModelBatch.HasVersion(features, d)
         && PitIndex(h, ModelBatch.InputQuery(features, view, entity, d), observationTs, safetyGap).Some?
      :: PitIndex(h, ModelBatch.InputQuery(features, view, entity, d), observationTs, safetyGap).value
  }

  /** The leaves of each row read by a recompute, if all of them are known. */
  ghost function KnownLeaves(w: World, view: ViewRef, features: FeatureTable, entity: EntityKey, deps: seq<Dependency>,
                             calcTs: Time, safetyGap: nat): map<string, Leaves> {
    map d | d in DepNames(deps) && LeavesRead(w, view, features, entity, deps, d, calcTs, safetyGap).Some?
      :: LeavesRead(w, view, features, entity, deps, d, calcTs, safetyGap).value
  }

  ghost function DepNames(deps: seq<Dependency>): set<string> { set d | d in deps :: d.feature }

  ghost function LeavesRead(w: World, view: ViewRef, features: FeatureTable, entity: EntityKey, deps: seq<Dependency>,
                            dep: string, calcTs: Time, safetyGap: nat): Option<Leaves> {
    if dep !in features || !HasEdge(deps, dep) then None
    else
      var i := PitIndex(w.rows, Query(entity, dep, PinOf(features, deps, dep), view), calcTs, safetyGap);
      if i.Some? && i.value < |w.leaves| then w.leaves[i.value] else None
  }

  ghost function RecomputedLeaves(w: World, a: Action): Option<Leaves>
    requires a.Recompute? && a.name in a.features
  {
    var deps := a.features[a.name].deps;
    var known := KnownLeaves(w, a.view, a.features, a.entity, deps, a.calcTs, a.safetyGap);
    var prefill := PrefillDeps(a.features, a.view, a.entity, deps, w.rows, a.calcTs, a.safetyGap);
    if known.Keys == DepNames(deps) && prefill.Filled? && forall d :: d in deps ==> d.feature in prefill.given then
      var env := WaveEnv(a.features, a.udfs, a.calcTs, prefill.given);
      Some(LeavesVia(env, a.features[a.name], DepsFrom(prefill.given, deps, a.calcTs), known))
    else None
  }

  /** Append the results that are not duplicates, each with its provenance. */
  ghost function Extend(w: World, view: ViewRef, results: seq<FeatureResult>,
                        parents: FeatureResult -> set<nat>, leaves: Option<Leaves>): World {
    var kept := NewResults(w.rows, view, results);
    World(w.rows + Records(view, kept),
          w.parents + seq(|kept|, i requires 0 <= i < |kept| => parents(kept[i])),
          w.leaves + seq(|kept|, i requires 0 <= i < |kept| => leaves))
  }

  ghost function Perform(w: World, a: Action): World {
    match a
    case Import(record) => World(w.rows + [record], w.parents + [{}], w.leaves + [None])
    case Compute(view, env, entity, name) =>
      var o := Denotation(env, name);
      if o.Computed? && name in env.features && env.given == map[] then
        Extend(w, view, [ResultOf(env.features, env.calcTs, entity, name, o.comp)], r => {},
               Some(LeavesIn(env, map[], name)))
      else w
    case Recompute(view, features, udfs, entity, name, calcTs, safetyGap) =>
      var r := RecomputeFrom(features, udfs, view, entity, name, w.rows, calcTs, safetyGap);
      if r.Row? && name in features then
        var read := RowsReadByRecompute(view, features, entity, features[name].deps, w.rows, calcTs, safetyGap);
        Extend(w, view, [r.result], r => read, RecomputedLeaves(w, a))
      else w
    case Score(view, features, name, runner, entities, observationTs, safetyGap) =>
      var s := ModelBatch.ScoreBatch(features, view, name, runner, entities, w.rows, observationTs, safetyGap);
      if s.Scores? && name in features then
        Extend(w, view, s.results,
               (r: FeatureResult) => RowsReadByScore(view, features, r.entity, features[name].deps, w.rows,
                                                     observationTs, safetyGap),
               None)
      else w
  }

  ghost function Run(actions: seq<Action>): World {
    if actions == [] then EMPTY else Perform(Run(actions[..|actions| - 1]), actions[|actions| - 1])
  }

  // ---------------------------------------------------------------------------------------
  // The invariant
  // ---------------------------------------------------------------------------------------

  ghost predicate WellFormed(w: World) { |w.parents| == |w.rows| && |w.leaves| == |w.rows| }

  /** A row comes after the rows it was computed from and is available no earlier than they are. */
  ghost predicate Ordered(w: World, i: nat)
    requires WellFormed(w) && i < |w.rows|
  {
    forall p :: p in w.parents[i] ==>
      p < i && EffectiveAvailability(w.rows[p].result) <= EffectiveAvailability(w.rows[i].result)
  }

  /** The known leaves of a row are honest reports, and its metadata describes them. */
  ghost predicate Grounded(w: World, i: nat)
    requires WellFormed(w) && i < |w.rows|
  {
    var r := w.rows[i].result;
    w.leaves[i].Some? ==>
      && Describes(r.dataTs, r.availableAt, r.availabilitySource, w.leaves[i].value)
      && forall s :: s in w.leaves[i].value ==> HonestStamp(s)
  }

  ghost predicate Invariant(w: World) {
    WellFormed(w) && forall i :: 0 <= i < |w.rows| ==> Ordered(w, i) && Grounded(w, i)
  }

  lemma ExtendKeepsInvariant(w: World, view: ViewRef, results: seq<FeatureResult>,
                             parents: FeatureResult -> set<nat>, leaves: Option<Leaves>)
    requires Invariant(w)
    requires forall r, p :: r in results && p in parents(r) ==>
      p < |w.rows| && EffectiveAvailability(w.rows[p].result) <= EffectiveAvailability(r)
    requires leaves.Some? ==>
      && (forall r :: r in results ==> Describes(r.dataTs, r.availableAt, r.availabilitySource, leaves.value))
      && (forall s :: s in leaves.value ==> HonestStamp(s))
    ensures Invariant(Extend(w, view, results, parents, leaves))
  {
    var w' := Extend(w, view, results, parents, leaves);
    var kept := NewResults(w.rows, view, results);
    KeptComesFromCall(w.rows, view, results);
    forall i | 0 <= i < |w'.rows|
      ensures Ordered(w', i) && Grounded(w', i)
    {
      if i < |w.rows| {
        assert Ordered(w, i) && Grounded(w, i);
      } else {
        assert w'.rows[i].result == kept[i - |w.rows|] && kept[i - |w.rows|] in results;
        assert w'.parents[i] == parents(kept[i - |w.rows|]);
      }
    }
  }

  lemma ReadRowIsAvailable(h: History, q: Query, t: Time, safetyGap: nat)
    requires PitIndex(h, q, t, safetyGap).Some?
    ensures EffectiveAvailability(h[PitIndex(h, q, t, safetyGap).value].result) <= t
  {
    PitIndexSelects(h, q, t, safetyGap);
  }

  lemma RecomputeIsOrdered(view: ViewRef, features: FeatureTable, udfs: map<string, UdfBody>, entity: EntityKey,
                           name: string,
                           h: History, calcTs: Time, safetyGap: nat, p: nat)
    requires name in features && !HasEdge(features[name].deps, name)
    requires RecomputeFrom(features, udfs, view, entity, name, h, calcTs, safetyGap).Row?
    requires p in RowsReadByRecompute(view, features, entity, features[name].deps, h, calcTs, safetyGap)
    ensures p < |h|
    ensures EffectiveAvailability(h[p].result)
         <= EffectiveAvailability(RecomputeFrom(features, udfs, view, entity, name, h, calcTs, safetyGap).result)
  {
    hide RecomputeFrom, PitIndex, PrefillDeps, Assemble, DepsFrom;
    var edges := features[name].deps;
    var d :| d in edges && d.feature in features && HasEdge(edges, d.feature)
          && PitIndex(h, Query(entity, d.feature, PinOf(features, edges, d.feature), view), calcTs, safetyGap)
            == Some(p);
    ReadRowIsAvailable(h, Query(entity, d.feature, PinOf(features, edges, d.feature), view), calcTs, safetyGap);
    var given, deps, c := RowExplained(features, udfs, view, entity, name, h, calcTs, safetyGap);
    PrefillReadsHistory(features, view, entity, edges, h, calcTs, safetyGap);
    GivenIsEligible(features, view, entity, edges, h, calcTs, safetyGap);
    AssembledAvailability(WaveEnv(features, udfs, calcTs, given), features[name], deps);
    assert d.feature in deps.order && deps.comps[d.feature] == ComputationOf(h[p].result);
  }

  lemma {:induction false} UnionIsHonest(sets: seq<Leaves>)
    requires forall l, s :: l in sets && s in l ==> HonestStamp(s)
    ensures forall s :: s in UnionOf(sets) ==> HonestStamp(s)
  {
    forall s | s in UnionOf(sets)
      ensures HonestStamp(s)
    {
      InUnionOf(sets, s);
    }
  }

  /** A dependency that was read from a row with known leaves brings those leaves along. */
  lemma InputIsGrounded(w: World, view: ViewRef, features: FeatureTable, entity: EntityKey, deps: seq<Dependency>,
                        calcTs: Time, safetyGap: nat, d: string)
    requires Invariant(w)
    requires PrefillDeps(features, view, entity, deps, w.rows, calcTs, safetyGap).Filled?
    requires HasEdge(deps, d) && d in KnownLeaves(w, view, features, entity, deps, calcTs, safetyGap)
    ensures var given := PrefillDeps(features, view, entity, deps, w.rows, calcTs, safetyGap).given;
            var known := KnownLeaves(w, view, features, entity, deps, calcTs, safetyGap);
      && d in given && ComputationDescribes(given[d], known[d])
      && forall s :: s in known[d] ==> HonestStamp(s)
  {
    PrefillReadsHistory(features, view, entity, deps, w.rows, calcTs, safetyGap);
    var i := PitIndex(w.rows, Query(entity, d, PinOf(features, deps, d), view), calcTs, safetyGap).value;
    assert Grounded(w, i);
  }

  lemma AssembledIsHonest(env: Env, f: FeatureDef, deps: DepsOutcome, known: map<string, Leaves>)
    requires f.inputs == [] && deps.DepsReady? && (forall d :: d in deps.order ==> d in deps.comps)
    requires Assemble(env, f, deps).Computed?
    requires forall d :: d in deps.order ==> d in known && ComputationDescribes(deps.comps[d], known[d])
    requires forall d, s :: d in deps.order && s in known[d] ==> HonestStamp(s)
    ensures ComputationDescribes(Assemble(env, f, deps).comp, LeavesVia(env, f, deps, known))
    ensures forall s :: s in LeavesVia(env, f, deps, known) ==> HonestStamp(s)
  {
    AssembledDescribes(env, f, deps, known);
    var sets := InputLeaves(env, f, deps.order, known);
    forall l, s | l in sets && s in l
      ensures HonestStamp(s)
    {
      var i :| 0 <= i < |sets| && sets[i] == l;
      assert deps.order[i] in deps.order;
    }
    UnionIsHonest(sets);
  }

  lemma EvaluationIsGrounded(w: World, view: ViewRef, entity: EntityKey, f: FeatureDef, env: Env, safetyGap: nat,
                             deps: DepsOutcome)
    requires Invariant(w) && f.inputs == []
    requires PrefillDeps(env.features, view, entity, f.deps, w.rows, env.calcTs, safetyGap) == Filled(env.given)
    requires forall d :: d in f.deps ==> d.feature in env.given
    requires deps == DepsFrom(env.given, f.deps, env.calcTs) && deps.DepsReady?
    requires Assemble(env, f, deps).Computed?
    requires KnownLeaves(w, view, env.features, entity, f.deps, env.calcTs, safetyGap).Keys == DepNames(f.deps)
    ensures var leaves := LeavesVia(env, f, deps, KnownLeaves(w, view, env.features, entity, f.deps, env.calcTs,
                                                              safetyGap));
      && ComputationDescribes(Assemble(env, f, deps).comp, leaves)
      && forall s :: s in leaves ==> HonestStamp(s)
  {
    var known := KnownLeaves(w, view, env.features, entity, f.deps, env.calcTs, safetyGap);
    forall d | d in deps.order
      ensures d in known && ComputationDescribes(deps.comps[d], known[d])
      ensures forall s :: s in known[d] ==> HonestStamp(s)
    {
      assert d in DepNames(f.deps);
      InputIsGrounded(w, view, env.features, entity, f.deps, env.calcTs, safetyGap, d);
    }
    AssembledIsHonest(env, f, deps, known);
  }

  lemma RecomputeIsGrounded(w: World, a: Action)
    requires Invariant(w) && a.Recompute? && Allowed(a) && a.name in a.features
    requires RecomputeFrom(a.features, a.udfs, a.view, a.entity, a.name, w.rows, a.calcTs, a.safetyGap).Row?
    ensures var r := RecomputeFrom(a.features, a.udfs, a.view, a.entity, a.name, w.rows, a.calcTs, a.safetyGap).result;
            var leaves := RecomputedLeaves(w, a);
      leaves.Some? ==>
        && Describes(r.dataTs, r.availableAt, r.availabilitySource, leaves.value)
        && forall s :: s in leaves.value ==> HonestStamp(s)
  {
    if RecomputedLeaves(w, a).Some? {
      var given, deps, c := RowExplained(a.features, a.udfs, a.view, a.entity, a.name, w.rows, a.calcTs, a.safetyGap);
      EvaluationIsGrounded(w, a.view, a.entity, a.features[a.name], WaveEnv(a.features, a.udfs, a.calcTs, given),
                           a.safetyGap, deps);
    }
  }

  lemma ScoredInputsWereAvailable(features: FeatureTable, view: ViewRef, entities: seq<EntityKey>,
                                               deps: seq<Dependency>, h: History, t: Time, safetyGap: nat, p: nat,
                                               entity: EntityKey)
    requires p in RowsReadByScore(view, features, entity, deps, h, t, safetyGap)
    ensures p < |h| && EffectiveAvailability(h[p].result) <= t
  {
    var d :| d in deps && ModelBatch.HasVersion(features, d)
          && PitIndex(h, ModelBatch.InputQuery(features, view, entity, d), t, safetyGap) == Some(p);
    ReadRowIsAvailable(h, ModelBatch.InputQuery(features, view, entity, d), t, safetyGap);
  }

  lemma ComputeIsGrounded(env: Env, name: string)
    requires env.given == map[] && Denotation(env, name).Computed?
    requires forall s :: s in env.stamps ==> HonestStamp(env.stamps[s])
    ensures ComputationDescribes(Denotation(env, name).comp, LeavesIn(env, map[], name))
    ensures forall s :: s in LeavesIn(env, map[], name) ==> HonestStamp(s)
  {
    LeafClosure(env, map[], name);
    LeavesAreStamps(env, |env.features.Keys|, name);
  }

  lemma {:induction false} LeavesAreStamps(env: Env, k: nat, name: string)
    requires env.given == map[]
    ensures forall s :: s in LeavesOf(env, map[], k, name) ==> s in env.stamps.Values
  {
    if name in env.features && k > 0 {
      var f := env.features[name];
      var deps := EvalDeps(env, Unfold(env, k - 1), f.deps);
      if deps.DepsReady? && forall s :: s in f.inputs ==> s in env.stamps {
        var below := LeavesBelow(env, map[], k, deps.order);
        forall d | d in deps.order {
          LeavesAreStamps(env, k - 1, d);
        }
        StampsOnly(env, f, deps.order, below);
      }
    }
  }

  lemma StampsOnly(env: Env, f: FeatureDef, order: seq<string>, below: map<string, Leaves>)
    requires forall s :: s in f.inputs ==> s in env.stamps
    requires forall d :: d in order ==> d in below && forall s :: s in below[d] ==> s in env.stamps.Values
    ensures forall s :: s in UnionOf(InputLeaves(env, f, order, below)) ==> s in env.stamps.Values
  {
    var sets := InputLeaves(env, f, order, below);
    forall s | s in UnionOf(sets)
      ensures s in env.stamps.Values
    {
      InUnionOf(sets, s);
      var i :| 0 <= i < |sets| && s in sets[i];
      if i < |f.inputs| {
        assert f.inputs[i] in env.stamps.Keys;
      } else {
        assert order[i - |f.inputs|] in order;
      }
    }
  }

  /** Every action keeps the invariant. */
  lemma PerformKeepsInvariant(w: World, a: Action)
    requires Invariant(w) && Allowed(a)
    ensures Invariant(Perform(w, a))
  {
    match a
    case Import(record) =>
      var w' := Perform(w, a);
      forall i | 0 <= i < |w'.rows|
        ensures Ordered(w', i) && Grounded(w', i)
      {
        if i < |w.rows| {
          assert Ordered(w, i) && Grounded(w, i);
        }
      }
    case Compute(view, env, entity, name) =>
      if Denotation(env, name).Computed? && name in env.features {
        ComputeIsGrounded(env, name);
        ExtendKeepsInvariant(w, view, [ResultOf(env.features, env.calcTs, entity, name, Denotation(env, name).comp)],
                             r => {}, Some(LeavesIn(env, map[], name)));
      }
    case Recompute(view, features, udfs, entity, name, calcTs, safetyGap) =>
      var r := RecomputeFrom(features, udfs, view, entity, name, w.rows, calcTs, safetyGap);
      if r.Row? && name in features {
        var read := RowsReadByRecompute(view, features, entity, features[name].deps, w.rows, calcTs, safetyGap);
        forall p | p in read {
          RecomputeIsOrdered(view, features, udfs, entity, name, w.rows, calcTs, safetyGap, p);
        }
        RecomputeIsGrounded(w, a);
        ExtendKeepsInvariant(w, view, [r.result], _ => read, RecomputedLeaves(w, a));
      }
    case Score(view, features, name, runner, entities, observationTs, safetyGap) =>
      ScoreKeepsInvariant(w, a);
  }

  lemma ScoreKeepsInvariant(w: World, a: Action)
    requires Invariant(w) && a.Score?
    ensures Invariant(Perform(w, a))
  {
    var s := ModelBatch.ScoreBatch(a.features, a.view, a.name, a.runner, a.entities, w.rows, a.observationTs,
                                   a.safetyGap);
    if s.Scores? && a.name in a.features {
      var deps := a.features[a.name].deps;
      forall r, p | r in s.results && p in RowsReadByScore(a.view, a.features, r.entity, deps, w.rows,
                                                           a.observationTs, a.safetyGap)
        ensures p < |w.rows| && EffectiveAvailability(w.rows[p].result) <= EffectiveAvailability(r)
      {
        ScoredInputsWereAvailable(a.features, a.view, a.entities, deps, w.rows, a.observationTs, a.safetyGap, p,
                                  r.entity);
      }
      ExtendKeepsInvariant(w, a.view, s.results,
        (r: FeatureResult) => RowsReadByScore(a.view, a.features, r.entity, deps, w.rows, a.observationTs,
                                              a.safetyGap), None);
    }
  }

  lemma {:induction false} RunsKeepInvariant(actions: seq<Action>)
    requires forall a :: a in actions ==> Allowed(a)
    ensures Invariant(Run(actions))
  {
    if actions != [] {
      RunsKeepInvariant(actions[..|actions| - 1]);
      PerformKeepsInvariant(Run(actions[..|actions| - 1]), actions[|actions| - 1]);
    }
  }

  // ---------------------------------------------------------------------------------------
  // No lookahead
  // ---------------------------------------------------------------------------------------

  /** Row `a` is row `i` or one of the rows that `i` was, directly or not, computed from. */
  ghost predicate Ancestor(w: World, a: nat, i: nat)
    decreases i
  {
    a == i || (i < |w.parents| && exists p :: p in w.parents[i] && p < i && Ancestor(w, a, p))
  }

  lemma {:induction false} AncestorsWereAvailable(w: World, a: nat, i: nat)
    requires Invariant(w) && i < |w.rows| && Ancestor(w, a, i)
    ensures a < |w.rows| && EffectiveAvailability(w.rows[a].result) <= EffectiveAvailability(w.rows[i].result)
    decreases i
  {
    if a != i {
      assert Ordered(w, i);
      var p :| p in w.parents[i] && p < i && Ancestor(w, a, p);
      AncestorsWereAvailable(w, a, p);
    }
  }

  /** For every run: a row selected for an observation, and everything it was derived from, was
      available by the observation. If the row is trusted and its reports are known, then all of
      them had been issued by then as well. */
  lemma NoLookahead(actions: seq<Action>, q: Query, observationTs: Time, safetyGap: nat, i: nat, a: nat)
    requires forall action :: action in actions ==> Allowed(action)
    requires PitIndex(Run(actions).rows, q, observationTs, safetyGap) == Some(i)
    requires Ancestor(Run(actions), a, i)
    ensures var w := Run(actions);
      && WellFormed(w)
      && a < |w.rows| && EffectiveAvailability(w.rows[a].result) <= observationTs
      && w.rows[i].result.dataTs <= observationTs - safetyGap
      && (w.leaves[i].Some? && TrustedAvailableAt(w.rows[i].result).Some? ==>
            forall s :: s in w.leaves[i].value ==> s.reportTs <= observationTs)
  {
    var w := Run(actions);
    RunsKeepInvariant(actions);
    PitIndexSelects(w.rows, q, observationTs, safetyGap);
    AncestorsWereAvailable(w, a, i);
    var r := w.rows[i].result;
    assert Grounded(w, i);
    if w.leaves[i].Some? && TrustedAvailableAt(r).Some? {
      TrustedIsNeverFromTheFuture(r.dataTs, r.availableAt.value, w.leaves[i].value, observationTs);
    }
  }

  // ---------------------------------------------------------------------------------------
  // What provenance records
  // ---------------------------------------------------------------------------------------

  /** The ancestors of a row are the row itself and, with every row, those that it was computed from. */
  lemma {:induction false} AncestorsAreClosed(w: World, p: nat, a: nat, i: nat)
    requires Ancestor(w, a, i) && a < |w.parents| && p in w.parents[a] && p < a
    ensures Ancestor(w, i, i) && Ancestor(w, p, i)
    decreases i
  {
    if a == i {
      assert Ancestor(w, p, p);
    } else {
      var q :| q in w.parents[i] && q < i && Ancestor(w, a, q);
      AncestorsAreClosed(w, p, a, q);
    }
  }

  /** What has happened stays. */
  lemma ProvenanceGrows(w: World, a: Action)
    ensures w.rows <= Perform(w, a).rows && w.parents <= Perform(w, a).parents
  {
    hide RecomputeFrom, ModelBatch.ScoreBatch, Denotation, NewResults;
  }

  /** The version that an edge reads. */
  function VersionRead(features: FeatureTable, d: Dependency): nat
    requires d.version.Some? || d.feature in features
  {
    match d.version case Some(v) => v case None => features[d.feature].version
  }

  /** A recomputed row that is new has the rows it was computed from among its parents: for each feature
      it depends on, the one that its last edge reads. */
  lemma RecomputedFromItsParents(w: World, a: Action, k: nat, i: nat)
    requires WellFormed(w) && a.Recompute? && a.name in a.features
    requires |Perform(w, a).rows| > |w.rows|
    requires var deps := a.features[a.name].deps;
      && k < |deps| && deps[k].feature in a.features
      && (forall j :: k < j < |deps| ==> deps[j].feature != deps[k].feature)
      && Supersedes(w.rows, Query(a.entity, deps[k].feature, VersionRead(a.features, deps[k]), a.view), a.calcTs,
                    a.safetyGap, i)
    ensures |Perform(w, a).parents| == |w.rows| + 1 && i in Perform(w, a).parents[|w.rows|]
  {
    var d, deps := a.features[a.name].deps[k], a.features[a.name].deps;
    PinIsLast(a.features, deps, k);
    PitRecordMeans(w.rows, Query(a.entity, d.feature, VersionRead(a.features, d), a.view), a.calcTs, a.safetyGap);
    hide PitIndex, RecomputeFrom, Supersedes, RecomputedLeaves, PinOf;
    assert i in RowsReadByRecompute(a.view, a.features, a.entity, deps, w.rows, a.calcTs, a.safetyGap);
  }

  lemma {:induction false} PinIsLast(features: FeatureTable, deps: seq<Dependency>, k: nat)
    requires k < |deps| && deps[k].feature in features
    requires forall j :: k < j < |deps| ==> deps[j].feature != deps[k].feature
    ensures HasEdge(deps, deps[k].feature)
    ensures PinOf(features, deps, deps[k].feature) == VersionRead(features, deps[k])
  {
    var front, last := deps[..|deps| - 1], |deps| - 1;
    assert deps[k] in deps;
    if k < last {
      assert deps[last].feature != deps[k].feature && front[k] == deps[k];
      assert forall j :: k < j < last ==> front[j] == deps[j];
      PinIsLast(features, front, k);
    }
  }

  /** So has a scored row, for each edge through which its entity has a row. */
  lemma ScoredFromItsParents(w: World, a: Action, at: nat, d: Dependency, i: nat)
    requires WellFormed(w) && a.Score? && a.name in a.features && d in a.features[a.name].deps
    requires |w.rows| <= at < |Perform(w, a).rows| && (d.version.Some? || d.feature in a.features)
    requires Supersedes(w.rows, Query(Perform(w, a).rows[at].result.entity, d.feature, VersionRead(a.features, d),
                                      a.view), a.observationTs, a.safetyGap, i)
    ensures at < |Perform(w, a).parents| && i in Perform(w, a).parents[at]
  {
    var entity := Perform(w, a).rows[at].result.entity;
    PitRecordMeans(w.rows, Query(entity, d.feature, VersionRead(a.features, d), a.view), a.observationTs, a.safetyGap);
    hide PitIndex, ModelBatch.ScoreBatch, Supersedes;
    assert i in RowsReadByScore(a.view, a.features, entity, a.features[a.name].deps, w.rows, a.observationTs,
                                a.safetyGap);
    hide RowsReadByScore, NewResults, Records;
    ScoredParents(w, a, at);
  }

  lemma ScoredParents(w: World, a: Action, at: nat)
    requires WellFormed(w) && a.Score? && a.name in a.features && |w.rows| <= at < |Perform(w, a).rows|
    ensures at < |Perform(w, a).parents|
    ensures Perform(w, a).parents[at] ==
      RowsReadByScore(a.view, a.features, Perform(w, a).rows[at].result.entity, a.features[a.name].deps, w.rows,
                      a.observationTs, a.safetyGap)
  {
    hide RowsReadByScore, NewResults, ModelBatch.ScoreBatch;
  }

  /** Edge `d` of the recompute `a` reads row `i`. */
  ghost predicate ReadsAt(w: World, a: Action, d: Dependency, i: nat)
    requires WellFormed(w) && a.Recompute?
  {
    && i < |w.rows| && d.feature in a.features
    && Supersedes(w.rows, Query(a.entity, d.feature, VersionRead(a.features, d), a.view), a.calcTs, a.safetyGap, i)
  }

  lemma ReadLeaves(w: World, a: Action, d: Dependency)
    requires WellFormed(w) && a.Recompute? && a.name in a.features && d in a.features[a.name].deps
    requires forall e, i: nat :: e in a.features[a.name].deps && ReadsAt(w, a, e, i) ==> w.leaves[i].Some?
    requires PrefillDeps(a.features, a.view, a.entity, a.features[a.name].deps, w.rows, a.calcTs, a.safetyGap).Filled?
    ensures LeavesRead(w, a.view, a.features, a.entity, a.features[a.name].deps, d.feature, a.calcTs, a.safetyGap).Some?
  {
    var deps := a.features[a.name].deps;
    PrefillReadsHistory(a.features, a.view, a.entity, deps, w.rows, a.calcTs, a.safetyGap);
    hide PrefillDeps, PitIndex, PinOf, Supersedes;
    assert HasEdge(deps, d.feature);
    var k := LastEdge(deps, d.feature);
    PinIsLast(a.features, deps, k);
    PitRecordMeans(w.rows, Query(a.entity, d.feature, VersionRead(a.features, deps[k]), a.view), a.calcTs, a.safetyGap);
    var i := PitIndex(w.rows, Query(a.entity, d.feature, VersionRead(a.features, deps[k]), a.view), a.calcTs,
                      a.safetyGap);
    assert i.Some? ==> ReadsAt(w, a, deps[k], i.value);
  }

  /** If the reports behind every row that a recompute reads are known, those of the new row are. */
  lemma LeavesStayKnown(w: World, a: Action)
    requires WellFormed(w) && a.Recompute? && a.name in a.features && |Perform(w, a).rows| > |w.rows|
    requires forall d, i: nat :: d in a.features[a.name].deps && ReadsAt(w, a, d, i) ==> w.leaves[i].Some?
    ensures |Perform(w, a).leaves| == |w.rows| + 1 && Perform(w, a).leaves[|w.rows|].Some?
  {
    var deps := a.features[a.name].deps;
    PrefillReadsHistory(a.features, a.view, a.entity, deps, w.rows, a.calcTs, a.safetyGap);
    hide PrefillDeps, LeavesRead, DepsFrom, ReadsAt;
    forall d | d in deps
      ensures LeavesRead(w, a.view, a.features, a.entity, deps, d.feature, a.calcTs, a.safetyGap).Some?
    {
      ReadLeaves(w, a, d);
    }
    assert KnownLeaves(w, a.view, a.features, a.entity, deps, a.calcTs, a.safetyGap).Keys == DepNames(deps);
  }

  lemma {:induction false} LastEdge(deps: seq<Dependency>, name: string) returns (k: nat)
    requires HasEdge(deps, name)
    ensures k < |deps| && deps[k].feature == name && forall j :: k < j < |deps| ==> deps[j].feature != name
  {
    var last := |deps| - 1;
    assert deps == deps[..last] + [deps[last]];
    if deps[last].feature == name {
      k := last;
    } else {
      k := LastEdge(deps[..last], name);
      assert forall j :: k < j < last ==> deps[..last][j] == deps[j];
    }
  }
}
