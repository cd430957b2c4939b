/** The recompute wave (propagation_worker.py): drain the debounce store, recompute every due
    dependent from offline history, append, and re-announce what changed. */
module PropagationWorker {
  import opened Domain
  import opened Registry
  import opened Semantics
  import opened Engine
  import opened Pit
  import opened Dedup
  import opened Recompute
  import opened ModelBatch
  import opened Propagation
  import opened Debounce
  import Lookahead

  /** What a wave runs with. An entity key may not fit the key fields of its view, and a user
      function may raise an exception that the worker does not catch. */
  datatype Config = Config(
    views: seq<ViewDef>, keyFits: (ViewRef, EntityKey) -> bool, udfs: map<string, UdfBody>,
    runner: Option<ModelRunner>, catchesUdfErrors: bool, calcTs: Time, safetyGap: int)

  datatype Outcome = UnitFailed | UnitSkipped | UnitComputed(result: FeatureResult) | UnitRaises

  /** What one unit of work amounts to, given the history. */
  function OutcomeOf(cfg: Config, h: History, e: Entry): Outcome {
    var view, name := FindView(cfg.views, e.candidate.view), e.candidate.dependent;
    if view.None? || !cfg.keyFits(e.candidate.view, e.candidate.entity) then UnitFailed
    else
      var features := ByName(view.value.features);
      if name in features && features[name].kind.Model? then ModelOutcome(cfg, features, h, e)
      else match RecomputeWith(features, cfg.udfs, view.value.ref, e.candidate.entity, name, h, cfg.calcTs,
                               cfg.safetyGap)
        case Row(r) => UnitComputed(r)
        case NoRow => UnitSkipped
        case Error(error) => if error.UdfRaised? && !cfg.catchesUdfErrors then UnitRaises else UnitFailed
  }

  /** A model feature is recomputed as a batch of one entity; without a runner it is deferred. */
  function ModelOutcome(cfg: Config, features: FeatureTable, h: History, e: Entry): Outcome {
    if cfg.runner.None? then UnitSkipped
    else match ScoringOf(features, e.candidate.view, e.candidate.dependent, cfg.runner.value, [e.candidate.entity],
                         h, cfg.calcTs, cfg.safetyGap)
      case Stops(_) => UnitFailed
      case Scores(results, _) => if results == [] then UnitSkipped else UnitComputed(results[0])
  }

  datatype Tally = Tally(computed: nat, skipped: nat, failed: nat, emitted: nat)

  /** The history, everything announced so far, and the counts of the wave. */
  datatype WaveState = WaveState(history: History, published: seq<Update>, tally: Tally)

  ghost function Announced(cfg: Config, s: WaveState, e: Entry, r: FeatureResult): seq<Update> {
    var view := FindView(cfg.views, e.candidate.view);
    if view.None? then [] else UpdatesFor(view.value, e.candidate.entityType, [r], |s.published|)
  }

  ghost function AfterUnit(cfg: Config, s: WaveState, e: Entry): WaveState {
    match OutcomeOf(cfg, s.history, e)
    case UnitFailed => s.(tally := s.tally.(failed := s.tally.failed + 1))
    case UnitSkipped => s.(tally := s.tally.(skipped := s.tally.skipped + 1))
    case UnitRaises => s
    case UnitComputed(r) =>
      var updates := Announced(cfg, s, e, r);
      WaveState(Appended(s.history, e.candidate.view, [r]), s.published + updates,
                s.tally.(computed := s.tally.computed + 1, emitted := s.tally.emitted + |updates|))
  }

  ghost function AfterUnits(cfg: Config, s: WaveState, units: seq<Entry>): WaveState {
    if units == [] then s else AfterUnit(cfg, AfterUnits(cfg, s, units[..|units| - 1]), units[|units| - 1])
  }

  /** An infrastructure failure while unit `unit` is worked on: before its append, or while its
      updates are published, after `landed` of them. */
  datatype Stage = BeforeAppend | WhilePublishing(landed: nat)

  datatype Outage = Outage(unit: nat, stage: Stage)

  ghost predicate Interrupts(cfg: Config, s: WaveState, e: Entry, stage: Option<Stage>) {
    var outcome := OutcomeOf(cfg, s.history, e);
    || outcome.UnitRaises?
    || (stage.Some? && stage.value.BeforeAppend?)
    || (stage.Some? && outcome.UnitComputed? && Announced(cfg, s, e, outcome.result) != [])
  }

  function StageAt(outage: Option<Outage>, i: nat): Option<Stage> {
    if outage.Some? && outage.value.unit == i then Some(outage.value.stage) else None
  }

  /** The wave runs into unit `i` and is interrupted there. */
  ghost predicate InterruptedAt(cfg: Config, s: WaveState, units: seq<Entry>, outage: Option<Outage>, i: nat) {
    i < |units| && Interrupts(cfg, AfterUnits(cfg, s, units[..i]), units[i], StageAt(outage, i))
  }

  /** What an interrupted unit leaves behind: the row is appended before anything is announced. */
  ghost function AfterInterruption(cfg: Config, s: WaveState, e: Entry, stage: Option<Stage>): WaveState {
    var outcome := OutcomeOf(cfg, s.history, e);
    if outcome.UnitComputed? && stage.Some? && stage.value.WhilePublishing? then
      var updates := Announced(cfg, s, e, outcome.result);
      s.(history := Appended(s.history, e.candidate.view, [outcome.result]),
         published := s.published + updates[..Min(stage.value.landed, |updates|)])
    else s
  }

  /** The state of a wave that was interrupted at unit `i`. */
  ghost function Stopped(cfg: Config, s: WaveState, units: seq<Entry>, outage: Option<Outage>, i: nat): WaveState
    requires i < |units|
  {
    AfterInterruption(cfg, AfterUnits(cfg, s, units[..i]), units[i], StageAt(outage, i))
  }

  /** No unit is interrupted. */
  ghost predicate Completes(cfg: Config, s: WaveState, units: seq<Entry>, outage: Option<Outage>) {
    forall i :: !InterruptedAt(cfg, s, units, outage, i)
  }

  lemma {:induction false} SomeInterruptionIsFirst(cfg: Config, s: WaveState, units: seq<Entry>, outage: Option<Outage>,
                                                   i: nat) returns (first: nat)
    requires InterruptedAt(cfg, s, units, outage, i)
    ensures first <= i && IsFirstInterruption(cfg, s, units, outage, first)
  {
    first := i;
    if j :| 0 <= j < i && InterruptedAt(cfg, s, units, outage, j) {
      first := SomeInterruptionIsFirst(cfg, s, units, outage, j);
    }
  }

  /** The wave gets as far as unit `i` and no further. */
  ghost predicate IsFirstInterruption(cfg: Config, s: WaveState, units: seq<Entry>, outage: Option<Outage>, i: nat) {
    && InterruptedAt(cfg, s, units, outage, i)
    && forall j :: 0 <= j < i ==> !InterruptedAt(cfg, s, units, outage, j)
  }

  ghost function FirstInterruption(cfg: Config, s: WaveState, units: seq<Entry>, outage: Option<Outage>): (i: nat)
    requires !Completes(cfg, s, units, outage)
    ensures i < |units| && IsFirstInterruption(cfg, s, units, outage, i)
  {
    assert exists i: nat :: IsFirstInterruption(cfg, s, units, outage, i) by {
      var some: nat :| InterruptedAt(cfg, s, units, outage, some);
      var first := SomeInterruptionIsFirst(cfg, s, units, outage, some);
    }
    var i: nat :| IsFirstInterruption(cfg, s, units, outage, i);
    i
  }

  lemma FirstInterruptionIsUnique(cfg: Config, s: WaveState, units: seq<Entry>, outage: Option<Outage>, i: nat)
    requires IsFirstInterruption(cfg, s, units, outage, i)
    ensures !Completes(cfg, s, units, outage) && FirstInterruption(cfg, s, units, outage) == i
  {
    hide InterruptedAt;
    assert InterruptedAt(cfg, s, units, outage, i);
    var j := FirstInterruption(cfg, s, units, outage);
    assert !(i < j) && !(j < i);
  }

  class Worker {
    const cfg: Config
    const offline: OfflineStore
    const debounce: DebounceStore
    var published: seq<Update>
    var tally: Tally

    constructor (cfg: Config, offline: OfflineStore, debounce: DebounceStore)
      ensures this.cfg == cfg && this.offline == offline && this.debounce == debounce && published == []
    {
      this.cfg, this.offline, this.debounce := cfg, offline, debounce;
      published, tally := [], NO_TALLY;
    }

    ghost function State(): WaveState
      reads this, offline
    {
      WaveState(offline.history, published, tally)
    }

    method Evaluate(e: Entry) returns (outcome: Outcome)
      ensures outcome == OutcomeOf(cfg, offline.history, e)
    {
      var view := FindView(cfg.views, e.candidate.view);
      if view.None? || !cfg.keyFits(e.candidate.view, e.candidate.entity) {
        return UnitFailed;
      }
      FoundViewHasRef(cfg.views, e.candidate.view);
      var features := ByName(view.value.features);
      var name := e.candidate.dependent;
      if name in features && features[name].kind.Model? {
        return ModelOutcome(cfg, features, offline.history, e);
      }
      var store := new FeatureStore(view.value, cfg.udfs, offline);
      var r := store.ComputeDependentFromOffline(e.candidate.entity, name, cfg.calcTs, cfg.safetyGap);
      match r {
        case Row(result) => return UnitComputed(result);
        case NoRow => return UnitSkipped;
        case Error(error) => return if error.UdfRaised? && !cfg.catchesUdfErrors then UnitRaises else UnitFailed;
      }
    }

    /** Append first, then announce; only an infrastructure failure gets out. */
    method WorkOn(e: Entry, stage: Option<Stage>) returns (ok: bool)
      modifies this, offline
      ensures ok <==> !Interrupts(cfg, old(State()), e, stage)
      ensures State() == if ok then AfterUnit(cfg, old(State()), e) else AfterInterruption(cfg, old(State()), e, stage)
    {
      hide OutcomeOf, UpdatesFor, NewResults;
      if stage.Some? && stage.value.BeforeAppend? {
        return false;
      }
      var outcome := Evaluate(e);
      match outcome {
        case UnitRaises => return false;
        case UnitFailed => tally := tally.(failed := tally.failed + 1);
        case UnitSkipped => tally := tally.(skipped := tally.skipped + 1);
        case UnitComputed(r) =>
          var kept, _ := PartitionNewResults(offline, e.candidate.view, [r]);
          offline.AppendMany(e.candidate.view, kept);
          var updates := [];
          var view := FindView(cfg.views, e.candidate.view);
          if view.Some? {
            updates := BuildFeatureUpdatedEvents(view.value, e.candidate.entityType, [r], |published|);
          }
          if stage.Some? && updates != [] {
            published := published + updates[..Min(stage.value.landed, |updates|)];
            return false;
          }
          published := published + updates;
          tally := tally.(computed := tally.computed + 1, emitted := tally.emitted + |updates|);
      }
      return true;
    }

    method WorkOnAll(units: seq<Entry>, outage: Option<Outage>) returns (ok: bool, ghost at: nat)
      modifies this, offline
      ensures ok <==> Completes(cfg, old(State()), units, outage)
      ensures ok ==> State() == AfterUnits(cfg, old(State()), units)
      ensures !ok ==> at < |units| && IsFirstInterruption(cfg, old(State()), units, outage, at)
      ensures !ok ==> State() == Stopped(cfg, old(State()), units, outage, at)
    {
      hide OutcomeOf, Interrupts, AfterUnit, AfterInterruption;
      ghost var start := State();
      for i := 0 to |units|
        invariant State() == AfterUnits(cfg, start, units[..i])
        invariant forall j :: 0 <= j < i ==> !InterruptedAt(cfg, start, units, outage, j)
      {
        var fine := WorkOn(units[i], StageAt(outage, i));
        if !fine {
          assert InterruptedAt(cfg, start, units, outage, i);
          return false, i;
        }
        AfterUnitsSnoc(cfg, start, units, i);
      }
      assert units[..|units|] == units;
      return true, 0;
    }

    /** Drain, then work on every unit. The drained units are gone even if the wave is interrupted. */
    method ExecuteWave(outage: Option<Outage>) returns (ok: bool, ghost at: nat)
      requires debounce.Valid()
      modifies this, offline, debounce
      ensures debounce.Valid() && debounce.seen == []
      ensures var units, start := Units(old(debounce.seen)), WaveState(old(offline.history), old(published), NO_TALLY);
        && (ok <==> Completes(cfg, start, units, outage))
        && (ok ==> State() == AfterUnits(cfg, start, units))
        && (!ok ==>
              at < |units| && IsFirstInterruption(cfg, start, units, outage, at) &&
                State() == Stopped(cfg, start, units, outage, at))
    {
      var units := debounce.Drain();
      tally := NO_TALLY;
      hide Completes, InterruptedAt, Stopped, AfterUnits;
      ok, at := WorkOnAll(units, outage);
    }
  }

  const NO_TALLY := Tally(0, 0, 0, 0)

  lemma AfterUnitsSnoc(cfg: Config, s: WaveState, units: seq<Entry>, i: nat)
    requires i < |units|
    ensures AfterUnits(cfg, s, units[..i + 1]) == AfterUnit(cfg, AfterUnits(cfg, s, units[..i]), units[i])
  {
    assert units[..i + 1][..i] == units[..i];
  }

  // ---------------------------------------------------------------------------------------
  // What a wave does
  // ---------------------------------------------------------------------------------------

  /** Every planned unit of a completed wave is counted exactly once. */
  lemma {:induction false} TallyAddsUp(cfg: Config, s: WaveState, units: seq<Entry>)
    requires Completes(cfg, s, units, None)
    ensures var t := AfterUnits(cfg, s, units).tally;
      t.computed + t.skipped + t.failed == s.tally.computed + s.tally.skipped + s.tally.failed + |units|
    ensures |AfterUnits(cfg, s, units).published| - |s.published|
      == AfterUnits(cfg, s, units).tally.emitted - s.tally.emitted
  {
    if units != [] {
      var front, last := units[..|units| - 1], |units| - 1;
      forall i: nat
        ensures !InterruptedAt(cfg, s, front, None, i)
      {
        if i < |front| {
          assert front[..i] == units[..i];
          assert !InterruptedAt(cfg, s, units, None, i);
        }
      }
      TallyAddsUp(cfg, s, front);
      assert !InterruptedAt(cfg, s, units, None, last);
    }
  }

  /** What one unit amounts to. Only an exception of a user function that the worker does not catch
      gets out of it. */
  lemma OutcomeMeans(cfg: Config, h: History, e: Entry, view: ViewDef)
    requires FindView(cfg.views, e.candidate.view) == Some(view)
    ensures var features, name, o := ByName(view.features), e.candidate.dependent, OutcomeOf(cfg, h, e);
      var scored := name in features && features[name].kind.Model?;
      var row := RecomputeWith(features, cfg.udfs, view.ref, e.candidate.entity, name, h, cfg.calcTs, cfg.safetyGap);
      if !cfg.keyFits(e.candidate.view, e.candidate.entity) then o == UnitFailed
      else if scored && cfg.runner.None? then o == UnitSkipped
      else if scored then
        match ScoringOf(features, view.ref, name, cfg.runner.value, [e.candidate.entity], h, cfg.calcTs, cfg.safetyGap)
        case Stops(_) => o == UnitFailed
        case Scores(results, _) =>
          (o == UnitSkipped <==> results == []) && (forall r :: o == UnitComputed(r) <==> r in results) &&
            (o.UnitSkipped? || o.UnitComputed?)
      else
        && (o == UnitRaises <==> row.Error? && row.error == Semantics.UdfRaised && !cfg.catchesUdfErrors)
        && (o == UnitFailed <==> row.Error? && (row.error != Semantics.UdfRaised || cfg.catchesUdfErrors))
        && (o == UnitSkipped <==> row == NoRow)
        && forall r :: o == UnitComputed(r) <==> row == Row(r)
  {
    FoundViewHasRef(cfg.views, e.candidate.view);
    hide RecomputeWith, ByName;
    if cfg.runner.Some? {
      AtMostOneScore(ByName(view.features), view.ref, e.candidate.dependent, cfg.runner.value, e.candidate.entity, h,
                     cfg.calcTs, cfg.safetyGap);
    }
    hide ScoringOf;
  }

  lemma AtMostOneScore(features: FeatureTable, view: ViewRef, name: string, runner: ModelRunner, entity: EntityKey,
                       h: History, calcTs: Time, safetyGap: int)
    ensures var s := ScoringOf(features, view, name, runner, [entity], h, calcTs, safetyGap);
      s.Scores? ==> |s.results| <= 1
  {
  }

  /** With a negative safety gap every unit is skipped or fails. */
  lemma NegativeGapComputesNothing(cfg: Config, h: History, e: Entry)
    ensures OutcomeOf(cfg, h, e).UnitComputed? ==> cfg.safetyGap >= 0
  {
    var view := FindView(cfg.views, e.candidate.view);
    if cfg.safetyGap < 0 && view.Some? {
      NegativeGapGivesNoRow(ByName(view.value.features), cfg.udfs, view.value.ref, e.candidate.entity,
                            e.candidate.dependent, h, cfg.calcTs);
      hide RecomputeWithNegativeGap;
    }
  }

  /** A computed unit yields a row of its dependent, for its entity. */
  lemma ComputedRowIsNamed(cfg: Config, h: History, e: Entry)
    requires OutcomeOf(cfg, h, e).UnitComputed?
    ensures OutcomeOf(cfg, h, e).result.ref.name == e.candidate.dependent
    ensures OutcomeOf(cfg, h, e).result.entity == e.candidate.entity
  {
    NegativeGapComputesNothing(cfg, h, e);
    var features, name := ByName(FindView(cfg.views, e.candidate.view).value.features), e.candidate.dependent;
    if name in features && features[name].kind.Model? {
      ScoredRowIsNamed(features, e.candidate.view, name, cfg.runner.value, e.candidate.entity, h, cfg.calcTs,
                       cfg.safetyGap);
    } else {
      RecomputedRowIsNamed(features, cfg.udfs, FindView(cfg.views, e.candidate.view).value.ref, e.candidate.entity,
                           name, h, cfg.calcTs, cfg.safetyGap);
    }
  }

  lemma ScoredRowIsNamed(features: FeatureTable, view: ViewRef, name: string, runner: ModelRunner, entity: EntityKey,
                         h: History, calcTs: Time, safetyGap: nat)
    requires var s := ScoreBatch(features, view, name, runner, [entity], h, calcTs, safetyGap);
      s.Scores? && s.results != []
    ensures var r := ScoreBatch(features, view, name, runner, [entity], h, calcTs, safetyGap).results[0];
      r.ref.name == name && r.entity == entity
  {
    var rows := BuildRows(features, view, [entity], features[name].deps, h, calcTs, safetyGap);
    assert rows[0] in rows;
  }

  lemma RecomputedRowIsNamed(features: FeatureTable, udfs: map<string, UdfBody>, view: ViewRef, entity: EntityKey,
                             name: string,
                             h: History, calcTs: Time, safetyGap: nat)
    requires RecomputeFrom(features, udfs, view, entity, name, h, calcTs, safetyGap).Row?
    ensures var r := RecomputeFrom(features, udfs, view, entity, name, h, calcTs, safetyGap).result;
      r.ref.name == name && r.entity == entity
  {
    var given := PrefillDeps(features, view, entity, features[name].deps, h, calcTs, safetyGap).given;
    var env := WaveEnv(features, udfs, calcTs, given);
    RespondSingle(env, Meaning(env), entity, name);
  }

  /** Whatever a wave announces is a recomputed dependent of one of its units that has reactive
      dependents of its own. */
  lemma {:induction false} WaveAnnouncesDependents(cfg: Config, s: WaveState, units: seq<Entry>, u: Update)
    returns (i: nat)
    requires u in AfterUnits(cfg, s, units).published && u !in s.published
    ensures i < |units| && units[i].candidate.dependent == u.feature && units[i].candidate.view == u.view
    ensures units[i].candidate.entity == u.entity
    ensures FindView(cfg.views, u.view).Some? &&
      HasReactiveDependents(FindView(cfg.views, u.view).value.features, u.feature)
  {
    i := |units| - 1;
    var before, e := AfterUnits(cfg, s, units[..i]), units[i];
    if u in before.published {
      i := WaveAnnouncesDependents(cfg, s, units[..i], u);
    } else {
      var r := OutcomeOf(cfg, before.history, e).result;
      ComputedRowIsNamed(cfg, before.history, e);
      FoundViewHasRef(cfg.views, e.candidate.view);
      var _ := UpdatesComeFromResults(FindView(cfg.views, e.candidate.view).value, e.candidate.entityType, [r],
                                      |before.published|, u);
    }
  }

  /** Unit `i` of the wave yields a row of a feature that something reacts to. Whether the row is new or
      stored already makes no difference. */
  ghost predicate IsAnnounced(cfg: Config, s: WaveState, units: seq<Entry>, i: nat) {
    && i < |units| && OutcomeAt(cfg, s, units, i).UnitComputed?
    && exists v :: FindView(cfg.views, units[i].candidate.view) == Some(v) &&
         Watched(v.features, OutcomeAt(cfg, s, units, i).result.ref.name)
  }

  /** What unit `i` amounts to, after the units before it. */
  ghost function OutcomeAt(cfg: Config, s: WaveState, units: seq<Entry>, i: nat): Outcome
    requires i < |units|
  {
    OutcomeOf(cfg, AfterUnits(cfg, s, units[..i]).history, units[i])
  }

  /** `u` announces the row that unit `i` yields. */
  ghost predicate IsUpdateOf(cfg: Config, s: WaveState, units: seq<Entry>, i: nat, u: Update) {
    && i < |units| && OutcomeAt(cfg, s, units, i).UnitComputed?
    && Announces(u, units[i].candidate.view, units[i].candidate.entityType, OutcomeAt(cfg, s, units, i).result)
  }

  /** The first `n` units publish one update for each of the units `at`, in their order: those that yield
      a row of a watched feature. */
  ghost predicate PublishedAt(cfg: Config, s: WaveState, units: seq<Entry>, n: nat, at: seq<nat>,
                              published: seq<Update>) {
    && Increasing(at) && (forall i: nat :: i in at <==> i < n && IsAnnounced(cfg, s, units, i))
    && |published| == |s.published| + |at| && published[..|s.published|] == s.published
    && forall k :: 0 <= k < |at| ==> IsUpdateOf(cfg, s, units, at[k], published[|s.published| + k])
  }

  /** What a wave publishes, exactly: an update for every unit that yields a row of a watched feature,
      also if the row was stored before, by the wave that an outage interrupted. */
  lemma WaveAnnouncesExactly(cfg: Config, s: WaveState, units: seq<Entry>) returns (at: seq<nat>)
    ensures PublishedAt(cfg, s, units, |units|, at, AfterUnits(cfg, s, units).published)
  {
    at := UnitsAnnounceExactly(cfg, s, units, |units|);
    assert units[..|units|] == units;
  }

  lemma {:induction false} UnitsAnnounceExactly(cfg: Config, s: WaveState, units: seq<Entry>, n: nat)
    returns (at: seq<nat>)
    requires n <= |units|
    ensures PublishedAt(cfg, s, units, n, at, AfterUnits(cfg, s, units[..n]).published)
  {
    at := [];
    if n > 0 {
      var before := UnitsAnnounceExactly(cfg, s, units, n - 1);
      UnitAnnounces(cfg, s, units, n - 1);
      hide AfterUnits, IsAnnounced, IsUpdateOf, PublishedAt;
      PublishedSnoc(cfg, s, units, n - 1, before, AfterUnits(cfg, s, units[..n - 1]).published,
                    AfterUnits(cfg, s, units[..n]).published);
      at := if IsAnnounced(cfg, s, units, n - 1) then before + [n - 1] else before;
    }
  }

  lemma PublishedSnoc(cfg: Config, s: WaveState, units: seq<Entry>, n: nat, at: seq<nat>, before: seq<Update>,
                      after: seq<Update>)
    requires PublishedAt(cfg, s, units, n, at, before)
    requires if IsAnnounced(cfg, s, units, n) then
               |after| == |before| + 1 && after[..|before|] == before && IsUpdateOf(cfg, s, units, n, after[|before|])
             else after == before
    ensures PublishedAt(cfg, s, units, n + 1, if IsAnnounced(cfg, s, units, n) then at + [n] else at, after)
  {
    hide IsAnnounced, IsUpdateOf;
    assert forall k :: 0 <= k < |at| ==> at[k] in at;
  }

  /** What unit `i` adds. */
  lemma UnitAnnounces(cfg: Config, s: WaveState, units: seq<Entry>, i: nat)
    requires i < |units|
    ensures var before, after := AfterUnits(cfg, s, units[..i]).published, AfterUnits(cfg, s, units[..i + 1]).published;
      if IsAnnounced(cfg, s, units, i) then
        |after| == |before| + 1 && after[..|before|] == before && IsUpdateOf(cfg, s, units, i, after[|before|])
      else after == before
  {
    AfterUnitsSnoc(cfg, s, units, i);
    hide OutcomeOf, Watched, Appended, UpdatesFor, AfterUnits, FindView, Announces;
    var before, view := AfterUnits(cfg, s, units[..i]), FindView(cfg.views, units[i].candidate.view);
    if OutcomeAt(cfg, s, units, i).UnitComputed? && view.Some? {
      FoundViewHasRef(cfg.views, units[i].candidate.view);
      OneUpdate(view.value, units[i].candidate.entityType, OutcomeAt(cfg, s, units, i).result, |before.published|);
    }
  }

  /** Exactly when a wave is interrupted at unit `i`: its user function raises what the worker does not
      catch, or an outage hits the unit before its append, or while it has something to publish. */
  lemma InterruptionMeans(cfg: Config, s: WaveState, units: seq<Entry>, outage: Option<Outage>, i: nat)
    ensures InterruptedAt(cfg, s, units, outage, i) <==>
      i < |units| &&
      (OutcomeAt(cfg, s, units, i).UnitRaises? ||
       (outage.Some? && outage.value.unit == i &&
        match outage.value.stage
        case BeforeAppend => true
        case WhilePublishing(_) => IsAnnounced(cfg, s, units, i)))
  {
    if i < |units| {
      var e, before := units[i], AfterUnits(cfg, s, units[..i]);
      hide OutcomeOf, AfterUnits, Watched, UpdatesFor;
      if OutcomeOf(cfg, before.history, e).UnitComputed? && FindView(cfg.views, e.candidate.view).Some? {
        OneUpdate(FindView(cfg.views, e.candidate.view).value, e.candidate.entityType,
                  OutcomeOf(cfg, before.history, e).result, |before.published|);
      }
    }
  }

  /** What is left behind there: the units before it, and, if its row was appended and the publish failed,
      that row too, with its update if that landed all the same. */
  lemma StoppedMeans(cfg: Config, s: WaveState, units: seq<Entry>, outage: Option<Outage>, i: nat)
    requires InterruptedAt(cfg, s, units, outage, i)
    ensures var before, after := AfterUnits(cfg, s, units[..i]), Stopped(cfg, s, units, outage, i);
      var publishing := OutcomeAt(cfg, s, units, i).UnitComputed? && outage.value.stage.WhilePublishing?;
      && after.history == (if publishing then
                             Appended(before.history, units[i].candidate.view, [OutcomeAt(cfg, s, units, i).result])
                           else before.history)
      && before.published <= after.published <= AfterUnits(cfg, s, units[..i + 1]).published
      && (|after.published| > |before.published| <==> publishing && outage.value.stage.landed > 0)
  {
    InterruptionMeans(cfg, s, units, outage, i);
    UnitAnnounces(cfg, s, units, i);
    AfterUnitsSnoc(cfg, s, units, i);
    hide OutcomeOf, AfterUnits, Watched, UpdatesFor, NewResults;
  }

  /** The history holds the row that `u` announces. */  /** The history holds the row that `u` announces. */
  ghost predicate RowStored(h: History, u: Update) {
    exists rec :: rec in h && Matches(Query(u.entity, u.feature, u.version, u.view), rec) &&
      rec.result.dataTs == u.dataTs
  }

  lemma AnnouncedRowIsStored(cfg: Config, s: WaveState, e: Entry, r: FeatureResult, u: Update)
    requires u in Announced(cfg, s, e, r)
    ensures RowStored(Appended(s.history, e.candidate.view, [r]), u)
  {
    FoundViewHasRef(cfg.views, e.candidate.view);
    var source := UpdatesComeFromResults(FindView(cfg.views, e.candidate.view).value, e.candidate.entityType, [r],
                                         |s.published|, u);
    AppendRepresentsAll(s.history, e.candidate.view, [r], source);
    var rec :| rec in Appended(s.history, e.candidate.view, [r]) &&
      Matches(QueryFor(e.candidate.view, source), rec) && SameState(rec.result, source);
    assert Matches(Query(u.entity, u.feature, u.version, u.view), rec);
  }

  lemma RowStaysStored(h: History, more: History, u: Update)
    requires RowStored(h, u)
    ensures RowStored(h + more, u)
  {
    var rec :| rec in h && Matches(Query(u.entity, u.feature, u.version, u.view), rec) && rec.result.dataTs == u.dataTs;
    assert rec in h + more;
  }

  /** Durable append before any announcement: at every point of a wave, completed or interrupted,
      the row behind each update it has published is in the history. */
  lemma {:induction false} WaveAnnouncesStoredRows(cfg: Config, s: WaveState, units: seq<Entry>, u: Update)
    requires u in AfterUnits(cfg, s, units).published && u !in s.published
    ensures RowStored(AfterUnits(cfg, s, units).history, u)
  {
    var before, e := AfterUnits(cfg, s, units[..|units| - 1]), units[|units| - 1];
    var outcome := OutcomeOf(cfg, before.history, e);
    if u in before.published {
      WaveAnnouncesStoredRows(cfg, s, units[..|units| - 1], u);
      if outcome.UnitComputed? {
        RowStaysStored(before.history, Records(e.candidate.view,
                                               NewResults(before.history, e.candidate.view, [outcome.result])), u);
      }
    } else {
      AnnouncedRowIsStored(cfg, before, e, outcome.result, u);
    }
  }

  lemma InterruptedWaveAnnouncesStoredRows(cfg: Config, s: WaveState, units: seq<Entry>, outage: Option<Outage>,
                                           i: nat, u: Update)
    requires i < |units| && u in Stopped(cfg, s, units, outage, i).published && u !in s.published
    ensures RowStored(Stopped(cfg, s, units, outage, i).history, u)
  {
    var before, e := AfterUnits(cfg, s, units[..i]), units[i];
    var outcome := OutcomeOf(cfg, before.history, e);
    if u in before.published {
      WaveAnnouncesStoredRows(cfg, s, units[..i], u);
      if outcome.UnitComputed? {
        RowStaysStored(before.history, Records(e.candidate.view,
                                               NewResults(before.history, e.candidate.view, [outcome.result])), u);
      }
    } else {
      AnnouncedRowIsStored(cfg, before, e, outcome.result, u);
    }
  }

  /** What a unit does to the history, as an action of the provenance model. */
  ghost function ActionOf(cfg: Config, e: Entry): Lookahead.Action
    requires FindView(cfg.views, e.candidate.view).Some?
  {
    var features, name := ByName(FindView(cfg.views, e.candidate.view).value.features), e.candidate.dependent;
    if name in features && features[name].kind.Model? && cfg.runner.Some?
    then Lookahead.Score(e.candidate.view, features, name, cfg.runner.value, [e.candidate.entity], cfg.calcTs,
                         Max(0, cfg.safetyGap))
    else Lookahead.Recompute(e.candidate.view, features, cfg.udfs, e.candidate.entity, name, cfg.calcTs,
                             Max(0, cfg.safetyGap))
  }

  /** A unit that computes extends the history exactly as its action of the provenance model does. */
  lemma UnitIsAnAction(cfg: Config, w: Lookahead.World, published: seq<Update>, tally: Tally, e: Entry)
    requires OutcomeOf(cfg, w.rows, e).UnitComputed?
    ensures AfterUnit(cfg, WaveState(w.rows, published, tally), e).history
      == Lookahead.Perform(w, ActionOf(cfg, e)).rows
  {
    hide Lookahead.Perform, Lookahead.Extend, NewResults;
    NegativeGapComputesNothing(cfg, w.rows, e);
    FoundViewHasRef(cfg.views, e.candidate.view);
    var features, name := ByName(FindView(cfg.views, e.candidate.view).value.features), e.candidate.dependent;
    var r := OutcomeOf(cfg, w.rows, e).result;
    if name in features && features[name].kind.Model? {
      ScoreExtends(w, e.candidate.view, features, name, cfg.runner.value, e.candidate.entity, cfg.calcTs,
                   cfg.safetyGap, r);
    } else {
      RecomputeExtends(w, e.candidate.view, features, cfg.udfs, e.candidate.entity, name, cfg.calcTs, cfg.safetyGap, r);
    }
  }

  lemma ScoreExtends(w: Lookahead.World, view: ViewRef, features: FeatureTable, name: string, runner: ModelRunner,
                     entity: EntityKey,
                     calcTs: Time, safetyGap: nat, r: FeatureResult)
    requires name in features
    requires var s := ScoreBatch(features, view, name, runner, [entity], w.rows, calcTs, safetyGap);
      s.Scores? && s.results != [] && s.results[0] == r
    ensures Lookahead.Perform(w, Lookahead.Score(view, features, name, runner, [entity], calcTs, safetyGap)).rows
         == Appended(w.rows, view, [r])
  {
    var s := ScoreBatch(features, view, name, runner, [entity], w.rows, calcTs, safetyGap);
    assert s.results == [r];
  }

  lemma RecomputeExtends(w: Lookahead.World, view: ViewRef, features: FeatureTable, udfs: map<string, UdfBody>,
                         entity: EntityKey,
                         name: string, calcTs: Time, safetyGap: nat, r: FeatureResult)
    requires RecomputeFrom(features, udfs, view, entity, name, w.rows, calcTs, safetyGap) == Row(r)
    ensures Lookahead.Perform(w, Lookahead.Recompute(view, features, udfs, entity, name, calcTs, safetyGap)).rows
         == Appended(w.rows, view, [r])
  {
  }

  // ---------------------------------------------------------------------------------------
  // Whole waves
  // ---------------------------------------------------------------------------------------

  /** Registries reject features that depend on themselves. */
  ghost predicate NoSelfDependencies(views: seq<ViewDef>) {
    forall v, n :: v in views && n in ByName(v.features) ==> !HasEdge(ByName(v.features)[n].deps, n)
  }

  ghost predicate AllAllowed(actions: seq<Lookahead.Action>) { forall a :: a in actions ==> Lookahead.Allowed(a) }

  lemma ActionIsAllowed(cfg: Config, e: Entry)
    requires NoSelfDependencies(cfg.views) && FindView(cfg.views, e.candidate.view).Some?
    ensures Lookahead.Allowed(ActionOf(cfg, e))
  {
    FoundViewHasRef(cfg.views, e.candidate.view);
  }

  /** The run that one unit amounts to: its action, if it computes. */
  lemma UnitIsARun(cfg: Config, actions: seq<Lookahead.Action>, published: seq<Update>, tally: Tally, e: Entry)
    returns (more: seq<Lookahead.Action>)
    requires NoSelfDependencies(cfg.views)
    ensures AllAllowed(more)
    ensures Lookahead.Run(actions + more).rows
         == AfterUnit(cfg, WaveState(Lookahead.Run(actions).rows, published, tally), e).history
  {
    var w := Lookahead.Run(actions);
    if OutcomeOf(cfg, w.rows, e).UnitComputed? {
      UnitIsAnAction(cfg, w, published, tally, e);
      ActionIsAllowed(cfg, e);
      hide Lookahead.Perform, OutcomeOf;
      more := [ActionOf(cfg, e)];
      assert (actions + more)[..|actions|] == actions;
    } else {
      more := [];
      assert actions + more == actions;
    }
  }

  /** A wave over the history of a run is again a run: it only ever does what the provenance model
      allows, so the history it leaves satisfies everything proved about runs. */
  lemma {:induction false} WaveIsARun(cfg: Config, actions: seq<Lookahead.Action>, published: seq<Update>, tally: Tally,
                                      units: seq<Entry>)
    returns (more: seq<Lookahead.Action>)
    requires NoSelfDependencies(cfg.views)
    ensures AllAllowed(more)
    ensures Lookahead.Run(actions + more).rows
         == AfterUnits(cfg, WaveState(Lookahead.Run(actions).rows, published, tally), units).history
  {
    hide Lookahead.Run, AfterUnit;
    if units == [] {
      more := [];
      assert actions + more == actions;
    } else {
      var front := units[..|units| - 1];
      var before := WaveIsARun(cfg, actions, published, tally, front);
      var s := AfterUnits(cfg, WaveState(Lookahead.Run(actions).rows, published, tally), front);
      var last := UnitIsARun(cfg, actions + before, s.published, s.tally, units[|units| - 1]);
      more := before + last;
      assert actions + more == actions + before + last;
    }
  }

  /** No wave looks ahead: a row selected from the history that a wave leaves, and everything it was
      derived from, was available by the observation. */
  lemma WavesDoNotLookAhead(cfg: Config, actions: seq<Lookahead.Action>, published: seq<Update>, units: seq<Entry>,
                            q: Query, observationTs: Time, safetyGap: nat, i: nat)
    returns (more: seq<Lookahead.Action>)
    requires NoSelfDependencies(cfg.views) && AllAllowed(actions)
    requires var after := AfterUnits(cfg, WaveState(Lookahead.Run(actions).rows, published, NO_TALLY), units).history;
      PitIndex(after, q, observationTs, safetyGap) == Some(i)
    ensures AllAllowed(more)
    ensures var w := Lookahead.Run(actions + more);
      && w.rows == AfterUnits(cfg, WaveState(Lookahead.Run(actions).rows, published, NO_TALLY), units).history
      && forall a: nat :: Lookahead.Ancestor(w, a, i) ==>
           a < |w.rows| && EffectiveAvailability(w.rows[a].result) <= observationTs
  {
    more := WaveIsARun(cfg, actions, published, NO_TALLY, units);
    hide AfterUnits;
    var w := Lookahead.Run(actions + more);
    forall a: nat | Lookahead.Ancestor(w, a, i)
      ensures a < |w.rows| && EffectiveAvailability(w.rows[a].result) <= observationTs
    {
      Lookahead.NoLookahead(actions + more, q, observationTs, safetyGap, i, a);
    }
  }
}
