/** What a recomputed row says, in the terms of feature_store.py: which stored rows were read, what the
    user function was given, and which of its fields come from which rows. */
module RecomputedRows {
  import opened Domain
  import opened Registry
  import opened Semantics
  import opened Engine
  import opened Pit
  import opened Recompute
  import Evaluation

  /** The registry, the user functions, the history and the time that a wave recomputes at. */
  datatype Wave = Wave(features: FeatureTable, udfs: map<string, UdfBody>, view: ViewRef, h: History, calcTs: Time,
                       safetyGap: nat)

  function After(w: Wave, entity: EntityKey, name: string): Recomputed {
    RecomputeWith(w.features, w.udfs, w.view, entity, name, w.h, w.calcTs, w.safetyGap)
  }

  /** The row that an edge reads: under its pinned version or, without a pin, the registered one. */
  function Stored(w: Wave, entity: EntityKey, d: Dependency): Option<FeatureResult> {
    if d.feature !in w.features then None
    else
      var version := match d.version case Some(v) => v case None => w.features[d.feature].version;
      match PitRecord(w.h, Query(entity, d.feature, version, w.view), w.calcTs, w.safetyGap)
      case Some(rec) => Some(rec.result)
      case None => None
  }

  /** Edge `i` is the first one without a row. */
  ghost predicate FirstWithoutRow(w: Wave, entity: EntityKey, deps: seq<Dependency>, i: nat) {
    && i < |deps| && Stored(w, entity, deps[i]).None?
    && forall j :: 0 <= j < i ==> Stored(w, entity, deps[j]).Some?
  }

  ghost predicate IsLastFor(deps: seq<Dependency>, k: int)
    requires 0 <= k < |deps|
  {
    forall j :: k < j < |deps| ==> deps[j].feature != deps[k].feature
  }

  /** `rows` are the rows read for each feature that an edge names, through its last edge. */
  ghost predicate Reads(w: Wave, entity: EntityKey, deps: seq<Dependency>, rows: map<string, FeatureResult>) {
    && (forall n :: n in rows <==> exists d :: d in deps && d.feature == n)
    && forall k :: 0 <= k < |deps| && IsLastFor(deps, k) ==>
         deps[k].feature in rows && Stored(w, entity, deps[k]) == Some(rows[deps[k].feature])
  }

  ghost predicate SomeRequiredTooOld(w: Wave, deps: seq<Dependency>, rows: map<string, FeatureResult>) {
    exists d :: d in deps && d.required && d.feature in rows && d.maxInputAge.Some? &&
      w.calcTs - rows[d.feature].dataTs > d.maxInputAge.value * 1_000_000
  }

  function HashOf(r: FeatureResult): Digest {
    match r.valueHash case Some(hash) => hash case None => ValueHash(r.value)
  }

  /** The row that the answer of the user function becomes. `used` lists the features of `rows`. */
  ghost predicate IsRecomputed(w: Wave, entity: EntityKey, f: FeatureDef, rows: map<string, FeatureResult>,
                               used: seq<string>, answer: Value, r: FeatureResult) {
    && r.ref.name == f.name && r.ref.version == f.version && r.entity == entity && r.calcTs == w.calcTs
    && r.value == answer && r.valueHash == Some(ValueHash(answer))
    && NoDup(used) && (forall n :: n in used <==> n in rows) && (forall n :: n in used ==> n in w.features)
    && (exists n :: n in rows && rows[n].dataTs == r.dataTs)
    && (exists n :: n in rows && r.maxInputDataTs == Some(rows[n].dataTs))
    && (forall n :: n in rows ==> r.dataTs <= rows[n].dataTs)
    && (forall n :: n in rows ==> r.maxInputDataTs.Some? && rows[n].dataTs <= r.maxInputDataTs.value)
    && r.fingerprint == Some(OfInputs(multiset(InputsFrom(w.features, rows, used))))
    && (r.availableAt.Some? <==> forall n :: n in rows ==> rows[n].availableAt.Some?)
    && (r.availableAt.Some? ==>
          && (exists n :: n in rows && rows[n].availableAt == r.availableAt)
          && forall n :: n in rows && rows[n].availableAt.Some? ==>
               rows[n].availableAt.value <= r.availableAt.value)
    && (r.availabilitySource.None? <==> r.availableAt.None?)
    && (r.availabilitySource == Some(SourceProvided) <==>
          r.availableAt.Some? && forall n :: n in rows ==> rows[n].availabilitySource == Some(SourceProvided))
  }

  function InputsFrom(features: FeatureTable, rows: map<string, FeatureResult>, used: seq<string>): seq<Input>
    requires forall n :: n in used ==> n in rows && n in features
  {
    seq(|used|, i requires 0 <= i < |used| =>
      Input(FeatureInput(used[i], features[used[i]].version), rows[used[i]].dataTs, HashOf(rows[used[i]])))
  }

  /** What a recompute makes of the rows it has read. */
  ghost predicate Yields(w: Wave, entity: EntityKey, f: FeatureDef, rows: map<string, FeatureResult>,
                         used: seq<string>, r: Recomputed) {
    if f.inputs != [] then r == Recomputed.Error(SourceUnavailable)
    else if SomeRequiredTooOld(w, f.deps, rows) then r == NoRow
    else if f.udf !in w.udfs then r == Recomputed.Error(UnknownUdf)
    else
      var answer := w.udfs[f.udf](map[], map n | n in rows :: rows[n].value);
      if answer.None? then r == Recomputed.Error(UdfRaised)
      else if f.deps == [] then r == Recomputed.Error(NoInputs)
      else r.Row? && IsRecomputed(w, entity, f, rows, used, answer.value, r.result)
  }

  // ---------------------------------------------------------------------------------------
  // Reading the rows
  // ---------------------------------------------------------------------------------------

  function GivenBy(w: Wave, entity: EntityKey, deps: seq<Dependency>): Prefill {
    PrefillDeps(w.features, w.view, entity, deps, w.h, w.calcTs, w.safetyGap)
  }

  /** A computation carries what the evaluation uses of a row. */
  ghost predicate Carries(c: Computation, r: FeatureResult) {
    && c.value == r.value && c.dataTs == r.dataTs && c.valueHash == HashOf(r) && !c.degraded
    && c.availableAt == r.availableAt && c.availabilitySource == r.availabilitySource
  }

  ghost predicate CarriesAll(given: map<string, Computation>, rows: map<string, FeatureResult>) {
    given.Keys == rows.Keys && forall n :: n in rows ==> Carries(given[n], rows[n])
  }

  lemma ReadsSnoc(w: Wave, entity: EntityKey, front: seq<Dependency>, last: Dependency,
                  rows: map<string, FeatureResult>)
    requires Reads(w, entity, front, rows) && Stored(w, entity, last).Some?
    ensures Reads(w, entity, front + [last], rows[last.feature := Stored(w, entity, last).value])
  {
    hide Stored;
    var deps := front + [last];
    forall k | 0 <= k < |front|
      ensures IsLastFor(deps, k) <==> IsLastFor(front, k) && last.feature != front[k].feature
    {
      assert forall j :: k < j < |front| ==> deps[j] == front[j];
      assert deps[|front|] == last;
    }
    assert last in deps && forall d :: d in front ==> d in deps;
  }

  lemma EdgeGives(w: Wave, entity: EntityKey, front: seq<Dependency>, last: Dependency)
    ensures GivenBy(w, entity, front + [last]) ==
      if !GivenBy(w, entity, front).Filled? then GivenBy(w, entity, front)
      else if last.feature !in w.features then UnknownInput
      else match Stored(w, entity, last)
        case None => MissingInput
        case Some(r) => Filled(GivenBy(w, entity, front).given[last.feature := ComputationOf(r)])
  {
    assert (front + [last])[..|front|] == front;
  }

  /** All rows have been read, and the context holds them. */
  ghost predicate HasRead(w: Wave, entity: EntityKey, deps: seq<Dependency>, rows: map<string, FeatureResult>) {
    && GivenBy(w, entity, deps).Filled? && Reads(w, entity, deps, rows)
    && CarriesAll(GivenBy(w, entity, deps).given, rows)
  }

  lemma CarriesOneMore(given: map<string, Computation>, rows: map<string, FeatureResult>, n: string, r: FeatureResult)
    requires CarriesAll(given, rows)
    ensures CarriesAll(given[n := ComputationOf(r)], rows[n := r])
  {
  }

  lemma HasReadSnoc(w: Wave, entity: EntityKey, front: seq<Dependency>, last: Dependency,
                    rows: map<string, FeatureResult>)
    requires HasRead(w, entity, front, rows) && Stored(w, entity, last).Some?
    ensures HasRead(w, entity, front + [last], rows[last.feature := Stored(w, entity, last).value])
  {
    assert last.feature in w.features;
    hide GivenBy, Reads, Stored, CarriesAll, ComputationOf;
    EdgeGives(w, entity, front, last);
    ReadsSnoc(w, entity, front, last, rows);
    CarriesOneMore(GivenBy(w, entity, front).given, rows, last.feature, Stored(w, entity, last).value);
  }

  lemma {:induction false} ReadsRows(w: Wave, entity: EntityKey, deps: seq<Dependency>)
    returns (rows: map<string, FeatureResult>)
    requires forall d :: d in deps ==> Stored(w, entity, d).Some?
    ensures HasRead(w, entity, deps, rows)
  {
    rows := map[];
    if deps != [] {
      hide GivenBy, Reads, Stored, HasRead;
      var front, last := deps[..|deps| - 1], deps[|deps| - 1];
      assert deps == front + [last];
      var before := ReadsRows(w, entity, front);
      HasReadSnoc(w, entity, front, last, before);
      rows := before[last.feature := Stored(w, entity, last).value];
    }
  }

  /** The first edge without a row decides. */
  lemma FirstWithoutRowDecides(w: Wave, entity: EntityKey, deps: seq<Dependency>, i: nat)
    requires FirstWithoutRow(w, entity, deps, i)
    ensures GivenBy(w, entity, deps) == if deps[i].feature !in w.features then UnknownInput else MissingInput
  {
    hide Stored;
    var rows := ReadsRows(w, entity, deps[..i]);
    EdgeGives(w, entity, deps[..i], deps[i]);
    assert deps[..i] + [deps[i]] == deps[..i + 1];
    PrefillStops(w.features, w.view, entity, deps, w.h, w.calcTs, w.safetyGap, i + 1);
  }

  // ---------------------------------------------------------------------------------------
  // Evaluating over them
  // ---------------------------------------------------------------------------------------

  function EnvOf(w: Wave, given: map<string, Computation>): Env { WaveEnv(w.features, w.udfs, w.calcTs, given) }

  /** The context of the evaluation holds exactly the rows read. */
  ghost predicate Holds(w: Wave, f: FeatureDef, given: map<string, Computation>, rows: map<string, FeatureResult>) {
    && CarriesAll(given, rows) && f.name !in given
    && (forall n :: n in rows <==> exists d :: d in f.deps && d.feature == n)
    && forall n :: n in rows ==> n in w.features
  }

  lemma GivenMeans(w: Wave, f: FeatureDef, given: map<string, Computation>, rows: map<string, FeatureResult>)
    requires Holds(w, f, given, rows)
    ensures var env := EnvOf(w, given);
      && (forall n :: n in rows ==> n in given && Denotation(env, n) == Computed(given[n]))
      && (forall n :: n in rows ==> n in given && Carries(given[n], rows[n]))
      && (forall n :: Evaluation.Uses(env, f, n) <==> n in rows)
      && (forall d :: d in f.deps ==> (Evaluation.Stops(env, Meaning(env), d) <==>
             d.required && d.maxInputAge.Some? &&
               w.calcTs - rows[d.feature].dataTs > d.maxInputAge.value * 1_000_000))
  {
    hide Meaning;
  }

  lemma ArgumentsAreRows(w: Wave, f: FeatureDef, given: map<string, Computation>, rows: map<string, FeatureResult>,
                         payloads: map<string, Value>, values: map<string, Value>)
    requires Holds(w, f, given, rows) && f.inputs == []
    requires Evaluation.Arguments(EnvOf(w, given), f, payloads, values)
    ensures payloads == map[] && values == map n | n in rows :: rows[n].value
  {
    GivenMeans(w, f, given, rows);
    hide Denotation, Meaning, Evaluation.Uses, Evaluation.Stops;
  }

  ghost predicate AreFactsOf(features: FeatureTable, rows: map<string, FeatureResult>, used: seq<string>,
                             facts: seq<Fact>) {
    && |facts| == |used| && (forall n :: n in used <==> n in rows) && (forall n :: n in rows ==> n in features)
    && forall i :: 0 <= i < |used| ==>
         used[i] in rows && used[i] in features && facts[i] == FactOf(features, used[i], rows[used[i]])
  }

  function FactOf(features: FeatureTable, n: string, r: FeatureResult): Fact
    requires n in features
  {
    Fact(FeatureInput(n, features[n].version), r.dataTs, HashOf(r), r.availableAt, r.availabilitySource)
  }

  lemma FactsAreRows(w: Wave, f: FeatureDef, given: map<string, Computation>, rows: map<string, FeatureResult>,
                     used: seq<string>, facts: seq<Fact>)
    requires Holds(w, f, given, rows) && f.inputs == []
    requires Evaluation.IsInputList(EnvOf(w, given), f, used, facts)
    ensures AreFactsOf(w.features, rows, used, facts)
  {
    GivenMeans(w, f, given, rows);
    hide Denotation, Meaning, Evaluation.Uses, Evaluation.Stops;
    assert forall i :: 0 <= i < |used| ==> used[i] in used;
  }

  /** A statement about all facts is one about all rows. */
  lemma FactsAreAll(w: Wave, rows: map<string, FeatureResult>, used: seq<string>, facts: seq<Fact>)
    requires AreFactsOf(w.features, rows, used, facts)
    ensures forall n :: n in rows ==> n in w.features && exists i ::
      0 <= i < |facts| && facts[i] == FactOf(w.features, n, rows[n])
    ensures forall i :: 0 <= i < |facts| ==>
      used[i] in rows && used[i] in w.features && facts[i] == FactOf(w.features, used[i], rows[used[i]])
  {
    forall n | n in rows
      ensures exists i :: 0 <= i < |facts| && facts[i] == FactOf(w.features, n, rows[n])
    {
      assert n in used;
      var i :| 0 <= i < |used| && used[i] == n;
      assert facts[i] == FactOf(w.features, used[i], rows[used[i]]);
    }
  }

  lemma TimesAreRows(w: Wave, rows: map<string, FeatureResult>, used: seq<string>, facts: seq<Fact>, c: Computation)
    requires AreFactsOf(w.features, rows, used, facts) && Evaluation.Summary(c, facts)
    ensures exists n :: n in rows && rows[n].dataTs == c.dataTs
    ensures exists n :: n in rows && rows[n].dataTs == c.maxInputDataTs
    ensures forall n :: n in rows ==> c.dataTs <= rows[n].dataTs <= c.maxInputDataTs
  {
    FactsAreAll(w, rows, used, facts);
    hide AreFactsOf;
    var i :| 0 <= i < |facts| && facts[i].dataTs == c.dataTs;
    var j :| 0 <= j < |facts| && facts[j].dataTs == c.maxInputDataTs;
    assert rows[used[i]].dataTs == c.dataTs && rows[used[j]].dataTs == c.maxInputDataTs;
  }

  lemma AvailabilityIsRows(w: Wave, rows: map<string, FeatureResult>, used: seq<string>, facts: seq<Fact>,
                           c: Computation)
    requires AreFactsOf(w.features, rows, used, facts) && Evaluation.Summary(c, facts)
    ensures c.availableAt.Some? <==> forall n :: n in rows ==> rows[n].availableAt.Some?
    ensures c.availableAt.Some? ==>
      && (exists n :: n in rows && rows[n].availableAt == c.availableAt)
      && forall n :: n in rows && rows[n].availableAt.Some? ==> rows[n].availableAt.value <= c.availableAt.value
    ensures c.availabilitySource.None? <==> c.availableAt.None?
    ensures c.availabilitySource == Some(SourceProvided) <==>
      c.availableAt.Some? && forall n :: n in rows ==> rows[n].availabilitySource == Some(SourceProvided)
  {
    FactsAreAll(w, rows, used, facts);
    hide AreFactsOf;
    if c.availableAt.Some? {
      var i :| 0 <= i < |facts| && facts[i].availableAt == c.availableAt;
      assert rows[used[i]].availableAt == c.availableAt;
    }
  }

  lemma SummaryIsRecomputed(w: Wave, entity: EntityKey, f: FeatureDef, rows: map<string, FeatureResult>,
                            used: seq<string>, facts: seq<Fact>, c: Computation)
    requires f.name in w.features && w.features[f.name] == f && NoDup(used)
    requires AreFactsOf(w.features, rows, used, facts) && Evaluation.Summary(c, facts)
    ensures IsRecomputed(w, entity, f, rows, used, c.value, ResultOf(w.features, w.calcTs, entity, f.name, c))
  {
    TimesAreRows(w, rows, used, facts, c);
    AvailabilityIsRows(w, rows, used, facts, c);
    assert InputsFrom(w.features, rows, used)
      == seq(|facts|, i requires 0 <= i < |facts| => Input(facts[i].id, facts[i].dataTs, facts[i].hash));
  }

  /** What the engine's answer for the feature makes of the recompute. */
  function AnswerOf(w: Wave, entity: EntityKey, name: string, o: Outcome): Recomputed
    requires name in w.features
  {
    match o
    case Failed(e) => Recomputed.Error(e)
    case Skipped => NoRow
    case Computed(c) => Row(ResultOf(w.features, w.calcTs, entity, name, c))
  }

  lemma EvaluationMeans(w: Wave, entity: EntityKey, f: FeatureDef, given: map<string, Computation>,
                        rows: map<string, FeatureResult>) returns (used: seq<string>)
    requires Holds(w, f, given, rows) && f.name in w.features && w.features[f.name] == f
    ensures Yields(w, entity, f, rows, used, AnswerOf(w, entity, f.name, Denotation(EnvOf(w, given), f.name)))
  {
    var env := EnvOf(w, given);
    used := [];
    GivenMeans(w, f, given, rows);
    if f.inputs != [] {
      assert f.inputs[0] in f.inputs;
      Evaluation.UnloadedFails(env, f.name);
    } else if Evaluation.SomeEdgeStops(env, f) {
      var i := Evaluation.SomeStopIsFirst(env, Meaning(env), f.deps);
      Evaluation.StoppedMeans(env, f.name, i);
    } else {
      used := AnsweredMeans(w, entity, f, given, rows);
    }
  }

  /** The checks after the edges, for the arguments that the rows give. */
  lemma ChecksOverRows(w: Wave, f: FeatureDef, given: map<string, Computation>, rows: map<string, FeatureResult>)
    requires Holds(w, f, given, rows) && f.name in w.features && w.features[f.name] == f && f.inputs == []
    requires !Evaluation.SomeEdgeStops(EnvOf(w, given), f)
    ensures f.udf !in w.udfs ==> Denotation(EnvOf(w, given), f.name) == Failed(UnknownUdf)
    ensures f.udf in w.udfs ==>
      Evaluation.AnswerDecides(EnvOf(w, given), f, map[], map n | n in rows :: rows[n].value,
                               Denotation(EnvOf(w, given), f.name))
  {
    var env := EnvOf(w, given);
    GivenMeans(w, f, given, rows);
    Evaluation.UnstoppedMeans(env, f.name);
    hide Denotation, Meaning, Evaluation.Stops, Evaluation.Uses, Evaluation.Arguments, Evaluation.AnswerDecides;
    if f.udf in w.udfs {
      var payloads, values :| Evaluation.Arguments(env, f, payloads, values) &&
        Evaluation.AnswerDecides(env, f, payloads, values, Denotation(env, f.name));
      ArgumentsAreRows(w, f, given, rows, payloads, values);
    }
  }

  lemma ComputedOverRows(w: Wave, entity: EntityKey, f: FeatureDef, given: map<string, Computation>,
                         rows: map<string, FeatureResult>) returns (used: seq<string>)
    requires Holds(w, f, given, rows) && f.name in w.features && w.features[f.name] == f && f.inputs == []
    requires Denotation(EnvOf(w, given), f.name).Computed?
    ensures var c := Denotation(EnvOf(w, given), f.name).comp;
      IsRecomputed(w, entity, f, rows, used, c.value, ResultOf(w.features, w.calcTs, entity, f.name, c))
  {
    hide Denotation, Meaning, Evaluation.Stops, Evaluation.Uses, IsRecomputed, Evaluation.Arguments,
    Evaluation.Degrades;
    var payloads, values, facts;
    payloads, values, used, facts := Evaluation.ComputedMeans(EnvOf(w, given), f.name);
    FactsAreRows(w, f, given, rows, used, facts);
    SummaryIsRecomputed(w, entity, f, rows, used, facts, Denotation(EnvOf(w, given), f.name).comp);
  }

  lemma AnsweredMeans(w: Wave, entity: EntityKey, f: FeatureDef, given: map<string, Computation>,
                      rows: map<string, FeatureResult>) returns (used: seq<string>)
    requires Holds(w, f, given, rows) && f.name in w.features && w.features[f.name] == f && f.inputs == []
    requires !Evaluation.SomeEdgeStops(EnvOf(w, given), f)
    ensures Yields(w, entity, f, rows, used, AnswerOf(w, entity, f.name, Denotation(EnvOf(w, given), f.name)))
  {
    used := [];
    NothingRequiredTooOld(w, f, given, rows);
    ChecksOverRows(w, f, given, rows);
    if Denotation(EnvOf(w, given), f.name).Computed? {
      used := ComputedOverRows(w, entity, f, given, rows);
    }
    hide Denotation, Meaning, IsRecomputed, Evaluation.Uses, ResultOf, SomeRequiredTooOld, Evaluation.SomeEdgeStops,
      CarriesAll;
    assert (map n | n in rows :: rows[n].value) == map[] <==> f.deps == [] by { NoRowsWithoutDeps(w, f, given, rows); }
  }

  lemma NothingRequiredTooOld(w: Wave, f: FeatureDef, given: map<string, Computation>, rows: map<string, FeatureResult>)
    requires Holds(w, f, given, rows) && !Evaluation.SomeEdgeStops(EnvOf(w, given), f)
    ensures !SomeRequiredTooOld(w, f.deps, rows)
  {
    GivenMeans(w, f, given, rows);
    hide Denotation, Meaning, Evaluation.Stops;
  }

  lemma NoRowsWithoutDeps(w: Wave, f: FeatureDef, given: map<string, Computation>, rows: map<string, FeatureResult>)
    requires Holds(w, f, given, rows)
    ensures (map n | n in rows :: rows[n].value) == map[] <==> f.deps == []
  {
    if f.deps != [] {
      assert f.deps[0] in f.deps && f.deps[0].feature in rows;
      assert f.deps[0].feature in (map n | n in rows :: rows[n].value);
    }
  }

  lemma EvaluatesOver(w: Wave, entity: EntityKey, name: string)
    requires name in w.features
    ensures match GivenBy(w, entity, w.features[name].deps)
            case UnknownInput => After(w, entity, name) == Recomputed.Error(UnknownFeature)
            case MissingInput => After(w, entity, name) == NoRow
            case Filled(given) =>
              After(w, entity, name) == AnswerOf(w, entity, name, Denotation(EnvOf(w, given), name))
  {
    if GivenBy(w, entity, w.features[name].deps).Filled? {
      var env := EnvOf(w, GivenBy(w, entity, w.features[name].deps).given);
      RespondSingle(env, Meaning(env), entity, name);
    }
  }

  lemma ReadsHold(w: Wave, entity: EntityKey, f: FeatureDef, given: map<string, Computation>,
                  rows: map<string, FeatureResult>)
    requires forall d :: d in f.deps ==> Stored(w, entity, d).Some? && d.feature != f.name
    requires Reads(w, entity, f.deps, rows) && CarriesAll(given, rows)
    ensures Holds(w, f, given, rows)
  {
  }

  /** Every edge has a row. */
  lemma ReadMeans(w: Wave, entity: EntityKey, name: string)
    returns (rows: map<string, FeatureResult>, used: seq<string>)
    requires name in w.features
    requires forall d :: d in w.features[name].deps ==> Stored(w, entity, d).Some? && d.feature != name
    ensures Reads(w, entity, w.features[name].deps, rows)
    ensures Yields(w, entity, w.features[name], rows, used, After(w, entity, name))
  {
    hide Stored, Yields, Denotation, GivenBy, RecomputeFrom, Holds, CarriesAll, Reads;
    var f := w.features[name];
    rows := ReadsRows(w, entity, f.deps);
    ReadsHold(w, entity, f, GivenBy(w, entity, f.deps).given, rows);
    used := EvaluationMeans(w, entity, f, GivenBy(w, entity, f.deps).given, rows);
    EvaluatesOver(w, entity, name);
  }

  /** A recompute stops at its first edge without a row; an edge to an unknown feature is an error, any
      other one leaves the feature without a row. Otherwise its answer is that of the user function for
      the values of the rows read, and every field of the new row comes from these rows. */
  lemma RecomputeMeans(w: Wave, entity: EntityKey, name: string)
    returns (rows: map<string, FeatureResult>, used: seq<string>)
    ensures name !in w.features ==> After(w, entity, name) == Recomputed.Error(UnknownFeature)
    ensures name in w.features && (forall d :: d in w.features[name].deps ==> d.feature != name) ==>
      var deps := w.features[name].deps;
      if exists d :: d in deps && Stored(w, entity, d).None? then
        forall i: nat :: FirstWithoutRow(w, entity, deps, i) ==>
          After(w, entity, name) ==
            if deps[i].feature !in w.features then Recomputed.Error(UnknownFeature) else NoRow
      else Reads(w, entity, deps, rows) && Yields(w, entity, w.features[name], rows, used, After(w, entity, name))
  {
    rows, used := map[], [];
    if name in w.features {
      hide Stored, Yields, Denotation, GivenBy, RecomputeFrom, Reads;
      var deps := w.features[name].deps;
      if forall d :: d in deps ==> Stored(w, entity, d).Some? && d.feature != name {
        rows, used := ReadMeans(w, entity, name);
      } else {
        EvaluatesOver(w, entity, name);
        forall i: nat | FirstWithoutRow(w, entity, deps, i) {
          FirstWithoutRowDecides(w, entity, deps, i);
        }
      }
    }
  }
}
