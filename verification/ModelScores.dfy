/** What a scored row says, in the terms of model_feature_batch.py: which entities are scored, what the
    model is given for each of them, and how each answer becomes a row. */
module ModelScores {
  import opened Domain
  import opened Registry
  import opened Pit
  import opened ModelBatch

  /** The registry, the history and the observation that a batch looks from. */
  datatype Look = Look(features: FeatureTable, view: ViewRef, h: History, observationTs: Time, safetyGap: nat)

  /** The edge names a version, or a feature that has one. */
  predicate Known(l: Look, d: Dependency) { d.version.Some? || d.feature in l.features }

  ghost predicate AllKnown(l: Look, deps: seq<Dependency>) { forall d :: d in deps ==> Known(l, d) }

  function VersionOf(l: Look, d: Dependency): nat
    requires Known(l, d)
  {
    match d.version case Some(v) => v case None => l.features[d.feature].version
  }

  /** The row that an entity has for an edge at the observation. */
  function Fetched(l: Look, entity: EntityKey, d: Dependency): Option<FeatureResult>
    requires Known(l, d)
  {
    match PitRecord(l.h, Query(entity, d.feature, VersionOf(l, d), l.view), l.observationTs, l.safetyGap)
    case Some(rec) => Some(rec.result)
    case None => None
  }

  /** The entity has a row for every required edge and for at least one edge. */
  ghost predicate Scorable(l: Look, entity: EntityKey, deps: seq<Dependency>)
    requires AllKnown(l, deps)
  {
    && (forall k :: 0 <= k < |deps| && deps[k].required ==> Fetched(l, entity, deps[k]).Some?)
    && exists k :: 0 <= k < |deps| && Fetched(l, entity, deps[k]).Some?
  }

  /** The positions of the edges that have a row, in order. */
  ghost predicate Picks(l: Look, entity: EntityKey, deps: seq<Dependency>, picks: seq<nat>)
    requires AllKnown(l, deps)
  {
    && Increasing(picks)
    && forall k: nat :: k in picks <==> k < |deps| && Fetched(l, entity, deps[k]).Some?
  }

  /** The frame binds the feature of each edge that has a row to the value of that row, the last such
      edge if there are several. */
  ghost predicate Binds(l: Look, entity: EntityKey, deps: seq<Dependency>, frame: Frame)
    requires AllKnown(l, deps)
  {
    && (forall n :: n in frame ==> exists k ::
        0 <= k < |deps| && LastWithRow(l, entity, deps, k) && deps[k].feature == n)
    && forall k :: 0 <= k < |deps| && LastWithRow(l, entity, deps, k) ==>
         deps[k].feature in frame && frame[deps[k].feature] == Fetched(l, entity, deps[k]).value.value
  }

  ghost predicate LastWithRow(l: Look, entity: EntityKey, deps: seq<Dependency>, k: int)
    requires AllKnown(l, deps) && 0 <= k < |deps|
  {
    && Fetched(l, entity, deps[k]).Some?
    && forall j :: k < j < |deps| && deps[j].feature == deps[k].feature ==> Fetched(l, entity, deps[j]).None?
  }

  /** The consumed rows as fingerprint inputs. A row from before value hashes were stored is hashed now. */
  function ConsumedInput(l: Look, entity: EntityKey, d: Dependency): Input
    requires Known(l, d) && Fetched(l, entity, d).Some?
  {
    var r := Fetched(l, entity, d).value;
    Input(FeatureInput(d.feature, VersionOf(l, d)), r.dataTs,
          match r.valueHash case Some(hash) => hash case None => ValueHash(r.value))
  }

  ghost function ConsumedInputs(l: Look, entity: EntityKey, deps: seq<Dependency>, picks: seq<nat>): seq<Input>
    requires AllKnown(l, deps) && Picks(l, entity, deps, picks)
  {
    seq(|picks|, p requires 0 <= p < |picks| => assert picks[p] in picks; ConsumedInput(l, entity, deps[picks[p]]))
  }

  /** The row that a prediction becomes. */
  ghost predicate IsScore(l: Look, f: FeatureDef, entity: EntityKey, picks: seq<nat>, prediction: Value,
                          r: FeatureResult)
    requires f.kind.Model? && AllKnown(l, f.deps) && Picks(l, entity, f.deps, picks)
  {
    var inputs := ConsumedInputs(l, entity, f.deps, picks);
    && r.ref.name == f.name && r.ref.version == f.version && r.entity == entity
    && r.value == prediction && r.valueHash == Some(ValueHash(prediction)) && r.calcTs == l.observationTs
    && (exists i :: i in inputs && i.dataTs == r.dataTs) &&
      (exists i :: i in inputs && r.maxInputDataTs == Some(i.dataTs))
    && (forall i :: i in inputs ==> r.dataTs <= i.dataTs)
    && (forall i :: i in inputs ==> r.maxInputDataTs.Some? && i.dataTs <= r.maxInputDataTs.value)
    && r.fingerprint == Some(OfInputs(multiset(inputs) +
                               multiset{Input(ModelInput(f.kind.uri, f.kind.outputName), r.dataTs,
                                              ContentHash(f.kind.digest))}))
    && r.availableAt == None && r.availabilitySource == None
  }

  // ---------------------------------------------------------------------------------------
  // One entity
  // ---------------------------------------------------------------------------------------

  function RowFor(l: Look, entity: EntityKey, deps: seq<Dependency>): Option<FrameRow>
    requires AllKnown(l, deps)
  {
    ReadInputs(l.features, l.view, entity, deps, l.h, l.observationTs, l.safetyGap)
  }

  lemma EdgeReads(l: Look, entity: EntityKey, front: seq<Dependency>, last: Dependency)
    requires AllKnown(l, front) && Known(l, last) && AllKnown(l, front + [last])
    ensures RowFor(l, entity, front + [last]) ==
      if RowFor(l, entity, front).None? then None
      else match Fetched(l, entity, last)
        case None => if last.required then None else RowFor(l, entity, front)
        case Some(r) =>
          var row := RowFor(l, entity, front).value;
          Some(row.(frame := row.frame[last.feature := r.value],
                    inputs := row.inputs + [ConsumedInput(l, entity, last)]))
  {
    assert (front + [last])[..|front|] == front;
    ReadInputsKeepEntity(l.features, l.view, entity, front, l.h, l.observationTs, l.safetyGap);
  }

  lemma PicksSnoc(l: Look, entity: EntityKey, front: seq<Dependency>, last: Dependency, picks: seq<nat>)
    requires AllKnown(l, front) && Known(l, last) && AllKnown(l, front + [last]) && Picks(l, entity, front, picks)
    ensures var all := if Fetched(l, entity, last).Some? then picks + [|front|] else picks;
      && Picks(l, entity, front + [last], all)
      && ConsumedInputs(l, entity, front + [last], all) == ConsumedInputs(l, entity, front, picks) +
         if Fetched(l, entity, last).Some? then [ConsumedInput(l, entity, last)] else []
  {
    hide Fetched;
    assert forall p :: 0 <= p < |picks| ==> picks[p] in picks;
  }

  lemma BindsSnoc(l: Look, entity: EntityKey, front: seq<Dependency>, last: Dependency, frame: Frame)
    requires AllKnown(l, front) && Known(l, last) && AllKnown(l, front + [last]) && Binds(l, entity, front, frame)
    ensures Binds(l, entity, front + [last],
                  match Fetched(l, entity, last)
                  case Some(r) => frame[last.feature := r.value]
                  case None => frame)
  {
    hide Fetched;
    var deps := front + [last];
    forall k | 0 <= k < |front|
      ensures LastWithRow(l, entity, deps, k) <==>
        LastWithRow(l, entity, front, k) && (last.feature == front[k].feature ==> Fetched(l, entity, last).None?)
    {
      assert forall j :: k < j < |front| ==> deps[j] == front[j];
    }
    assert deps[|front|] == last;
    assert LastWithRow(l, entity, deps, |front|) <==> Fetched(l, entity, last).Some?;
  }

  /** No required edge is without a row. */
  ghost predicate HasRequired(l: Look, entity: EntityKey, deps: seq<Dependency>)
    requires AllKnown(l, deps)
  {
    forall k :: 0 <= k < |deps| && deps[k].required ==> Fetched(l, entity, deps[k]).Some?
  }

  ghost predicate RowSays(l: Look, entity: EntityKey, deps: seq<Dependency>, row: FrameRow, picks: seq<nat>)
    requires AllKnown(l, deps) && Picks(l, entity, deps, picks)
  {
    row.entity == entity && row.inputs == ConsumedInputs(l, entity, deps, picks) && Binds(l, entity, deps, row.frame)
  }

  lemma HasRequiredSnoc(l: Look, entity: EntityKey, front: seq<Dependency>, last: Dependency)
    requires AllKnown(l, front) && Known(l, last) && AllKnown(l, front + [last])
    ensures HasRequired(l, entity, front + [last]) <==>
      HasRequired(l, entity, front) && (last.required ==> Fetched(l, entity, last).Some?)
  {
    hide Fetched;
    assert (front + [last])[|front|] == last && forall k :: 0 <= k < |front| ==> (front + [last])[k] == front[k];
  }

  lemma {:induction false} RowMeans(l: Look, entity: EntityKey, deps: seq<Dependency>) returns (picks: seq<nat>)
    requires AllKnown(l, deps)
    ensures Picks(l, entity, deps, picks)
    ensures RowFor(l, entity, deps).Some? <==> HasRequired(l, entity, deps)
    ensures RowFor(l, entity, deps).Some? ==> RowSays(l, entity, deps, RowFor(l, entity, deps).value, picks)
  {
    picks := [];
    if deps != [] {
      var front, last := deps[..|deps| - 1], deps[|deps| - 1];
      assert deps == front + [last];
      var before := RowMeans(l, entity, front);
      EdgeReads(l, entity, front, last);
      PicksSnoc(l, entity, front, last, before);
      HasRequiredSnoc(l, entity, front, last);
      if RowFor(l, entity, front).Some? {
        BindsSnoc(l, entity, front, last, RowFor(l, entity, front).value.frame);
      }
      hide RowFor, Fetched, Picks, Binds, ConsumedInputs, ConsumedInput, HasRequired, AllKnown, Known;
      picks := if Fetched(l, entity, last).Some? then before + [|front|] else before;
    }
  }

  // ---------------------------------------------------------------------------------------
  // The whole batch
  // ---------------------------------------------------------------------------------------

  /** The positions of the entities that are scored, in order. */
  ghost predicate AreScored(l: Look, entities: seq<EntityKey>, deps: seq<Dependency>, scored: seq<nat>)
    requires AllKnown(l, deps)
  {
    && Increasing(scored)
    && forall k: nat :: k in scored <==> k < |entities| && Scorable(l, entities[k], deps)
  }

  function RowsFor(l: Look, entities: seq<EntityKey>, deps: seq<Dependency>): seq<FrameRow>
    requires AllKnown(l, deps)
  {
    BuildRows(l.features, l.view, entities, deps, l.h, l.observationTs, l.safetyGap)
  }

  ghost predicate IsRow(l: Look, entity: EntityKey, deps: seq<Dependency>, row: FrameRow, picks: seq<nat>)
    requires AllKnown(l, deps)
  {
    Picks(l, entity, deps, picks) && RowSays(l, entity, deps, row, picks) && row.inputs != []
  }

  lemma OneRow(l: Look, entity: EntityKey, deps: seq<Dependency>) returns (picks: seq<nat>)
    requires AllKnown(l, deps)
    ensures var row := BuildRow(l.features, l.view, entity, deps, l.h, l.observationTs, l.safetyGap);
      && (row.Some? <==> Scorable(l, entity, deps))
      && (row.Some? ==> IsRow(l, entity, deps, row.value, picks))
  {
    picks := RowMeans(l, entity, deps);
    hide Fetched, ConsumedInput, Binds, ReadInputs;
    var row := RowFor(l, entity, deps);
    assert row.Some? ==> |row.value.inputs| == |picks|;
    assert picks == [] <==> forall k :: 0 <= k < |deps| ==> Fetched(l, entity, deps[k]).None? by {
      if picks != [] {
        assert picks[0] in picks;
      }
      assert forall k: nat :: k < |deps| && Fetched(l, entity, deps[k]).Some? ==> k in picks;
    }
  }

  /** Positions `scored` of the entities, with a row and its picks for each. */
  ghost predicate RowsSay(l: Look, entities: seq<EntityKey>, deps: seq<Dependency>, rows: seq<FrameRow>,
                          scored: seq<nat>, picks: seq<seq<nat>>)
    requires AllKnown(l, deps)
  {
    && AreScored(l, entities, deps, scored) && |scored| == |picks| == |rows|
    && forall i :: 0 <= i < |scored| ==>
         scored[i] < |entities| && IsRow(l, entities[scored[i]], deps, rows[i], picks[i])
  }

  lemma RowsSnoc(l: Look, front: seq<EntityKey>, last: EntityKey, deps: seq<Dependency>, rows: seq<FrameRow>,
                 scored: seq<nat>, picks: seq<seq<nat>>, row: Option<FrameRow>, mine: seq<nat>)
    requires AllKnown(l, deps) && RowsSay(l, front, deps, rows, scored, picks)
    requires (row.Some? <==> Scorable(l, last, deps)) && (row.Some? ==> IsRow(l, last, deps, row.value, mine))
    ensures if row.Some?
            then RowsSay(l, front + [last], deps, rows + [row.value], scored + [|front|], picks + [mine])
            else RowsSay(l, front + [last], deps, rows, scored, picks)
  {
    hide Scorable, IsRow;
    assert forall p :: 0 <= p < |scored| ==> scored[p] in scored;
    assert (front + [last])[|front|] == last;
  }

  lemma {:induction false} RowsMean(l: Look, entities: seq<EntityKey>, deps: seq<Dependency>)
    returns (scored: seq<nat>, picks: seq<seq<nat>>)
    requires AllKnown(l, deps)
    ensures RowsSay(l, entities, deps, RowsFor(l, entities, deps), scored, picks)
  {
    scored, picks := [], [];
    if entities != [] {
      var front, last := entities[..|entities| - 1], entities[|entities| - 1];
      assert entities == front + [last];
      scored, picks := RowsMean(l, front, deps);
      var mine := OneRow(l, last, deps);
      var row := BuildRow(l.features, l.view, last, deps, l.h, l.observationTs, l.safetyGap);
      RowsSnoc(l, front, last, deps, RowsFor(l, front, deps), scored, picks, row, mine);
      hide BuildRow, RowsSay, Scorable, IsRow;
      if row.Some? {
        scored, picks := scored + [|front|], picks + [mine];
      } else {
        assert RowsFor(l, entities, deps) == RowsFor(l, front, deps);
      }
    }
  }

  lemma ScoreMeans(l: Look, f: FeatureDef, entity: EntityKey, row: FrameRow, picks: seq<nat>, prediction: Value)
    requires f.kind.Model? && AllKnown(l, f.deps) && IsRow(l, entity, f.deps, row, picks)
    ensures IsScore(l, f, entity, picks, prediction, ScoredResult(f, row, prediction, l.observationTs))
  {
    hide Binds, ConsumedInput, Picks, Fetched;
    InputBounds(row.inputs);
    hide OldestInput, NewestInput;
  }

  /** What the batch returns, given what the model is given and what it answers. */
  ghost predicate Returns(l: Look, f: FeatureDef, entities: seq<EntityKey>, scored: seq<nat>, picks: seq<seq<nat>>,
                          frames: seq<Frame>, answers: seq<Value>, r: Scoring)
    requires f.kind.Model? && AllKnown(l, f.deps)
  {
    && AreScored(l, entities, f.deps, scored) && |frames| == |picks| == |scored|
    && (forall i :: 0 <= i < |scored| ==>
          && scored[i] < |entities| && Picks(l, entities[scored[i]], f.deps, picks[i])
          && Binds(l, entities[scored[i]], f.deps, frames[i]))
    && if |answers| != |scored| then r == Stops(PredictionCountMismatch)
       else
         && r.Scores? && r.skipped == |entities| - |scored| && |r.results| == |scored|
         && forall i :: 0 <= i < |scored| ==>
              IsScore(l, f, entities[scored[i]], picks[i], answers[i], r.results[i])
  }

  /** The model is called once, with one frame for each entity that can be scored, in the order of the
      entities, or not at all; and its i-th answer becomes the row of the i-th of them. */
  lemma ScoresMean(l: Look, name: string, runner: ModelRunner, entities: seq<EntityKey>)
    returns (scored: seq<nat>, picks: seq<seq<nat>>, frames: seq<Frame>)
    ensures var r := ScoringOf(l.features, l.view, name, runner, entities, l.h, l.observationTs, l.safetyGap);
      if name !in l.features || !l.features[name].kind.Model? then r == Stops(NotAModelFeature)
      else if !("mlflow://" <= l.features[name].kind.uri) then r == Stops(UnsupportedModel)
      else if !AllKnown(l, l.features[name].deps) then r == Stops(UnknownInputFeature)
      else Returns(l, l.features[name], entities, scored, picks, frames, if frames == [] then [] else runner(frames), r)
  {
    scored, picks, frames := [], [], [];
    if RefusalOf(l.features, name).None? {
      var f := l.features[name];
      assert AllKnown(l, f.deps);
      var rows := RowsFor(l, entities, f.deps);
      scored, picks := RowsMean(l, entities, f.deps);
      frames := Frames(rows);
      var answers := if frames == [] then [] else runner(frames);
      hide Picks, Binds, AreScored, ConsumedInputs, BuildRows, RowsFor, IsScore;
      if |answers| == |rows| {
        forall i | 0 <= i < |scored|
          ensures IsScore(l, f, entities[scored[i]], picks[i], answers[i],
                          ScoredResult(f, rows[i], answers[i], l.observationTs))
        {
          ScoreMeans(l, f, entities[scored[i]], rows[i], picks[i], answers[i]);
        }
      }
    }
  }
}
