/** Batch-only model features (model_feature_batch.py): point-in-time inputs, one vectorised
    model call for the whole batch, rows appended to offline history. */
module ModelBatch {
  import opened Domain
  import opened Registry
  import opened Pit
  import opened Dedup
  import Propagation

  const SUPPORTED_MODEL_URI_PREFIX := "mlflow://"

  type Frame = map<string, Value>

  datatype FrameRow = FrameRow(entity: EntityKey, frame: Frame, inputs: seq<Input>)

  /** The version that an input edge reads; an unpinned edge to an unknown feature has none. */
  predicate HasVersion(features: FeatureTable, d: Dependency) {
    d.version.Some? || d.feature in features
  }

  function VersionRead(features: FeatureTable, d: Dependency): nat
    requires HasVersion(features, d)
  {
    if d.version.Some? then d.version.value else features[d.feature].version
  }

  function InputQuery(features: FeatureTable, view: ViewRef, entity: EntityKey, d: Dependency): Query
    requires HasVersion(features, d)
  {
    Query(entity, d.feature, VersionRead(features, d), view)
  }

  /** The row under construction, or `None` once a required input was missing. */
  function ReadInput(features: FeatureTable, view: ViewRef, d: Dependency, h: History,
                     observationTs: Time, safetyGap: nat, acc: Option<FrameRow>): Option<FrameRow>
    requires HasVersion(features, d)
  {
    if acc.None? then None
    else
      var rec := PitRecord(h, InputQuery(features, view, acc.value.entity, d), observationTs, safetyGap);
      if rec.None? then (if d.required then None else acc)
      else
        var r := rec.value.result;
        var input := Input(FeatureInput(d.feature, VersionRead(features, d)), r.dataTs,
                           if r.valueHash.Some? then r.valueHash.value else ValueHash(r.value));
        Some(acc.value.(frame := acc.value.frame[d.feature := r.value], inputs := acc.value.inputs + [input]))
  }

  function ReadInputs(features: FeatureTable, view: ViewRef, entity: EntityKey, deps: seq<Dependency>, h: History,
                      observationTs: Time, safetyGap: nat): Option<FrameRow>
    requires forall d :: d in deps ==> HasVersion(features, d)
  {
    if deps == [] then Some(FrameRow(entity, map[], []))
    else
      var acc := ReadInputs(features, view, entity, deps[..|deps| - 1], h, observationTs, safetyGap);
      ReadInput(features, view, deps[|deps| - 1], h, observationTs, safetyGap, acc)
  }

  /** One entity's inputs; `None` if a required one is absent or there is nothing to score. */
  function BuildRow(features: FeatureTable, view: ViewRef, entity: EntityKey, deps: seq<Dependency>, h: History,
                    observationTs: Time, safetyGap: nat): Option<FrameRow>
    requires forall d :: d in deps ==> HasVersion(features, d)
  {
    var row := ReadInputs(features, view, entity, deps, h, observationTs, safetyGap);
    if row.Some? && row.value.inputs != [] then row else None
  }

  function BuildRows(features: FeatureTable, view: ViewRef, entities: seq<EntityKey>, deps: seq<Dependency>, h: History,
                     observationTs: Time, safetyGap: nat): (rows: seq<FrameRow>)
    requires forall d :: d in deps ==> HasVersion(features, d)
    ensures forall r :: r in rows ==> r.inputs != [] && r.entity in entities
    ensures |rows| <= |entities|
  {
    if entities == [] then []
    else
      var last := entities[|entities| - 1];
      assert entities == entities[..|entities| - 1] + [last];
      ReadInputsKeepEntity(features, view, last, deps, h, observationTs, safetyGap);
      var row := BuildRow(features, view, last, deps, h, observationTs, safetyGap);
      BuildRows(features, view, entities[..|entities| - 1], deps, h, observationTs, safetyGap) +
      (if row.Some? then [row.value] else [])
  }

  lemma {:induction false} ReadInputsKeepEntity(features: FeatureTable, view: ViewRef, entity: EntityKey,
                                                deps: seq<Dependency>, h: History, observationTs: Time, safetyGap: nat)
    requires forall d :: d in deps ==> HasVersion(features, d)
    ensures var row := ReadInputs(features, view, entity, deps, h, observationTs, safetyGap);
      row.Some? ==> row.value.entity == entity
  {
    if deps != [] {
      ReadInputsKeepEntity(features, view, entity, deps[..|deps| - 1], h, observationTs, safetyGap);
    }
  }

  function OldestInput(inputs: seq<Input>): Time
    requires inputs != []
  {
    if |inputs| == 1 then inputs[0].dataTs else Min(OldestInput(inputs[..|inputs| - 1]), inputs[|inputs| - 1].dataTs)
  }

  function NewestInput(inputs: seq<Input>): Time
    requires inputs != []
  {
    if |inputs| == 1 then inputs[0].dataTs else Max(NewestInput(inputs[..|inputs| - 1]), inputs[|inputs| - 1].dataTs)
  }

  /** A scored row. Its fingerprint covers the inputs and the pinned model; its availability is
      never claimed, so it counts as available only once it was computed. */
  function ScoredResult(f: FeatureDef, row: FrameRow, prediction: Value, observationTs: Time): FeatureResult
    requires f.kind.Model? && row.inputs != []
  {
    var oldest := OldestInput(row.inputs);
    var model := Input(ModelInput(f.kind.uri, f.kind.outputName), oldest, ContentHash(f.kind.digest));
    FeatureResult(FeatureRef(f.name, f.version), row.entity, prediction, oldest, observationTs,
                  Some(NewestInput(row.inputs)), Some(OfInputs(multiset(row.inputs) + multiset{model})),
                  Some(ValueHash(prediction)), None, None)
  }

  datatype ModelBatchError =
    | NotAModelFeature | UnsupportedModel | UnknownInputFeature | NegativeSafetyGap | PredictionCountMismatch

  datatype ModelBatchResult =
    | Scored(results: seq<FeatureResult>, skipped: nat, duplicates: nat, emitted: nat)
    | Rejected(error: ModelBatchError)
    | PublishFailed

  /** What the batch is about to append, or why it stops. */
  datatype Scoring = Scores(results: seq<FeatureResult>, skipped: nat) | Stops(error: ModelBatchError)

  type ModelRunner = seq<Frame> -> seq<Value>

  function Frames(rows: seq<FrameRow>): seq<Frame> {
    seq(|rows|, i requires 0 <= i < |rows| => rows[i].frame)
  }

  function ScoredResults(f: FeatureDef, rows: seq<FrameRow>, predictions: seq<Value>,
                         observationTs: Time): seq<FeatureResult>
    requires f.kind.Model? && |rows| == |predictions| && forall r :: r in rows ==> r.inputs != []
  {
    seq(|rows|, i requires 0 <= i < |rows| => ScoredResult(f, rows[i], predictions[i], observationTs))
  }

  /** What a model batch returns, as a function of the history. */
  function ScoreBatch(features: FeatureTable, view: ViewRef, name: string, runner: ModelRunner,
                      entities: seq<EntityKey>,
                      h: History, observationTs: Time, safetyGap: nat): (r: Scoring)
    ensures r.Scores? ==> |r.results| + r.skipped == |entities|
  {
    var refusal := RefusalOf(features, name);
    if refusal.Some? then Stops(refusal.value)
    else
      var rows := BuildRows(features, view, entities, features[name].deps, h, observationTs, safetyGap);
      var predictions := if rows == [] then [] else runner(Frames(rows));
      if |predictions| != |rows| then Stops(PredictionCountMismatch)
      else Scores(ScoredResults(features[name], rows, predictions, observationTs), |entities| - |rows|)
  }

  /** Why no input is read at all. */
  function RefusalOf(features: FeatureTable, name: string): (r: Option<ModelBatchError>)
    ensures r.None? ==> name in features && features[name].kind.Model?
    ensures r.None? ==> forall d :: d in features[name].deps ==> HasVersion(features, d)
  {
    if name !in features || !features[name].kind.Model? then Some(NotAModelFeature)
    else if !(SUPPORTED_MODEL_URI_PREFIX <= features[name].kind.uri) then Some(UnsupportedModel)
    else if exists d :: d in features[name].deps && !HasVersion(features, d) then Some(UnknownInputFeature)
    else None
  }

  /** A negative safety gap is noticed at the first stored row that is looked at: one of an edge
      with only optional edges, all without rows, before it. */
  predicate TripsOverGap(features: FeatureTable, view: ViewRef, entity: EntityKey, deps: seq<Dependency>, h: History)
    requires forall d :: d in deps ==> HasVersion(features, d)
  {
    exists i :: 0 <= i < |deps| && HasRow(h, InputQuery(features, view, entity, deps[i])) &&
      forall j :: 0 <= j < i ==> !deps[j].required
  }

  /** With a negative gap there is never anything to score. */
  function ScoreWithNegativeGap(features: FeatureTable, view: ViewRef, name: string, entities: seq<EntityKey>,
                                h: History): Scoring {
    var refusal := RefusalOf(features, name);
    if refusal.Some? then Stops(refusal.value)
    else if exists e :: e in entities && TripsOverGap(features, view, e, features[name].deps, h)
    then Stops(NegativeSafetyGap)
    else Scores([], |entities|)
  }

  function ScoringOf(features: FeatureTable, view: ViewRef, name: string, runner: ModelRunner, entities: seq<EntityKey>,
                    h: History, observationTs: Time, safetyGap: int): Scoring {
    if safetyGap < 0 then ScoreWithNegativeGap(features, view, name, entities, h)
    else ScoreBatch(features, view, name, runner, entities, h, observationTs, safetyGap)
  }

  /** Reading the inputs and calling the model once for the whole batch. */
  method Score(offline: OfflineStore, features: FeatureTable, view: ViewRef, name: string, runner: ModelRunner,
               entities: seq<EntityKey>, observationTs: Time, safetyGap: int)
    returns (r: Scoring)
    ensures r == ScoringOf(features, view, name, runner, entities, offline.history, observationTs, safetyGap)
  {
    if name !in features || !features[name].kind.Model? {
      return Stops(NotAModelFeature);
    }
    var f := features[name];
    if !(SUPPORTED_MODEL_URI_PREFIX <= f.kind.uri) {
      return Stops(UnsupportedModel);
    }
    if exists d :: d in f.deps && !HasVersion(features, d) {
      return Stops(UnknownInputFeature);
    }
    var rows, skipped, refused := ReadRows(offline, features, view, entities, f.deps, observationTs, safetyGap);
    if refused {
      return Stops(NegativeSafetyGap);
    }
    var predictions := [];
    if rows != [] {
      predictions := runner(Frames(rows));
    }
    assert predictions == if rows == [] then [] else runner(Frames(rows));
    if |predictions| != |rows| {
      return Stops(PredictionCountMismatch);
    }
    return Scores(ScoredResults(f, rows, predictions, observationTs), skipped);
  }

  /** Scored rows are appended before their updates are announced; the publisher may fail after
      `landed` of them. */
  method ComputeModelFeatureBatch(offline: OfflineStore, view: ViewDef, name: string, runner: ModelRunner,
                                  entities: seq<EntityKey>, observationTs: Time, safetyGap: int,
                                  entityType: string, firstId: nat, landed: Option<nat>)
    returns (r: ModelBatchResult, published: seq<Propagation.Update>)
    modifies offline
    ensures var h := old(offline.history);
      match ScoringOf(ByName(view.features), view.ref, name, runner, entities, h, observationTs, safetyGap)
      case Stops(e) => r == Rejected(e) && offline.history == h && published == []
      case Scores(results, skipped) =>
        var updates := Propagation.UpdatesFor(view, entityType, results, firstId);
        && offline.history == Appended(h, view.ref, results)
        && if landed.Some? && updates != [] then
             r == PublishFailed && published == updates[..Min(landed.value, |updates|)]
           else
             && r == Scored(results, skipped, |results| - |NewResults(h, view.ref, results)|, |updates|)
             && published == updates
  {
    hide ScoringOf, NewResults, Propagation.UpdatesFor, ByName;
    var scoring := Score(offline, ByName(view.features), view.ref, name, runner, entities, observationTs, safetyGap);
    match scoring {
      case Stops(error) =>
        return Rejected(error), [];
      case Scores(results, skipped) =>
        var kept, duplicates := PartitionNewResults(offline, view.ref, results);
        offline.AppendMany(view.ref, kept);
        var updates := Propagation.BuildFeatureUpdatedEvents(view, entityType, results, firstId);
        if landed.Some? && updates != [] {
          return PublishFailed, updates[..Min(landed.value, |updates|)];
        }
        return Scored(results, skipped, duplicates, |updates|), updates;
    }
  }

  method ReadRows(offline: OfflineStore, features: FeatureTable, view: ViewRef, entities: seq<EntityKey>,
                  deps: seq<Dependency>, observationTs: Time, safetyGap: int)
    returns (rows: seq<FrameRow>, skipped: nat, refused: bool)
    requires forall d :: d in deps ==> HasVersion(features, d)
    ensures refused <==>
      safetyGap < 0 && exists e :: e in entities && TripsOverGap(features, view, e, deps, offline.history)
    ensures !refused ==>
      rows == if safetyGap < 0 then []
              else BuildRows(features, view, entities, deps, offline.history, observationTs, safetyGap)
    ensures !refused ==> |rows| + skipped == |entities|
  {
    rows, skipped, refused := [], 0, false;
    for i := 0 to |entities|
      invariant !refused && |rows| + skipped == i
      invariant safetyGap < 0 ==> rows == []
      invariant safetyGap < 0 ==>
        forall e :: e in entities[..i] ==> !TripsOverGap(features, view, e, deps, offline.history)
      invariant safetyGap >= 0 ==>
        rows == BuildRows(features, view, entities[..i], deps, offline.history, observationTs, safetyGap)
    {
      var row, tripped := ReadRow(offline, features, view, entities[i], deps, observationTs, safetyGap);
      if tripped {
        return rows, skipped, true;
      }
      assert entities[..i + 1][..i] == entities[..i];
      if row.None? {
        skipped := skipped + 1;
      } else {
        rows := rows + [row.value];
      }
    }
    assert entities[..|entities|] == entities;
  }

  method ReadRow(offline: OfflineStore, features: FeatureTable, view: ViewRef, entity: EntityKey, deps: seq<Dependency>,
                 observationTs: Time, safetyGap: int)
    returns (row: Option<FrameRow>, tripped: bool)
    requires forall d :: d in deps ==> HasVersion(features, d)
    ensures tripped <==> safetyGap < 0 && TripsOverGap(features, view, entity, deps, offline.history)
    ensures row == if safetyGap < 0 then None
                   else BuildRow(features, view, entity, deps, offline.history, observationTs, safetyGap)
  {
    var acc := Some(FrameRow(entity, map[], []));
    for i := 0 to |deps|
      invariant acc.Some? && acc.value.entity == entity
      invariant safetyGap < 0 ==> acc.value.inputs == []
      invariant safetyGap < 0 ==> forall j :: 0 <= j < i ==>
        !deps[j].required && !HasRow(offline.history, InputQuery(features, view, entity, deps[j]))
      invariant safetyGap >= 0 ==>
        acc == ReadInputs(features, view, entity, deps[..i], offline.history, observationTs, safetyGap)
    {
      var d := deps[i];
      assert deps[..i + 1][..i] == deps[..i];
      var reading := offline.GetPit(InputQuery(features, view, entity, d), observationTs, safetyGap);
      if reading.Refused? {
        return None, true;
      }
      if reading.record.None? {
        if d.required {
          if safetyGap >= 0 {
            ReadInputsStop(features, view, entity, deps, offline.history, observationTs, safetyGap, i + 1);
          }
          return None, false;
        }
      } else {
        acc := ReadInput(features, view, d, offline.history, observationTs, safetyGap, acc);
      }
    }
    assert deps[..|deps|] == deps;
    return if acc.value.inputs == [] then None else acc, false;
  }

  lemma {:induction false} ReadInputsStop(features: FeatureTable, view: ViewRef, entity: EntityKey,
                                          deps: seq<Dependency>,
                                          h: History, observationTs: Time, safetyGap: nat, i: nat)
    requires forall d :: d in deps ==> HasVersion(features, d)
    requires i <= |deps| && ReadInputs(features, view, entity, deps[..i], h, observationTs, safetyGap).None?
    ensures ReadInputs(features, view, entity, deps, h, observationTs, safetyGap).None?
  {
    if i == |deps| {
      assert deps[..i] == deps;
    } else {
      assert deps[..|deps| - 1][..i] == deps[..i];
      ReadInputsStop(features, view, entity, deps[..|deps| - 1], h, observationTs, safetyGap, i);
    }
  }

  // ---------------------------------------------------------------------------------------
  // Freshness of successive scores
  // ---------------------------------------------------------------------------------------

  /** The row that edge `d` reads. */
  function SeenRow(features: FeatureTable, view: ViewRef, entity: EntityKey, d: Dependency, h: History,
                   observationTs: Time, safetyGap: nat): Option<Record>
    requires HasVersion(features, d)
  {
    PitRecord(h, InputQuery(features, view, entity, d), observationTs, safetyGap)
  }

  /** Edge `d` reads a row with data time `ts`. */
  predicate Sees(features: FeatureTable, view: ViewRef, entity: EntityKey, d: Dependency, h: History,
                 observationTs: Time, safetyGap: nat, ts: Time)
    requires HasVersion(features, d)
  {
    var rec := SeenRow(features, view, entity, d, h, observationTs, safetyGap);
    rec.Some? && rec.value.result.dataTs == ts
  }

  /** Each edge that reads a row adds one input with its data time. */
  lemma InputsSnoc(features: FeatureTable, view: ViewRef, entity: EntityKey, front: seq<Dependency>, last: Dependency,
                   h: History, observationTs: Time, safetyGap: nat)
    requires HasVersion(features, last) && forall d :: d in front ==> HasVersion(features, d)
    requires forall d :: d in front + [last] ==> HasVersion(features, d)
    requires ReadInputs(features, view, entity, front + [last], h, observationTs, safetyGap).Some?
    ensures ReadInputs(features, view, entity, front, h, observationTs, safetyGap).Some?
    ensures var before := ReadInputs(features, view, entity, front, h, observationTs, safetyGap).value.inputs;
      var after := ReadInputs(features, view, entity, front + [last], h, observationTs, safetyGap).value.inputs;
      match SeenRow(features, view, entity, last, h, observationTs, safetyGap)
      case None => after == before
      case Some(rec) =>
        |after| == |before| + 1 && after[..|before|] == before && after[|before|].dataTs == rec.result.dataTs
  {
    assert (front + [last])[..|front|] == front;
    ReadInputsKeepEntity(features, view, entity, front, h, observationTs, safetyGap);
  }

  /** What an edge reads is among the inputs of the row. */
  lemma {:induction false} SeenIsInput(features: FeatureTable, view: ViewRef, entity: EntityKey, deps: seq<Dependency>,
                                       h: History, observationTs: Time, safetyGap: nat, d: Dependency, ts: Time)
    returns (i: Input)
    requires forall d :: d in deps ==> HasVersion(features, d)
    requires ReadInputs(features, view, entity, deps, h, observationTs, safetyGap).Some?
    requires d in deps && Sees(features, view, entity, d, h, observationTs, safetyGap, ts)
    ensures i in ReadInputs(features, view, entity, deps, h, observationTs, safetyGap).value.inputs && i.dataTs == ts
  {
    var front, last := deps[..|deps| - 1], deps[|deps| - 1];
    assert deps == front + [last];
    InputsSnoc(features, view, entity, front, last, h, observationTs, safetyGap);
    hide ReadInputs;
    var after := ReadInputs(features, view, entity, deps, h, observationTs, safetyGap).value.inputs;
    if d in front {
      i := SeenIsInput(features, view, entity, front, h, observationTs, safetyGap, d, ts);
      KeepsPrefix(ReadInputs(features, view, entity, front, h, observationTs, safetyGap).value.inputs, after, i);
    } else {
      i := after[|after| - 1];
    }
  }

  lemma KeepsPrefix(before: seq<Input>, after: seq<Input>, i: Input)
    requires i in before && |before| <= |after| && after[..|before|] == before
    ensures i in after
  {
    var k :| 0 <= k < |before| && before[k] == i;
    assert after[..|before|][k] == after[k];
  }

  /** Every input of the row was read by an edge. */
  lemma {:induction false} InputWasSeen(features: FeatureTable, view: ViewRef, entity: EntityKey, deps: seq<Dependency>,
                                        h: History, observationTs: Time, safetyGap: nat, i: Input)
    returns (d: Dependency)
    requires forall d :: d in deps ==> HasVersion(features, d)
    requires ReadInputs(features, view, entity, deps, h, observationTs, safetyGap).Some?
    requires i in ReadInputs(features, view, entity, deps, h, observationTs, safetyGap).value.inputs
    ensures d in deps && Sees(features, view, entity, d, h, observationTs, safetyGap, i.dataTs)
  {
    var front, last := deps[..|deps| - 1], deps[|deps| - 1];
    assert deps == front + [last];
    InputsSnoc(features, view, entity, front, last, h, observationTs, safetyGap);
    hide ReadInputs;
    var before := ReadInputs(features, view, entity, front, h, observationTs, safetyGap).value.inputs;
    var after := ReadInputs(features, view, entity, deps, h, observationTs, safetyGap).value.inputs;
    if i in before {
      d := InputWasSeen(features, view, entity, front, h, observationTs, safetyGap, i);
    } else {
      d := last;
      LastIsNew(before, after, i);
    }
  }

  lemma LastIsNew(before: seq<Input>, after: seq<Input>, i: Input)
    requires i in after && i !in before && |before| <= |after| <= |before| + 1 && after[..|before|] == before
    ensures |after| == |before| + 1 && after[|before|] == i
  {
    assert after == before + after[|before|..];
    assert i in after[|before|..];
  }

  lemma {:induction false} InputBounds(inputs: seq<Input>)
    requires inputs != []
    ensures forall i :: i in inputs ==> OldestInput(inputs) <= i.dataTs <= NewestInput(inputs)
    ensures exists i :: i in inputs && i.dataTs == OldestInput(inputs)
    ensures exists i :: i in inputs && i.dataTs == NewestInput(inputs)
  {
    var front, last := inputs[..|inputs| - 1], inputs[|inputs| - 1];
    assert inputs == front + [last];
    if front != [] {
      InputBounds(front);
    }
  }

  lemma SeesFresher(features: FeatureTable, view: ViewRef, entity: EntityKey, d: Dependency, h: History, more: History,
                    t: Time, t': Time, safetyGap: nat, ts: Time) returns (ts': Time)
    requires HasVersion(features, d) && t <= t' && Sees(features, view, entity, d, h, t, safetyGap, ts)
    ensures ts <= ts' && Sees(features, view, entity, d, h + more, t', safetyGap, ts')
  {
    LaterLooksFindFresher(h, more, InputQuery(features, view, entity, d), t, t', safetyGap);
    ts' := SeenRow(features, view, entity, d, h + more, t', safetyGap).value.result.dataTs;
  }

  /** Edge `d` saw nothing before and now reads data older than anything the earlier score used. */
  predicate LateOldInput(features: FeatureTable, view: ViewRef, entity: EntityKey, d: Dependency, h: History,
                         more: History,
                         t: Time, t': Time, safetyGap: nat, oldest: Time)
    requires HasVersion(features, d)
  {
    var rec := SeenRow(features, view, entity, d, h + more, t', safetyGap);
    SeenRow(features, view, entity, d, h, t, safetyGap).None? && rec.Some? && rec.value.result.dataTs < oldest
  }

  /** Unlike a recomputed feature, a model score can become older: exactly when an optional input
      that was missing has appeared with data older than every input of the earlier score. Its
      newest input never becomes older. */
  lemma ScoreGetsOlderIff(features: FeatureTable, view: ViewRef, entity: EntityKey, deps: seq<Dependency>, h: History,
                          more: History, t: Time, t': Time, safetyGap: nat)
    requires t <= t' && forall d :: d in deps ==> HasVersion(features, d)
    requires BuildRow(features, view, entity, deps, h, t, safetyGap).Some?
    requires BuildRow(features, view, entity, deps, h + more, t', safetyGap).Some?
    ensures var old_ := BuildRow(features, view, entity, deps, h, t, safetyGap).value.inputs;
      var new_ := BuildRow(features, view, entity, deps, h + more, t', safetyGap).value.inputs;
      && NewestInput(old_) <= NewestInput(new_)
      && (OldestInput(new_) < OldestInput(old_) <==>
            exists d :: d in deps && LateOldInput(features, view, entity, d, h, more, t, t', safetyGap,
                                                  OldestInput(old_)))
  {
    var old_ := BuildRow(features, view, entity, deps, h, t, safetyGap).value.inputs;
    var new_ := BuildRow(features, view, entity, deps, h + more, t', safetyGap).value.inputs;
    InputBounds(old_);
    InputBounds(new_);
    NewestStays(features, view, entity, deps, h, more, t, t', safetyGap, old_, new_);
    var i :| i in new_ && i.dataTs == OldestInput(new_);
    var d := InputWasSeen(features, view, entity, deps, h + more, t', safetyGap, i);
    var before := SeenRow(features, view, entity, d, h, t, safetyGap);
    if before.Some? {
      var ts := before.value.result.dataTs;
      var j := SeenIsInput(features, view, entity, deps, h, t, safetyGap, d, ts);
      var _ := SeesFresher(features, view, entity, d, h, more, t, t', safetyGap, ts);
    }
    forall e | e in deps && LateOldInput(features, view, entity, e, h, more, t, t', safetyGap, OldestInput(old_))
      ensures OldestInput(new_) < OldestInput(old_)
    {
      var ts := SeenRow(features, view, entity, e, h + more, t', safetyGap).value.result.dataTs;
      var j := SeenIsInput(features, view, entity, deps, h + more, t', safetyGap, e, ts);
    }
  }

  lemma NewestStays(features: FeatureTable, view: ViewRef, entity: EntityKey, deps: seq<Dependency>, h: History,
                    more: History,
                    t: Time, t': Time, safetyGap: nat, old_: seq<Input>, new_: seq<Input>)
    requires t <= t' && forall d :: d in deps ==> HasVersion(features, d)
    requires ReadInputs(features, view, entity, deps, h, t, safetyGap).Some?
    requires ReadInputs(features, view, entity, deps, h, t, safetyGap).value.inputs == old_ != []
    requires ReadInputs(features, view, entity, deps, h + more, t', safetyGap).Some?
    requires ReadInputs(features, view, entity, deps, h + more, t', safetyGap).value.inputs == new_ != []
    ensures NewestInput(old_) <= NewestInput(new_)
  {
    InputBounds(old_);
    InputBounds(new_);
    var i :| i in old_ && i.dataTs == NewestInput(old_);
    var d := InputWasSeen(features, view, entity, deps, h, t, safetyGap, i);
    var ts' := SeesFresher(features, view, entity, d, h, more, t, t', safetyGap, i.dataTs);
    var j := SeenIsInput(features, view, entity, deps, h + more, t', safetyGap, d, ts');
  }

  function Stored(view: ViewRef, template: FeatureResult, entity: EntityKey, name: string, ts: Time): Record {
    Record(view, template.(ref := FeatureRef(name, 1), entity := entity, dataTs := ts, calcTs := ts,
                           availableAt := None))
  }

  /** A two-row history whose score gets older: the optional input `b` appears after the first score,
      with data from before the required input `a`. */
  lemma LateOptionalInputMakesScoreOlder(view: ViewRef, entity: EntityKey, template: FeatureResult)
    ensures var deps := [Dependency("a", Some(1), true, None, Lazy), Dependency("b", Some(1), false, None, Lazy)];
      var h, more := [Stored(view, template, entity, "a", 10)], [Stored(view, template, entity, "b", 5)];
      var before := BuildRow(map[], view, entity, deps, h, 20, 0);
      var after := BuildRow(map[], view, entity, deps, h + more, 30, 0);
      before.Some? && after.Some? && OldestInput(before.value.inputs) == 10 && OldestInput(after.value.inputs) == 5
  {
    var a, b := Dependency("a", Some(1), true, None, Lazy), Dependency("b", Some(1), false, None, Lazy);
    var rowA, rowB := Stored(view, template, entity, "a", 10), Stored(view, template, entity, "b", 5);
    SeenInTwo(Query(entity, "a", 1, view), rowA, rowB, 20);
    SeenInTwo(Query(entity, "a", 1, view), rowA, rowB, 30);
    SeenInTwo(Query(entity, "b", 1, view), rowA, rowB, 20);
    SeenInTwo(Query(entity, "b", 1, view), rowA, rowB, 30);
    assert [rowA] + [rowB] == [rowA, rowB];
    hide PitRecord;
    StartOfTwo(map[], view, entity, a, b, [rowA], 20);
    StartOfTwo(map[], view, entity, a, b, [rowA, rowB], 30);
    var start := FrameRow(entity, map[], []);
    var first := ReadInput(map[], view, a, [rowA], 20, 0, Some(start));
    assert first.Some? && |first.value.inputs| == 1 && first.value.inputs[0].dataTs == 10;
    var again := ReadInput(map[], view, a, [rowA, rowB], 30, 0, Some(start));
    var second := ReadInput(map[], view, b, [rowA, rowB], 30, 0, again);
    assert second.value.inputs == again.value.inputs + [second.value.inputs[1]];
    assert second.value.inputs[..1] == again.value.inputs;
  }

  lemma StartOfTwo(features: FeatureTable, view: ViewRef, entity: EntityKey, a: Dependency, b: Dependency,
                   h: History, t: Time)
    requires HasVersion(features, a) && HasVersion(features, b)
    ensures ReadInputs(features, view, entity, [a, b], h, t, 0) ==
      ReadInput(features, view, b, h, t, 0, ReadInput(features, view, a, h, t, 0, Some(FrameRow(entity, map[], []))))
  {
    assert [a, b][..1] == [a] && [a][..0] == [];
    assert ReadInputs(features, view, entity, [], h, t, 0) == Some(FrameRow(entity, map[], []));
    assert ReadInputs(features, view, entity, [a], h, t, 0)
        == ReadInput(features, view, a, h, t, 0, Some(FrameRow(entity, map[], [])));
  }

  /** Selection among two rows of which at most one matches. */
  lemma SeenInTwo(q: Query, x: Record, y: Record, t: Time)
    requires !Matches(q, x) || !Matches(q, y)
    ensures PitRecord([x], q, t, 0) == if Candidate(q, x, t, 0) then Some(x) else None
    ensures PitRecord([x, y], q, t, 0) ==
      if Candidate(q, y, t, 0) then Some(y) else if Candidate(q, x, t, 0) then Some(x) else None
  {
    assert [x][..0] == [] && [x, y][..1] == [x];
    assert PitIndex([], q, t, 0) == None;
  }
}
