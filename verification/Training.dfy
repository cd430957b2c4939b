/** Point-in-time training datasets (training.py): one row per observation, one cell per feature,
    read from offline history and never recomputed. */
module Training {
  import opened Domain
  import opened Registry
  import opened Pit
  import opened KeyCodec
  import Lookahead

  datatype Observation = Observation(entity: map<string, string>, observationTs: Time, context: string)

  datatype Cell = Missing | Present(value: Value, version: nat, dataTs: Time)

  datatype DatasetRow = DatasetRow(
    entity: map<string, string>, observationTs: Time, context: string, cells: map<string, Cell>)

  datatype MissingPolicy = KeepNull | ErrorOnMissing

  datatype DatasetError = NegativeSafetyGap | UnknownFeature | MalformedEntity | MissingFeature

  datatype Dataset =
    | Built(rows: seq<DatasetRow>, missingValues: nat, futureRecordsIgnored: nat)
    | Failed(error: DatasetError)

  // ---------------------------------------------------------------------------------------
  // What a dataset says
  // ---------------------------------------------------------------------------------------

  function QueryOf(view: ViewDef, features: FeatureTable, key: EntityKey, name: string): Query
    requires name in features
  {
    Query(key, name, features[name].version, view.ref)
  }

  /** The freshest row that was old enough and available at the observation. */
  function CellOf(h: History, q: Query, observationTs: Time, safetyGap: nat): Cell {
    match PitRecord(h, q, observationTs, safetyGap)
    case None => Missing
    case Some(rec) => Present(rec.result.value, rec.result.ref.version, rec.result.dataTs)
  }

  /** Running totals of a build: missing cells and rows about a time after their observation. */
  datatype Counts = Counts(missing: nat, future: nat)

  function CountCell(c: Counts, h: History, q: Query, o: Observation, safetyGap: nat): Counts {
    Counts(c.missing + (if CellOf(h, q, o.observationTs, safetyGap).Missing? then 1 else 0),
           c.future + FutureCount(Filter(h, q), o.observationTs))
  }

  function CountRow(c: Counts, h: History, view: ViewDef, features: FeatureTable, key: EntityKey, names: seq<string>,
                    o: Observation, safetyGap: nat): Counts
    requires forall n :: n in names ==> n in features
  {
    if names == [] then c
    else
      var last := names[|names| - 1];
      CountCell(CountRow(c, h, view, features, key, names[..|names| - 1], o, safetyGap), h,
                QueryOf(view, features, key, last), o, safetyGap)
  }

  function CountRows(h: History, view: ViewDef, features: FeatureTable, names: seq<string>,
                     observations: seq<Observation>, safetyGap: nat): Counts
    requires forall n :: n in names ==> n in features
    requires forall o :: o in observations ==> Canonical(view.keyFields, o.entity).Some?
  {
    if observations == [] then Counts(0, 0)
    else
      var last := observations[|observations| - 1];
      CountRow(CountRows(h, view, features, names, observations[..|observations| - 1], safetyGap),
               h, view, features, Canonical(view.keyFields, last.entity).value, names, last, safetyGap)
  }

  /** Row `row` answers observation `o`: exactly the requested features, each as of the observation. */
  ghost predicate Answers(h: History, view: ViewDef, names: seq<string>, o: Observation, safetyGap: nat,
                          row: DatasetRow)
    requires forall n :: n in names ==> n in ByName(view.features)
    requires Canonical(view.keyFields, o.entity).Some?
  {
    && row.entity == o.entity && row.observationTs == o.observationTs && row.context == o.context
    && (forall n :: n in row.cells <==> n in names)
    && forall n :: n in names ==>
         row.cells[n] == CellOf(h, QueryOf(view, ByName(view.features), Canonical(view.keyFields, o.entity).value,
                                           n), o.observationTs, safetyGap)
  }

  ghost predicate Known(view: ViewDef, names: seq<string>) { forall n :: n in names ==> n in ByName(view.features) }

  ghost predicate Keyed(view: ViewDef, o: Observation) { Canonical(view.keyFields, o.entity).Some? }

  /** Every requested feature has an eligible row for the observation. */
  ghost predicate Complete(h: History, view: ViewDef, names: seq<string>, o: Observation, safetyGap: nat)
    requires Known(view, names) && Keyed(view, o)
  {
    forall n :: n in names ==>
      !CellOf(h, QueryOf(view, ByName(view.features), Canonical(view.keyFields, o.entity).value, n), o.observationTs,
              safetyGap).Missing?
  }

  /** The observation can be answered under the policy. */
  ghost predicate Answerable(h: History, view: ViewDef, names: seq<string>, o: Observation, policy: MissingPolicy,
                             safetyGap: nat)
    requires Known(view, names)
  {
    Keyed(view, o) && (policy.ErrorOnMissing? ==> Complete(h, view, names, o, safetyGap))
  }

  // ---------------------------------------------------------------------------------------
  // The builder
  // ---------------------------------------------------------------------------------------

  method ReadCell(offline: OfflineStore, q: Query, o: Observation, safetyGap: nat) returns (cell: Cell, future: nat)
    ensures cell == CellOf(offline.history, q, o.observationTs, safetyGap)
    ensures future == FutureCount(Filter(offline.history, q), o.observationTs)
  {
    var records := offline.Get(q);
    var s := SelectPit(records, o.observationTs, safetyGap);
    FreshestOfFiltered(offline.history, q, o.observationTs, safetyGap);
    if s.selected.None? {
      return Missing, s.futureIgnored;
    }
    var r := s.selected.value.result;
    return Present(r.value, r.ref.version, r.dataTs), s.futureIgnored;
  }

  lemma CountRowStep(c: Counts, h: History, view: ViewDef, features: FeatureTable, key: EntityKey, names: seq<string>,
                     o: Observation, safetyGap: nat, i: nat)
    requires i < |names| && forall n :: n in names ==> n in features
    ensures CountRow(c, h, view, features, key, names[..i + 1], o, safetyGap) ==
      CountCell(CountRow(c, h, view, features, key, names[..i], o, safetyGap), h,
                QueryOf(view, features, key, names[i]), o, safetyGap)
  {
    assert names[..i + 1][..i] == names[..i];
  }

  /** The cells of one row; `None` for a missing feature under the error policy. */
  method BuildCells(offline: OfflineStore, view: ViewDef, features: FeatureTable, names: seq<string>, o: Observation,
                    key: EntityKey, policy: MissingPolicy, safetyGap: nat, before: Counts)
    returns (cells: Option<map<string, Cell>>, after: Counts)
    requires forall n :: n in names ==> n in features
    ensures cells.None? ==> policy.ErrorOnMissing?
    ensures cells.None? ==>
      exists n :: n in names && CellOf(offline.history, QueryOf(view, features, key, n), o.observationTs,
                                       safetyGap).Missing?
    ensures cells.Some? && policy.ErrorOnMissing? ==> forall n :: n in names && n in cells.value ==>
      !cells.value[n].Missing?
    ensures cells.Some? ==> (forall n :: n in cells.value <==> n in names)
    ensures cells.Some? ==>
      forall n :: n in names ==>
        cells.value[n] == CellOf(offline.history, QueryOf(view, features, key, n), o.observationTs, safetyGap)
    ensures cells.Some? ==> after == CountRow(before, offline.history, view, features, key, names, o, safetyGap)
  {
    hide CellOf, FutureCount, Filter;
    var built: map<string, Cell> := map[];
    after := before;
    for i := 0 to |names|
      invariant forall n :: n in built <==> n in names[..i]
      invariant forall n :: n in built ==>
        built[n] == CellOf(offline.history, QueryOf(view, features, key, n), o.observationTs, safetyGap)
      invariant policy.ErrorOnMissing? ==> forall n :: n in built ==> !built[n].Missing?
      invariant after == CountRow(before, offline.history, view, features, key, names[..i], o, safetyGap)
    {
      var name := names[i];
      CountRowStep(before, offline.history, view, features, key, names, o, safetyGap, i);
      var cell, future := ReadCell(offline, QueryOf(view, features, key, name), o, safetyGap);
      if cell.Missing? && policy.ErrorOnMissing? {
        return None, after;
      }
      built := built[name := cell];
      after := Counts(after.missing + (if cell.Missing? then 1 else 0), after.future + future);
    }
    assert names[..|names|] == names;
    return Some(built), after;
  }

  /** One row, or the reason why there is none. */
  method BuildRow(offline: OfflineStore, view: ViewDef, names: seq<string>, o: Observation, policy: MissingPolicy,
                  safetyGap: nat, before: Counts)
    returns (row: Option<DatasetRow>, after: Counts, error: DatasetError)
    requires Known(view, names)
    ensures row.Some? <==> Answerable(offline.history, view, names, o, policy, safetyGap)
    ensures row.Some? ==> Answers(offline.history, view, names, o, safetyGap, row.value)
    ensures row.Some? ==> after == CountRow(before, offline.history, view, ByName(view.features),
                                            Canonical(view.keyFields, o.entity).value, names, o, safetyGap)
    ensures row.None? ==> error == if Keyed(view, o) then MissingFeature else MalformedEntity
  {
    var key := Canonical(view.keyFields, o.entity);
    if key.None? {
      return None, before, MalformedEntity;
    }
    var cells;
    cells, after := BuildCells(offline, view, ByName(view.features), names, o, key.value, policy, safetyGap, before);
    row := if cells.None? then None else Some(DatasetRow(o.entity, o.observationTs, o.context, cells.value));
    error := MissingFeature;
  }

  /** The observations up to some point have been answered. */
  ghost predicate Progress(h: History, view: ViewDef, names: seq<string>, done: seq<Observation>, policy: MissingPolicy,
                           safetyGap: nat, rows: seq<DatasetRow>, counts: Counts)
    requires Known(view, names)
  {
    && |rows| == |done| && (forall o :: o in done ==> Keyed(view, o))
    && (forall i :: 0 <= i < |done| ==>
          Answerable(h, view, names, done[i], policy, safetyGap) &&
            Answers(h, view, names, done[i], safetyGap, rows[i]))
    && counts == CountRows(h, view, ByName(view.features), names, done, safetyGap)
  }

  lemma ProgressSnoc(h: History, view: ViewDef, names: seq<string>, done: seq<Observation>, policy: MissingPolicy,
                     safetyGap: nat, rows: seq<DatasetRow>, counts: Counts, o: Observation, row: DatasetRow)
    requires Known(view, names) && Progress(h, view, names, done, policy, safetyGap, rows, counts)
    requires Answerable(h, view, names, o, policy, safetyGap) && Answers(h, view, names, o, safetyGap, row)
    ensures Progress(h, view, names, done + [o], policy, safetyGap, rows + [row],
      CountRow(counts, h, view, ByName(view.features), Canonical(view.keyFields, o.entity).value, names, o, safetyGap))
  {
    var all := done + [o];
    assert all[..|done|] == done;
    assert forall x :: x in all ==> x in done || x == o;
  }

  lemma NoProgress(h: History, view: ViewDef, names: seq<string>, policy: MissingPolicy, safetyGap: nat)
    requires Known(view, names)
    ensures Progress(h, view, names, [], policy, safetyGap, [], Counts(0, 0))
  {
  }

  lemma AllAnswerable(h: History, view: ViewDef, names: seq<string>, done: seq<Observation>, policy: MissingPolicy,
                      safetyGap: nat, rows: seq<DatasetRow>, counts: Counts)
    requires Known(view, names) && Progress(h, view, names, done, policy, safetyGap, rows, counts)
    ensures forall i :: 0 <= i < |done| ==> Answerable(h, view, names, done[i], policy, safetyGap)
  {
  }

  /** Observation `i` is the first one without an answer. */
  ghost predicate FirstUnanswerable(h: History, view: ViewDef, names: seq<string>, observations: seq<Observation>,
                                    policy: MissingPolicy, safetyGap: nat, i: nat)
    requires Known(view, names)
  {
    && i < |observations| && !Answerable(h, view, names, observations[i], policy, safetyGap)
    && forall j :: 0 <= j < i ==> Answerable(h, view, names, observations[j], policy, safetyGap)
  }

  lemma FirstUnanswered(h: History, view: ViewDef, names: seq<string>, observations: seq<Observation>,
                        policy: MissingPolicy, safetyGap: nat, i: nat)
    requires Known(view, names) && i < |observations|
    requires !Answerable(h, view, names, observations[i], policy, safetyGap)
    requires forall j :: 0 <= j < i ==> Answerable(h, view, names, observations[..i][j], policy, safetyGap)
    ensures FirstUnanswerable(h, view, names, observations, policy, safetyGap, i)
  {
    hide Answerable;
    forall j | 0 <= j < i
      ensures Answerable(h, view, names, observations[j], policy, safetyGap)
    {
      assert observations[..i][j] == observations[j];
    }
  }

  /** Which error is raised: the gap is checked first, then the features, then the first
      observation without an answer decides. */
  ghost predicate Explains(error: DatasetError, h: History, view: ViewDef, names: seq<string>,
                           observations: seq<Observation>, policy: MissingPolicy, safetyGap: int) {
    if safetyGap < 0 then error.NegativeSafetyGap?
    else if !Known(view, names) then error.UnknownFeature?
    else
      exists i :: 0 <= i < |observations| && FirstUnanswerable(h, view, names, observations, policy, safetyGap, i) &&
        error == if Keyed(view, observations[i]) then MissingFeature else MalformedEntity
  }

  method BuildTrainingDataset(offline: OfflineStore, view: ViewDef, names: seq<string>, observations: seq<Observation>,
                              policy: MissingPolicy, safetyGap: int)
    returns (d: Dataset)
    ensures d.Built? <==> (safetyGap >= 0 && Known(view, names) &&
      forall i :: 0 <= i < |observations| ==>
        Answerable(offline.history, view, names, observations[i], policy, safetyGap))
    ensures d.Failed? ==> Explains(d.error, offline.history, view, names, observations, policy, safetyGap)
    ensures d.Built? ==>
      Progress(offline.history, view, names, observations, policy, safetyGap, d.rows,
               Counts(d.missingValues, d.futureRecordsIgnored))
  {
    hide Progress, Answerable, Keyed, Canonical, CountRow, Answers;
    if safetyGap < 0 {
      return Failed(NegativeSafetyGap);
    }
    if exists n :: n in names && n !in ByName(view.features) {
      return Failed(UnknownFeature);
    }
    var rows, counts := [], Counts(0, 0);
    NoProgress(offline.history, view, names, policy, safetyGap);
    assert observations[..0] == [];
    for i := 0 to |observations|
      invariant Progress(offline.history, view, names, observations[..i], policy, safetyGap, rows, counts)
    {
      var o := observations[i];
      var row, after, error := BuildRow(offline, view, names, o, policy, safetyGap, counts);
      if row.None? {
        AllAnswerable(offline.history, view, names, observations[..i], policy, safetyGap, rows, counts);
        FirstUnanswered(offline.history, view, names, observations, policy, safetyGap, i);
        return Failed(error);
      }
      ProgressSnoc(offline.history, view, names, observations[..i], policy, safetyGap, rows, counts, o, row.value);
      assert observations[..i + 1] == observations[..i] + [o];
      rows, counts := rows + [row.value], after;
    }
    assert observations[..|observations|] == observations;
    AllAnswerable(offline.history, view, names, observations, policy, safetyGap, rows, counts);
    return Built(rows, counts.missing, counts.future);
  }

  // ---------------------------------------------------------------------------------------
  // What a cell shows
  // ---------------------------------------------------------------------------------------

  /** A cell shows the row of the feature's current version that supersedes all others the observation
      could read, and it is missing exactly if the observation could read none. */
  lemma CellMeans(h: History, view: ViewDef, names: seq<string>, o: Observation, safetyGap: nat, row: DatasetRow,
                  name: string)
    requires Known(view, names) && Keyed(view, o) && Answers(h, view, names, o, safetyGap, row) && name in names
    ensures var q := Query(Canonical(view.keyFields, o.entity).value, name, ByName(view.features)[name].version,
                           view.ref);
      match row.cells[name]
      case Missing =>
        forall j :: 0 <= j < |h| && Pit.Answers(q, h[j]) ==> !Readable(h[j].result, o.observationTs, safetyGap)
      case Present(value, version, dataTs) =>
        exists i: nat :: Supersedes(h, q, o.observationTs, safetyGap, i) && h[i].result.value == value &&
          h[i].result.ref.version == version && h[i].result.dataTs == dataTs
  {
    PitRecordMeans(h, QueryOf(view, ByName(view.features), Canonical(view.keyFields, o.entity).value, name),
                   o.observationTs, safetyGap);
    hide Canonical, ByName, PitRecord, Readable;
  }

  // ---------------------------------------------------------------------------------------
  // What the counters count
  // ---------------------------------------------------------------------------------------

  /** What is asked for observation `o` and the `j`-th feature. */
  function Asked(view: ViewDef, names: seq<string>, o: Observation, j: nat): Query
    requires Known(view, names) && Canonical(view.keyFields, o.entity).Some? && j < |names|
  {
    QueryOf(view, ByName(view.features), Canonical(view.keyFields, o.entity).value, names[j])
  }

  ghost predicate AllKeyed(view: ViewDef, observations: seq<Observation>) {
    forall i :: 0 <= i < |observations| ==> Keyed(view, observations[i])
  }

  /** Observation `i` has no cell for the `j`-th feature. */
  ghost predicate IsMissing(h: History, view: ViewDef, names: seq<string>, observations: seq<Observation>,
                            safetyGap: nat, i: nat, j: nat)
    requires Known(view, names) && AllKeyed(view, observations)
  {
    && i < |observations| && j < |names|
    && CellOf(h, Asked(view, names, observations[i], j), observations[i].observationTs, safetyGap).Missing?
  }

  ghost function MissingInRow(h: History, view: ViewDef, names: seq<string>, observations: seq<Observation>,
                              safetyGap: nat, i: nat, m: nat): set<(nat, nat)>
    requires Known(view, names) && AllKeyed(view, observations)
  {
    set j: nat | j < m && IsMissing(h, view, names, observations, safetyGap, i, j) :: (i, j)
  }

  ghost function MissingBefore(h: History, view: ViewDef, names: seq<string>, observations: seq<Observation>,
                               safetyGap: nat, n: nat): set<(nat, nat)>
    requires Known(view, names) && AllKeyed(view, observations)
  {
    set i: nat, j: nat | i < n && j < |names| && IsMissing(h, view, names, observations, safetyGap, i, j) :: (i, j)
  }

  lemma {:induction false} MissingInRowMeans(h: History, view: ViewDef, names: seq<string>,
                                             observations: seq<Observation>, safetyGap: nat, i: nat, m: nat,
                                             before: Counts)
    requires Known(view, names) && AllKeyed(view, observations) && i < |observations| && m <= |names|
    ensures CountRow(before, h, view, ByName(view.features),
                     Canonical(view.keyFields, observations[i].entity).value, names[..m], observations[i],
                     safetyGap).missing
      == before.missing + |MissingInRow(h, view, names, observations, safetyGap, i, m)|
  {
    hide CellOf, Canonical, ByName, FutureCount, Filter;
    if m == 0 {
      assert MissingInRow(h, view, names, observations, safetyGap, i, 0) == {};
    } else {
      var last := m - 1;
      MissingInRowMeans(h, view, names, observations, safetyGap, i, last, before);
      assert names[..m][..last] == names[..last];
      assert MissingInRow(h, view, names, observations, safetyGap, i, m)
        == MissingInRow(h, view, names, observations, safetyGap, i, last) +
           if IsMissing(h, view, names, observations, safetyGap, i, last) then {(i, last)} else {};
    }
  }

  /** The counter of missing values is the number of missing cells. */
  lemma {:induction false} MissingMeans(h: History, view: ViewDef, names: seq<string>, observations: seq<Observation>,
                                        safetyGap: nat, n: nat)
    requires Known(view, names) && AllKeyed(view, observations) && n <= |observations|
    requires AllKeyed(view, observations[..n])
    ensures CountRows(h, view, ByName(view.features), names, observations[..n], safetyGap).missing
      == |MissingBefore(h, view, names, observations, safetyGap, n)|
  {
    hide CellOf, Canonical, ByName, CountRow;
    if n == 0 {
      assert MissingBefore(h, view, names, observations, safetyGap, 0) == {};
    } else {
      var last := n - 1;
      assert observations[..n][..last] == observations[..last];
      MissingMeans(h, view, names, observations, safetyGap, last);
      var before := CountRows(h, view, ByName(view.features), names, observations[..last], safetyGap);
      MissingInRowMeans(h, view, names, observations, safetyGap, last, |names|, before);
      assert names[..|names|] == names;
      var row := MissingInRow(h, view, names, observations, safetyGap, last, |names|);
      assert MissingBefore(h, view, names, observations, safetyGap, n)
        == MissingBefore(h, view, names, observations, safetyGap, last) + row;
      assert MissingBefore(h, view, names, observations, safetyGap, last) !! row;
    }
  }

  // ---------------------------------------------------------------------------------------
  // No leakage
  // ---------------------------------------------------------------------------------------

  /** Rows that became available only after an observation never change its cells: whatever is
      computed later, a rebuilt dataset says the same. */
  lemma LaterRowsDoNotLeak(h: History, more: History, view: ViewDef, names: seq<string>, o: Observation, safetyGap: nat,
                           row: DatasetRow)
    requires forall n :: n in names ==> n in ByName(view.features)
    requires Canonical(view.keyFields, o.entity).Some?
    requires forall r :: r in more ==> EffectiveAvailability(r.result) > o.observationTs
    ensures Answers(h, view, names, o, safetyGap, row) <==> Answers(h + more, view, names, o, safetyGap, row)
  {
    forall n | n in names
      ensures var q := QueryOf(view, ByName(view.features), Canonical(view.keyFields, o.entity).value, n);
        CellOf(h + more, q, o.observationTs, safetyGap) == CellOf(h, q, o.observationTs, safetyGap)
    {
      FutureRowsAreInvisible(h, more, QueryOf(view, ByName(view.features), Canonical(view.keyFields, o.entity).value,
                                              n), o.observationTs, safetyGap);
    }
  }

  lemma CellInWorld(w: Lookahead.World, q: Query, o: Observation, safetyGap: nat) returns (i: nat)
    requires Lookahead.Invariant(w) && CellOf(w.rows, q, o.observationTs, safetyGap).Present?
    ensures var cell := CellOf(w.rows, q, o.observationTs, safetyGap);
      i < |w.rows| && w.rows[i].result.value == cell.value && cell.dataTs <= o.observationTs - safetyGap
    ensures forall a: nat :: Lookahead.Ancestor(w, a, i) ==>
      a < |w.rows| && EffectiveAvailability(w.rows[a].result) <= o.observationTs
  {
    i := PitIndex(w.rows, q, o.observationTs, safetyGap).value;
    PitIndexSelects(w.rows, q, o.observationTs, safetyGap);
    forall a: nat | Lookahead.Ancestor(w, a, i)
      ensures a < |w.rows| && EffectiveAvailability(w.rows[a].result) <= o.observationTs
    {
      Lookahead.AncestorsWereAvailable(w, a, i);
    }
  }

  /** A present cell of a dataset over any run of appends, waves and model batches: its row, and
      everything that row was derived from, was available by the observation. */
  lemma CellsDoNotLookAhead(actions: seq<Lookahead.Action>, q: Query, o: Observation, safetyGap: nat) returns (i: nat)
    requires forall a :: a in actions ==> Lookahead.Allowed(a)
    requires CellOf(Lookahead.Run(actions).rows, q, o.observationTs, safetyGap).Present?
    ensures var w := Lookahead.Run(actions);
      && i < |w.rows| && w.rows[i].result.value == CellOf(w.rows, q, o.observationTs, safetyGap).value
      && forall a: nat :: Lookahead.Ancestor(w, a, i) ==>
        a < |w.rows| && EffectiveAvailability(w.rows[a].result) <= o.observationTs
  {
    Lookahead.RunsKeepInvariant(actions);
    i := CellInWorld(Lookahead.Run(actions), q, o, safetyGap);
  }
}
