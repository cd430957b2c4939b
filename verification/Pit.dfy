/** Point-in-time selection (pit.py) over the append-only offline history (stores/offline.py). */
module Pit {
  import opened Domain

  /** A row may be used for an observation only if its data is old enough and the row itself
      was available by then. */
  predicate Eligible(r: FeatureResult, observationTs: Time, safetyGap: nat) {
    r.dataTs <= observationTs - safetyGap && EffectiveAvailability(r) <= observationTs
  }

  /** Row `a` is at least as fresh as row `b`: by data time, then by computation time. */
  predicate AtLeastAsFresh(a: FeatureResult, b: FeatureResult) {
    a.dataTs > b.dataTs || (a.dataTs == b.dataTs && a.calcTs >= b.calcTs)
  }

  datatype Query = Query(entity: EntityKey, feature: string, version: nat, view: ViewRef)

  predicate Matches(q: Query, rec: Record) {
    && rec.result.entity == q.entity && rec.result.ref == FeatureRef(q.feature, q.version)
    && rec.view == q.view
  }

  type History = seq<Record>

  function Filter(h: History, q: Query): History {
    if h == [] then []
    else
      var last := if Matches(q, h[|h| - 1]) then [h[|h| - 1]] else [];
      Filter(h[..|h| - 1], q) + last
  }

  // ---------------------------------------------------------------------------------------
  // Selection as a property: the freshest eligible row, the last one on ties
  // ---------------------------------------------------------------------------------------

  predicate Candidate(q: Query, rec: Record, observationTs: Time, safetyGap: nat) {
    Matches(q, rec) && Eligible(rec.result, observationTs, safetyGap)
  }

  /** Position `i` holds the freshest candidate; among equally fresh ones it is the last. */
  ghost predicate Selected(h: History, q: Query, observationTs: Time, safetyGap: nat, i: nat) {
    && i < |h| && Candidate(q, h[i], observationTs, safetyGap)
    && forall j :: 0 <= j < |h| && Candidate(q, h[j], observationTs, safetyGap) ==>
         AtLeastAsFresh(h[i].result, h[j].result) && (i < j ==> !AtLeastAsFresh(h[j].result, h[i].result))
  }

  function PitIndex(h: History, q: Query, observationTs: Time, safetyGap: nat): (r: Option<nat>)
    ensures r.Some? ==> r.value < |h|
  {
    if h == [] then None
    else
      var last := |h| - 1;
      var before := PitIndex(h[..last], q, observationTs, safetyGap);
      if Candidate(q, h[last], observationTs, safetyGap)
         && (before.None? || AtLeastAsFresh(h[last].result, h[before.value].result))
      then Some(last) else before
  }

  lemma {:induction false} PitIndexSelects(h: History, q: Query, observationTs: Time, safetyGap: nat)
    ensures match PitIndex(h, q, observationTs, safetyGap)
            case Some(i) => Selected(h, q, observationTs, safetyGap, i)
            case None => forall j :: 0 <= j < |h| ==> !Candidate(q, h[j], observationTs, safetyGap)
  {
    if h != [] {
      var last := |h| - 1;
      PitIndexSelects(h[..last], q, observationTs, safetyGap);
      assert forall j :: 0 <= j < last ==> h[..last][j] == h[j];
    }
  }

  lemma SelectedIsUnique(h: History, q: Query, observationTs: Time, safetyGap: nat, i: nat)
    requires Selected(h, q, observationTs, safetyGap, i)
    ensures PitIndex(h, q, observationTs, safetyGap) == Some(i)
  {
    PitIndexSelects(h, q, observationTs, safetyGap);
  }

  function PitRecord(h: History, q: Query, observationTs: Time, safetyGap: nat): Option<Record> {
    var i := PitIndex(h, q, observationTs, safetyGap);
    if i.None? then None else Some(h[i.value])
  }

  // ---------------------------------------------------------------------------------------
  // The same selection, field by field
  // ---------------------------------------------------------------------------------------

  /** The row is old enough, and it could be read by the observation: at the availability it claims
      or, without a claim, once it was computed. */
  predicate Readable(r: FeatureResult, observationTs: Time, safetyGap: nat) {
    && r.dataTs + safetyGap <= observationTs
    && (r.availableAt.Some? ==> r.availableAt.value <= observationTs)
    && (r.availableAt.None? ==> r.calcTs <= observationTs)
  }

  predicate Answers(q: Query, rec: Record) {
    && rec.result.entity == q.entity && rec.result.ref.name == q.feature && rec.result.ref.version == q.version
    && rec.view.view == q.view.view && rec.view.version == q.view.version
  }

  /** Row `j` gives way to row `i`: its data is older or, with the same data time, it was computed
      earlier or, with the same computation time too, it was appended earlier. */
  predicate Superseded(h: History, j: nat, i: nat)
    requires j < |h| && i < |h|
  {
    var a, b := h[j].result, h[i].result;
    || a.dataTs < b.dataTs
    || (a.dataTs == b.dataTs && a.calcTs < b.calcTs)
    || (a.dataTs == b.dataTs && a.calcTs == b.calcTs && j < i)
  }

  /** Row `i` is the one readable row that all other readable rows give way to. */
  ghost predicate Supersedes(h: History, q: Query, observationTs: Time, safetyGap: nat, i: nat) {
    && i < |h| && Answers(q, h[i]) && Readable(h[i].result, observationTs, safetyGap)
    && forall j :: 0 <= j < |h| && j != i && Answers(q, h[j]) && Readable(h[j].result, observationTs, safetyGap) ==>
         Superseded(h, j, i)
  }

  /** A query reads the row that supersedes all others it could read, and nothing exactly if it could
      read none. */
  lemma PitRecordMeans(h: History, q: Query, observationTs: Time, safetyGap: nat)
    ensures match PitRecord(h, q, observationTs, safetyGap)
            case Some(rec) => exists i: nat :: Supersedes(h, q, observationTs, safetyGap, i) && rec == h[i]
            case None => forall j :: 0 <= j < |h| && Answers(q, h[j]) ==>
              !Readable(h[j].result, observationTs, safetyGap)
    ensures forall i: nat :: Supersedes(h, q, observationTs, safetyGap, i) <==>
      PitIndex(h, q, observationTs, safetyGap) == Some(i)
  {
    PitIndexSelects(h, q, observationTs, safetyGap);
    hide PitIndex;
    assert forall rec :: Candidate(q, rec, observationTs, safetyGap) <==>
      Answers(q, rec) && Readable(rec.result, observationTs, safetyGap);
    forall i: nat
      ensures Supersedes(h, q, observationTs, safetyGap, i) <==> Selected(h, q, observationTs, safetyGap, i)
    {
    }
    forall i: nat | Selected(h, q, observationTs, safetyGap, i)
      ensures PitIndex(h, q, observationTs, safetyGap) == Some(i)
    {
      SelectedIsUnique(h, q, observationTs, safetyGap, i);
    }
  }

  lemma {:induction false} OtherRowsAreInvisible(h: History, more: History, q: Query, observationTs: Time,
                                                 safetyGap: nat)
    requires forall r :: r in more ==> !Candidate(q, r, observationTs, safetyGap)
    ensures PitIndex(h + more, q, observationTs, safetyGap) == PitIndex(h, q, observationTs, safetyGap)
  {
    if more == [] {
      assert h + more == h;
    } else {
      var last := |more| - 1;
      assert (h + more)[..|h| + last] == h + more[..last];
      assert more[last] in more;
      OtherRowsAreInvisible(h, more[..last], q, observationTs, safetyGap);
    }
  }

  /** No lookahead: rows that were not yet available at the observation, or that describe data
      after its cut-off, can be appended at will without changing what the observation sees. */
  lemma FutureRowsAreInvisible(h: History, more: History, q: Query, observationTs: Time, safetyGap: nat)
    requires forall r :: r in more ==>
      EffectiveAvailability(r.result) > observationTs || r.result.dataTs > observationTs - safetyGap
    ensures PitRecord(h + more, q, observationTs, safetyGap) == PitRecord(h, q, observationTs, safetyGap)
  {
    OtherRowsAreInvisible(h, more, q, observationTs, safetyGap);
  }

  /** Looking later, into a longer history, never finds an older row. */
  lemma LaterLooksFindFresher(h: History, more: History, q: Query, t: Time, t': Time, safetyGap: nat)
    requires t <= t' && PitIndex(h, q, t, safetyGap).Some?
    ensures PitIndex(h + more, q, t', safetyGap).Some?
    ensures AtLeastAsFresh((h + more)[PitIndex(h + more, q, t', safetyGap).value].result,
                           h[PitIndex(h, q, t, safetyGap).value].result)
  {
    PitIndexSelects(h, q, t, safetyGap);
    PitIndexSelects(h + more, q, t', safetyGap);
    var i := PitIndex(h, q, t, safetyGap).value;
    assert (h + more)[i] == h[i] && Candidate(q, (h + more)[i], t', safetyGap);
  }

  // ---------------------------------------------------------------------------------------
  // The selection loop
  // ---------------------------------------------------------------------------------------

  function FutureCount(records: History, observationTs: Time): nat {
    if records == [] then 0
    else
      var ahead := if records[|records| - 1].result.dataTs > observationTs then 1 else 0;
      FutureCount(records[..|records| - 1], observationTs) + ahead
  }

  datatype Selection = Selection(selected: Option<Record>, futureIgnored: nat) | NegativeGap

  /** The loop of `select_pit`. A negative gap is noticed at the first record. */
  method SelectPit(records: History, observationTs: Time, safetyGap: int) returns (s: Selection)
    ensures s.NegativeGap? <==> safetyGap < 0 && records != []
    ensures s.Selection? ==> s.futureIgnored == FutureCount(records, observationTs)
    ensures s.Selection? ==>
      s.selected == if safetyGap < 0 then None else FreshestOf(records, observationTs, safetyGap)
  {
    var selected: Option<Record> := None;
    var ignored := 0;
    for i := 0 to |records|
      invariant i > 0 ==> safetyGap >= 0
      invariant safetyGap < 0 ==> selected.None?
      invariant ignored == FutureCount(records[..i], observationTs)
      invariant safetyGap >= 0 ==> selected == FreshestOf(records[..i], observationTs, safetyGap)
    {
      var record := records[i];
      assert records[..i + 1][..i] == records[..i];
      if record.result.dataTs > observationTs {
        ignored := ignored + 1;
      }
      if safetyGap < 0 {
        return NegativeGap;
      }
      if Eligible(record.result, observationTs, safetyGap)
         && (selected.None? || AtLeastAsFresh(record.result, selected.value.result)) {
        selected := Some(record);
      }
    }
    assert records[..|records|] == records;
    return Selection(selected, ignored);
  }

  /** Selection among rows that all match the query. */
  function FreshestOf(records: History, observationTs: Time, safetyGap: nat): Option<Record> {
    if records == [] then None
    else
      var last := records[|records| - 1];
      var before := FreshestOf(records[..|records| - 1], observationTs, safetyGap);
      if Eligible(last.result, observationTs, safetyGap)
         && (before.None? || AtLeastAsFresh(last.result, before.value.result))
      then Some(last) else before
  }

  /** Filtering first and selecting afterwards is selecting in the whole history. */
  lemma {:induction false} FreshestOfFiltered(h: History, q: Query, observationTs: Time, safetyGap: nat)
    ensures FreshestOf(Filter(h, q), observationTs, safetyGap) == PitRecord(h, q, observationTs, safetyGap)
  {
    if h != [] {
      var last := |h| - 1;
      FreshestOfFiltered(h[..last], q, observationTs, safetyGap);
      var front := Filter(h[..last], q);
      if Matches(q, h[last]) {
        assert (front + [h[last]])[..|front|] == front;
      } else {
        assert front + [] == front;
      }
    }
  }

  /** Row `i` is the readable row that all other readable ones give way to. */
  ghost predicate SupersedesAll(records: History, observationTs: Time, safetyGap: nat, i: nat) {
    && i < |records| && Readable(records[i].result, observationTs, safetyGap)
    && forall j :: 0 <= j < |records| && j != i && Readable(records[j].result, observationTs, safetyGap) ==>
         Superseded(records, j, i)
  }

  /** Among rows that all answer the query, the loop ends with that one. */
  lemma {:induction false} FreshestOfMeans(records: History, observationTs: Time, safetyGap: nat)
    ensures match FreshestOf(records, observationTs, safetyGap)
            case Some(rec) => exists i: nat :: SupersedesAll(records, observationTs, safetyGap, i) && rec == records[i]
            case None => forall j :: 0 <= j < |records| ==> !Readable(records[j].result, observationTs, safetyGap)
  {
    if records != [] {
      var front, last := records[..|records| - 1], |records| - 1;
      FreshestOfMeans(front, observationTs, safetyGap);
      assert forall j :: 0 <= j < last ==> front[j] == records[j];
      if FreshestOf(front, observationTs, safetyGap).Some? {
        var i: nat :| SupersedesAll(front, observationTs, safetyGap, i)
          && FreshestOf(front, observationTs, safetyGap).value == front[i];
        assert SupersedesAll(records, observationTs, safetyGap, i) ||
          SupersedesAll(records, observationTs, safetyGap, last);
      } else if FreshestOf(records, observationTs, safetyGap).Some? {
        assert SupersedesAll(records, observationTs, safetyGap, last);
      }
    }
  }

  /** Every row with a later data time is counted once, readable or not. */
  lemma {:induction false} FutureCountMeans(records: History, observationTs: Time)
    ensures FutureCount(records, observationTs)
      == |set i | 0 <= i < |records| && observationTs < records[i].result.dataTs|
  {
    var ahead := set i | 0 <= i < |records| && observationTs < records[i].result.dataTs;
    if records == [] {
      assert ahead == {};
    } else {
      var front, last := records[..|records| - 1], |records| - 1;
      FutureCountMeans(front, observationTs);
      var before := set i | 0 <= i < last && observationTs < front[i].result.dataTs;
      assert ahead == before + if observationTs < records[last].result.dataTs then {last} else {};
    }
  }

  lemma {:induction false} InFilter(h: History, q: Query, rec: Record)
    ensures rec in Filter(h, q) <==> rec in h && Matches(q, rec)
  {
    if h != [] {
      InFilter(h[..|h| - 1], q, rec);
      assert h == h[..|h| - 1] + [h[|h| - 1]];
    }
  }

  /** The answer of the store: a record or none, unless the safety gap is refused. */
  datatype Reading = Read(record: Option<Record>) | Refused

  predicate HasRow(h: History, q: Query) { exists i :: 0 <= i < |h| && Matches(q, h[i]) }

  /** The append-only store. */
  class OfflineStore {
    var history: History

    constructor ()
      ensures history == []
    {
      history := [];
    }

    method AppendMany(view: ViewRef, results: seq<FeatureResult>)
      modifies this
      ensures history == old(history) + Records(view, results)
    {
      for i := 0 to |results|
        invariant history == old(history) + Records(view, results[..i])
      {
        assert results[..i + 1] == results[..i] + [results[i]];
        history := history + [Record(view, results[i])];
      }
      assert results[..|results|] == results;
    }

    method Get(q: Query) returns (records: History)
      ensures records == Filter(history, q)
    {
      records := [];
      for i := 0 to |history|
        invariant records == Filter(history[..i], q)
      {
        assert history[..i + 1][..i] == history[..i];
        if Matches(q, history[i]) {
          records := records + [history[i]];
        }
      }
      assert history[..|history|] == history;
    }

    /** A negative gap is refused exactly if the query has a row at all. */
    method GetPit(q: Query, observationTs: Time, safetyGap: int) returns (r: Reading)
      ensures r.Refused? <==> safetyGap < 0 && HasRow(history, q)
      ensures r.Read? ==> r.record == if safetyGap < 0 then None else PitRecord(history, q, observationTs, safetyGap)
    {
      var records := Get(q);
      if records != [] {
        InFilter(history, q, records[0]);
      }
      forall i | 0 <= i < |history|
        ensures Matches(q, history[i]) ==> records != []
      {
        InFilter(history, q, history[i]);
      }
      var s := SelectPit(records, observationTs, safetyGap);
      if safetyGap >= 0 {
        FreshestOfFiltered(history, q, observationTs, safetyGap);
      }
      return if s.NegativeGap? then Refused else Read(s.selected);
    }
  }

  function Records(view: ViewRef, results: seq<FeatureResult>): History {
    seq(|results|, i requires 0 <= i < |results| => Record(view, results[i]))
  }
}
