/** The online write guard (write_guard.py) and the guarded latest-value store (stores/online.py). */
module WriteGuard {
  import opened Domain
  import opened Registry
  import opened Semantics
  import opened Pit
  import opened Recompute

  datatype Decision = Written | WrittenRecompute | SkippedStale | Noop

  predicate Stores(d: Decision) { d == Written || d == WrittenRecompute }

  /** The freshness of a result: its data time, then its newest input. */
  datatype Guard = Guard(dataTs: Time, maxInputDataTs: Time)

  function GuardTuple(r: FeatureResult): Guard {
    Guard(r.dataTs, if r.maxInputDataTs.Some? then r.maxInputDataTs.value else r.dataTs)
  }

  predicate Less(a: Guard, b: Guard) {
    a.dataTs < b.dataTs || (a.dataTs == b.dataTs && a.maxInputDataTs < b.maxInputDataTs)
  }

  function DecideWrite(incoming: FeatureResult, current: Option<FeatureResult>): Decision {
    if current.None? then Written
    else
      var new_, old_ := GuardTuple(incoming), GuardTuple(current.value);
      if Less(old_, new_) then Written
      else if Less(new_, old_) then SkippedStale
      else if incoming.fingerprint == current.value.fingerprint then
        var a, b := TrustedAvailableAt(incoming), TrustedAvailableAt(current.value);
        if a.Some? && b.Some? && a != b then WrittenRecompute else Noop
      else WrittenRecompute
  }

  // ---------------------------------------------------------------------------------------
  // The store
  // ---------------------------------------------------------------------------------------

  datatype Key = Key(entity: EntityKey, view: ViewRef, ref: FeatureRef)

  function KeyOf(view: ViewRef, r: FeatureResult): Key { Key(r.entity, view, r.ref) }

  type Latest = map<Key, FeatureResult>

  function Current(m: Latest, k: Key): Option<FeatureResult> { if k in m then Some(m[k]) else None }

  function After(current: Option<FeatureResult>, incoming: FeatureResult): FeatureResult {
    if current.None? || Stores(DecideWrite(incoming, current)) then incoming else current.value
  }

  function WriteOne(m: Latest, view: ViewRef, r: FeatureResult): Latest {
    m[KeyOf(view, r) := After(Current(m, KeyOf(view, r)), r)]
  }

  class OnlineStore {
    var values: Latest

    constructor ()
      ensures values == map[]
    {
      values := map[];
    }

    method Write(view: ViewRef, r: FeatureResult) returns (d: Decision)
      modifies this
      ensures d == DecideWrite(r, Current(old(values), KeyOf(view, r)))
      ensures values == WriteOne(old(values), view, r)
      ensures !Stores(d) ==> values == old(values)
    {
      var key := KeyOf(view, r);
      d := DecideWrite(r, Current(values, key));
      if Stores(d) {
        values := values[key := r];
      } else {
        assert values[key := values[key]] == values;
      }
    }

    method WriteMany(view: ViewRef, results: seq<FeatureResult>) returns (outcomes: map<FeatureRef, Decision>)
      modifies this
      ensures values == WriteAll(old(values), view, results)
      ensures outcomes == OutcomesOf(old(values), view, results)
    {
      outcomes := map[];
      for i := 0 to |results|
        invariant values == WriteAll(old(values), view, results[..i])
        invariant outcomes == OutcomesOf(old(values), view, results[..i])
      {
        var d := Write(view, results[i]);
        assert results[..i + 1][..i] == results[..i];
        outcomes := outcomes[results[i].ref := d];
      }
      assert results[..|results|] == results;
    }
  }

  function WriteAll(m: Latest, view: ViewRef, results: seq<FeatureResult>): Latest {
    if results == [] then m
    else WriteOne(WriteAll(m, view, results[..|results| - 1]), view, results[|results| - 1])
  }

  /** Per feature, the outcome of its last write of the call. */
  function OutcomesOf(m: Latest, view: ViewRef, results: seq<FeatureResult>): map<FeatureRef, Decision> {
    if results == [] then map[]
    else
      var front, last := results[..|results| - 1], results[|results| - 1];
      OutcomesOf(m, view, front)[last.ref := DecideWrite(last, Current(WriteAll(m, view, front), KeyOf(view, last)))]
  }

  // ---------------------------------------------------------------------------------------
  // Convergence: the writes of one key, in any order, with any repetitions
  // ---------------------------------------------------------------------------------------

  /** The value stored for one key after its writes, in order. */
  function Final(writes: seq<FeatureResult>): FeatureResult
    requires writes != []
  {
    if |writes| == 1 then writes[0] else After(Some(Final(writes[..|writes| - 1])), writes[|writes| - 1])
  }

  /** The writes of a key within a longer sequence of writes. */
  function WritesOf(view: ViewRef, results: seq<FeatureResult>, k: Key): seq<FeatureResult> {
    if results == [] then []
    else
      var last := results[|results| - 1];
      WritesOf(view, results[..|results| - 1], k) + (if KeyOf(view, last) == k then [last] else [])
  }

  /** The store keeps the keys apart: what it holds for a key is decided by that key's writes. */
  lemma {:induction false} StoreIsPerKey(view: ViewRef, results: seq<FeatureResult>, k: Key)
    ensures var mine := WritesOf(view, results, k);
      if mine == [] then k !in WriteAll(map[], view, results)
      else k in WriteAll(map[], view, results) && WriteAll(map[], view, results)[k] == Final(mine)
  {
    if results != [] {
      var front, last := results[..|results| - 1], results[|results| - 1];
      StoreIsPerKey(view, front, k);
      var mine := WritesOf(view, front, k);
      if KeyOf(view, last) == k {
        assert (mine + [last])[..|mine|] == mine;
      } else {
        assert mine + [] == mine;
      }
    }
  }

  /** A freshest write: none of the writes is fresher. */
  ghost predicate Top(writes: seq<FeatureResult>, r: FeatureResult) {
    r in writes && forall w :: w in writes ==> !Less(GuardTuple(r), GuardTuple(w))
  }

  /** The stored freshness is the lexicographic maximum of the writes. */
  lemma {:induction false} FinalIsTop(writes: seq<FeatureResult>)
    requires writes != []
    ensures Top(writes, Final(writes))
  {
    if |writes| > 1 {
      var front, last := writes[..|writes| - 1], writes[|writes| - 1];
      FinalIsTop(front);
      assert writes == front + [last];
    }
  }

  /** What a reader of the store can see of a result, apart from when it was computed. */
  datatype Visible = Visible(value: Value, fingerprint: Option<Fingerprint>, trusted: Option<Time>)

  function VisibleOf(r: FeatureResult): Visible { Visible(r.value, r.fingerprint, TrustedAvailableAt(r)) }

  ghost predicate TopsAgree(writes: seq<FeatureResult>) {
    forall a, b :: Top(writes, a) && Top(writes, b) ==> VisibleOf(a) == VisibleOf(b)
  }

  ghost predicate SameWrites(a: seq<FeatureResult>, b: seq<FeatureResult>) {
    forall w :: w in a <==> w in b
  }

  /** Reordering and redelivery never change the stored freshness; and they never change what is
      stored either, exactly if all freshest writes show the same value, fingerprint and
      trusted availability. */
  lemma Convergence(writes: seq<FeatureResult>)
    requires writes != []
    ensures forall writes' :: writes' != [] && SameWrites(writes, writes') ==>
      GuardTuple(Final(writes')) == GuardTuple(Final(writes))
    ensures TopsAgree(writes) <==>
      forall writes' :: writes' != [] && SameWrites(writes, writes') ==>
        VisibleOf(Final(writes')) == VisibleOf(Final(writes))
  {
    FinalIsTop(writes);
    forall writes' | writes' != [] && SameWrites(writes, writes')
      ensures Top(writes, Final(writes'))
    {
      FinalIsTop(writes');
    }
    if !TopsAgree(writes) {
      var a, b :| Top(writes, a) && Top(writes, b) && VisibleOf(a) != VisibleOf(b);
      WovenEndsWith(writes, writes, a);
      WovenEndsWith(writes, writes, b);
      assert SameWrites(writes, Woven(writes, a)) && SameWrites(writes, Woven(writes, b));
    }
  }

  /** Without that agreement the order decides: of two equally fresh writes with different
      fingerprints the last one stays. */
  lemma EqualFreshnessDiverges(r: FeatureResult)
    ensures var a, b := r.(fingerprint := Some(External("a"))), r.(fingerprint := Some(External("b")));
      && GuardTuple(a) == GuardTuple(b) && SameWrites([a, b], [b, a])
      && Final([a, b]) == b && Final([b, a]) == a && VisibleOf(a) != VisibleOf(b)
  {
    var a, b := r.(fingerprint := Some(External("a"))), r.(fingerprint := Some(External("b")));
    assert [a, b][..1] == [a] && [b, a][..1] == [b];
  }

  /** The writes with `x` redelivered before and after every one of them. */
  function Woven(writes: seq<FeatureResult>, x: FeatureResult): (woven: seq<FeatureResult>)
    ensures woven != [] && forall w :: w in woven <==> w in writes || w == x
  {
    if writes == [] then [x]
    else
      assert writes == writes[..|writes| - 1] + [writes[|writes| - 1]];
      Woven(writes[..|writes| - 1], x) + [writes[|writes| - 1], x]
  }

  /** In that order a freshest write has the last word. */
  lemma {:induction false} WovenEndsWith(all: seq<FeatureResult>, writes: seq<FeatureResult>, x: FeatureResult)
    requires Top(all, x) && forall w :: w in writes ==> w in all
    ensures Final(Woven(writes, x)) == x
  {
    if writes != [] {
      var front, last := writes[..|writes| - 1], writes[|writes| - 1];
      WovenEndsWith(all, front, x);
      var woven := Woven(front, x);
      assert (woven + [last, x])[..|woven| + 1] == woven + [last] && (woven + [last])[..|woven|] == woven;
    }
  }

  // ---------------------------------------------------------------------------------------
  // Which decision a write gets, field by field
  // ---------------------------------------------------------------------------------------

  lemma {:induction false} InWritesOf(view: ViewRef, writes: seq<FeatureResult>, k: Key, r: FeatureResult)
    ensures r in WritesOf(view, writes, k) <==> r in writes && KeyOf(view, r) == k
  {
    if writes != [] {
      InWritesOf(view, writes[..|writes| - 1], k, r);
      assert writes == writes[..|writes| - 1] + [writes[|writes| - 1]];
    }
  }

  /** Newer data or, with the same data time, a newer newest input; a result that does not say what
      its newest input was counts with its data time. */
  predicate Fresher(a: FeatureResult, b: FeatureResult) {
    || a.dataTs > b.dataTs
    || (a.dataTs == b.dataTs
        && match (a.maxInputDataTs, b.maxInputDataTs)
           case (Some(x), Some(y)) => x > y
           case (Some(x), None) => x > b.dataTs
           case (None, Some(y)) => a.dataTs > y
           case (None, None) => false)
  }

  /** Two sources claim different availabilities, or the inputs were different ones. */
  predicate TellsApart(a: FeatureResult, b: FeatureResult) {
    || a.fingerprint != b.fingerprint
    || (a.availabilitySource == b.availabilitySource == Some(SourceProvided)
        && a.availableAt.Some? && b.availableAt.Some? && a.availableAt != b.availableAt)
  }

  /** After any writes, the next one is written if it is fresher than all earlier ones of its key, and
      stale if one of those is fresher. Otherwise the stored one is just as fresh, and it is replaced
      exactly if the two can be told apart. */
  lemma {:induction false} DecisionMeans(view: ViewRef, results: seq<FeatureResult>, r: FeatureResult)
    ensures var m, k := WriteAll(map[], view, results), KeyOf(view, r);
      var d := DecideWrite(r, Current(m, k));
      && (d == Written <==> forall w :: w in results && w.entity == r.entity && w.ref == r.ref ==> Fresher(r, w))
      && (d == SkippedStale <==> exists w :: w in results && w.entity == r.entity && w.ref == r.ref && Fresher(w, r))
      && (d == WrittenRecompute || d == Noop ==> k in m && m[k].dataTs == r.dataTs)
      && (d == WrittenRecompute ==> TellsApart(r, m[k]))
      && (d == Noop ==> !TellsApart(r, m[k]))
  {
    var m, k := WriteAll(map[], view, results), KeyOf(view, r);
    var mine := WritesOf(view, results, k);
    StoreIsPerKey(view, results, k);
    forall w ensures w in mine <==> w in results && w.entity == r.entity && w.ref == r.ref {
      InWritesOf(view, results, k, w);
    }
    hide WriteAll, WritesOf;
    if mine == [] {
      assert forall w :: w in results && w.entity == r.entity && w.ref == r.ref ==> w in mine;
    } else {
      FinalIsTop(mine);
      hide Final;
      assert m[k] in mine && forall w :: w in mine ==> !Fresher(w, m[k]);
    }
  }

  /** What a bulk write reports for a feature: the decision of its last write, made against the values
      that the writes before it have left. */
  lemma {:induction false} OutcomesMean(m: Latest, view: ViewRef, results: seq<FeatureResult>, i: nat)
    requires i < |results| && forall j :: i < j < |results| ==> results[j].ref != results[i].ref
    ensures results[i].ref in OutcomesOf(m, view, results)
    ensures OutcomesOf(m, view, results)[results[i].ref] ==
      DecideWrite(results[i], Current(WriteAll(m, view, results[..i]), Key(results[i].entity, view, results[i].ref)))
  {
    hide DecideWrite, WriteAll;
    var front := results[..|results| - 1];
    if i < |front| {
      assert front[..i] == results[..i] && front[i] == results[i] && results[|front|].ref != results[i].ref;
      OutcomesMean(m, view, front, i);
    }
  }

  /** It reports on the features of the results and no others. */
  lemma {:induction false} OutcomesAreOfResults(m: Latest, view: ViewRef, results: seq<FeatureResult>, ref: FeatureRef)
    ensures ref in OutcomesOf(m, view, results) <==> exists i :: 0 <= i < |results| && results[i].ref == ref
  {
    if results != [] {
      var front, last := results[..|results| - 1], |results| - 1;
      hide DecideWrite, WriteAll;
      OutcomesAreOfResults(m, view, front, ref);
      assert forall i :: 0 <= i < last ==> front[i] == results[i];
    }
  }

  /** In a recompute wave the guard never takes a later recompute of a feature for a stale one. */
  lemma LaterRecomputeIsNeverStale(features: FeatureTable, udfs: map<string, UdfBody>, view: ViewRef, entity: EntityKey,
                                   name: string, h: History, more: History, calcTs: Time, calcTs': Time, safetyGap: nat)
    requires calcTs <= calcTs' && name in features && !HasEdge(features[name].deps, name)
    requires RecomputeFrom(features, udfs, view, entity, name, h, calcTs, safetyGap).Row?
    requires RecomputeFrom(features, udfs, view, entity, name, h + more, calcTs', safetyGap).Row?
    ensures DecideWrite(RecomputeFrom(features, udfs, view, entity, name, h + more, calcTs', safetyGap).result,
                        Some(RecomputeFrom(features, udfs, view, entity, name, h, calcTs,
                                           safetyGap).result)) != SkippedStale
  {
    FreshnessNeverGoesBackwards(features, udfs, view, entity, name, h, more, calcTs, calcTs', safetyGap);
  }

  // ---------------------------------------------------------------------------------------
  // The request-level outcome
  // ---------------------------------------------------------------------------------------

  /** Any actual write wins, then a stale skip; only idempotent replays report a no-op. */
  function AggregateOnlineStatus(outcomes: set<Decision>): (d: Decision)
    ensures d == Written <==> exists o :: o in outcomes && Stores(o)
    ensures d == Noop <==> forall o :: o in outcomes ==> o == Noop
    ensures d != WrittenRecompute
  {
    if exists o :: o in outcomes && Stores(o) then Written
    else if SkippedStale in outcomes then SkippedStale
    else Noop
  }
}
