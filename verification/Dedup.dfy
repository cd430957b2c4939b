/** Exact-duplicate detection for offline rows (dedup.py). */
module Dedup {
  import opened Domain
  import opened Pit

  // ---------------------------------------------------------------------------------------
  // When a row repeats another
  // ---------------------------------------------------------------------------------------

  datatype Signature = Signature(
    entity: EntityKey, ref: FeatureRef, dataTs: Time, value: Value,
    fingerprint: Option<Fingerprint>, trusted: Option<Time>)

  function SignatureOf(r: FeatureResult): Signature {
    Signature(r.entity, r.ref, r.dataTs, r.value, r.fingerprint, TrustedAvailableAt(r))
  }

  /** Fingerprints and trusted availabilities tell rows apart only when both rows carry one. */
  predicate AgreeIfBothPresent<T(==)>(a: Option<T>, b: Option<T>) {
    a.None? || b.None? || a == b
  }

  predicate SameState(existing: FeatureResult, candidate: FeatureResult) {
    && existing.dataTs == candidate.dataTs && existing.value == candidate.value
    && AgreeIfBothPresent(existing.fingerprint, candidate.fingerprint)
    && AgreeIfBothPresent(TrustedAvailableAt(existing), TrustedAvailableAt(candidate))
  }

  function QueryFor(view: ViewRef, r: FeatureResult): Query { Query(r.entity, r.ref.name, r.ref.version, view) }

  /** Some stored row already says what `r` says. */
  ghost predicate Represented(h: History, view: ViewRef, r: FeatureResult) {
    exists rec :: rec in h && Matches(QueryFor(view, r), rec) && SameState(rec.result, r)
  }

  /** The results that a bulk append keeps: not stored already, and not the exact repetition of
      one kept earlier in the same call. */
  ghost function NewResults(h: History, view: ViewRef, results: seq<FeatureResult>): (kept: seq<FeatureResult>)
    ensures |kept| <= |results|
  {
    if results == [] then []
    else
      var kept, last := NewResults(h, view, results[..|results| - 1]), results[|results| - 1];
      if (exists k :: k in kept && SignatureOf(k) == SignatureOf(last)) || Represented(h, view, last)
      then kept else kept + [last]
  }

  ghost predicate Skips(h: History, view: ViewRef, kept: seq<FeatureResult>, r: FeatureResult) {
    Represented(h, view, r) || exists t :: t in kept && SignatureOf(t) == SignatureOf(r)
  }

  lemma NewSnoc(h: History, view: ViewRef, front: seq<FeatureResult>, last: FeatureResult)
    ensures var before := NewResults(h, view, front);
      NewResults(h, view, front + [last]) == if Skips(h, view, before, last) then before else before + [last]
  {
    assert (front + [last])[..|front|] == front;
  }

  ghost function Appended(h: History, view: ViewRef, results: seq<FeatureResult>): History {
    h + Records(view, NewResults(h, view, results))
  }

  method ExistsInOffline(offline: OfflineStore, view: ViewRef, r: FeatureResult) returns (found: bool)
    ensures found <==> Represented(offline.history, view, r)
  {
    var existing := offline.Get(QueryFor(view, r));
    forall rec ensures rec in existing <==> rec in offline.history && Matches(QueryFor(view, r), rec) {
      InFilter(offline.history, QueryFor(view, r), rec);
    }
    for i := 0 to |existing|
      invariant forall j :: 0 <= j < i ==> !SameState(existing[j].result, r)
    {
      if SameState(existing[i].result, r) {
        return true;
      }
    }
    return false;
  }

  method PartitionNewResults(offline: OfflineStore, view: ViewRef, results: seq<FeatureResult>)
    returns (kept: seq<FeatureResult>, duplicates: nat)
    ensures kept == NewResults(offline.history, view, results)
    ensures duplicates == |results| - |kept|
  {
    kept, duplicates := [], 0;
    var seen: set<Signature> := {};
    for i := 0 to |results|
      invariant kept == NewResults(offline.history, view, results[..i])
      invariant seen == set k | k in kept :: SignatureOf(k)
      invariant duplicates == i - |kept|
    {
      assert results[..i + 1][..i] == results[..i];
      if SignatureOf(results[i]) in seen {
        duplicates := duplicates + 1;
      } else {
        var found := ExistsInOffline(offline, view, results[i]);
        if found {
          duplicates := duplicates + 1;
        } else {
          seen := seen + {SignatureOf(results[i])};
          kept := kept + [results[i]];
        }
      }
    }
    assert results[..|results|] == results;
  }

  // ---------------------------------------------------------------------------------------
  // What is kept, field by field
  // ---------------------------------------------------------------------------------------

  /** The result claims an availability that its sources provided. */
  predicate Claims(r: FeatureResult) {
    r.availableAt.Some? && r.availabilitySource == Some(SourceProvided)
  }

  /** A stored row of the view says the same: a fingerprint or a claim that one side lacks, as rows
      written before an upgrade do, does not tell the two apart. */
  predicate SaysAlready(rec: Record, view: ViewRef, r: FeatureResult) {
    && rec.view.view == view.view && rec.view.version == view.version
    && rec.result.entity == r.entity && rec.result.ref.name == r.ref.name && rec.result.ref.version == r.ref.version
    && rec.result.dataTs == r.dataTs && rec.result.value == r.value
    && (rec.result.fingerprint.Some? && r.fingerprint.Some? ==> rec.result.fingerprint == r.fingerprint)
    && (Claims(rec.result) && Claims(r) ==> rec.result.availableAt == r.availableAt)
  }

  /** Within a call, a missing fingerprint or claim is as good as a different one. */
  predicate Repeats(a: FeatureResult, b: FeatureResult) {
    && a.entity == b.entity && a.ref == b.ref && a.dataTs == b.dataTs && a.value == b.value
    && (a.fingerprint.Some? <==> b.fingerprint.Some?)
    && (a.fingerprint.Some? && b.fingerprint.Some? ==> a.fingerprint.value == b.fingerprint.value)
    && (Claims(a) <==> Claims(b)) && (Claims(a) ==> a.availableAt == b.availableAt)
  }

  /** The next result of a call is dropped exactly if a stored row already says it or an earlier
      result of the call, kept or not, repeats it; everything else is kept, in the order of the call. */
  lemma KeptMeans(h: History, view: ViewRef, front: seq<FeatureResult>, last: FeatureResult)
    ensures NewResults(h, view, []) == []
    ensures NewResults(h, view, front + [last]) == NewResults(h, view, front) +
      if (exists rec :: rec in h && SaysAlready(rec, view, last)) || (exists r :: r in front && Repeats(r, last))
      then [] else [last]
  {
    var kept := NewResults(h, view, front);
    NewSnoc(h, view, front, last);
    KeptComesFromCall(h, view, front);
    assert forall r: FeatureResult :: Repeats(r, last) <==> SignatureOf(r) == SignatureOf(last);
    StoredMeans(h, view, last);
    forall r | r in front && Repeats(r, last)
      ensures Skips(h, view, kept, last)
    {
      EarlierTwinSkips(h, view, front, r, last);
    }
    assert kept + [] == kept;
    hide NewResults, Represented, SaysAlready, Repeats, SignatureOf;
  }

  lemma StoredMeans(h: History, view: ViewRef, r: FeatureResult)
    ensures Represented(h, view, r) <==> exists rec :: rec in h && SaysAlready(rec, view, r)
  {
    assert forall rec :: SaysAlready(rec, view, r) <==> Matches(QueryFor(view, r), rec) && SameState(rec.result, r);
    hide SaysAlready, Matches, SameState;
  }

  /** A result whose twin comes earlier in the call is skipped, whether the twin was kept or not. */
  lemma {:induction false} EarlierTwinSkips(h: History, view: ViewRef, front: seq<FeatureResult>, twin: FeatureResult,
                                            r: FeatureResult)
    requires twin in front && SignatureOf(twin) == SignatureOf(r)
    ensures Skips(h, view, NewResults(h, view, front), r)
  {
    var before, last := front[..|front| - 1], front[|front| - 1];
    assert front == before + [last];
    NewSnoc(h, view, before, last);
    if twin in before {
      EarlierTwinSkips(h, view, before, twin, r);
    } else if Represented(h, view, twin) {
      RepresentedByTwin(h, view, r, twin);
    } else if Skips(h, view, NewResults(h, view, before), twin) {
      var k :| k in NewResults(h, view, before) && SignatureOf(k) == SignatureOf(twin);
    } else {
      assert twin in NewResults(h, view, front);
    }
  }

  // ---------------------------------------------------------------------------------------
  // Replays append nothing
  // ---------------------------------------------------------------------------------------

  lemma RepresentedForGood(h: History, more: History, view: ViewRef, r: FeatureResult)
    requires Represented(h, view, r)
    ensures Represented(h + more, view, r)
  {
    var rec :| rec in h && Matches(QueryFor(view, r), rec) && SameState(rec.result, r);
    assert rec in h + more;
  }

  lemma RepresentedByTwin(h: History, view: ViewRef, r: FeatureResult, twin: FeatureResult)
    requires Represented(h, view, twin) && SignatureOf(twin) == SignatureOf(r)
    ensures Represented(h, view, r)
  {
    var rec :| rec in h && Matches(QueryFor(view, twin), rec) && SameState(rec.result, twin);
    assert Matches(QueryFor(view, r), rec) && SameState(rec.result, r);
  }

  lemma RepresentsItself(h: History, view: ViewRef, results: seq<FeatureResult>, r: FeatureResult)
    requires r in results
    ensures Represented(h + Records(view, results), view, r)
  {
    var i :| 0 <= i < |results| && results[i] == r;
    assert Records(view, results)[i] in h + Records(view, results);
  }

  /** After a bulk append every result of the call is in the history, kept or not. */
  lemma {:induction false} AppendRepresentsAll(h: History, view: ViewRef, results: seq<FeatureResult>, r: FeatureResult)
    requires r in results
    ensures Represented(Appended(h, view, results), view, r)
  {
    var front, last := results[..|results| - 1], results[|results| - 1];
    var kept, all := NewResults(h, view, front), NewResults(h, view, results);
    if r in front {
      AppendRepresentsAll(h, view, front, r);
      if all != kept {
        assert Appended(h, view, results) == Appended(h, view, front) + Records(view, [last]);
        RepresentedForGood(Appended(h, view, front), Records(view, [last]), view, r);
      }
    } else {
      assert results == front + [last];
      if Represented(h, view, r) {
        RepresentedForGood(h, Records(view, all), view, r);
      } else if all == kept {
        var k :| k in kept && SignatureOf(k) == SignatureOf(r);
        RepresentsItself(h, view, all, k);
        RepresentedByTwin(Appended(h, view, results), view, r, k);
      } else {
        RepresentsItself(h, view, all, r);
      }
    }
  }

  lemma {:induction false} NothingNew(h: History, view: ViewRef, results: seq<FeatureResult>)
    requires forall r :: r in results ==> Represented(h, view, r)
    ensures NewResults(h, view, results) == []
  {
    if results != [] {
      NothingNew(h, view, results[..|results| - 1]);
      assert results[|results| - 1] in results;
    }
  }

  /** Idempotence: once a call's append is in the history, repeating the call keeps nothing,
      whatever else was appended in the meantime. */
  lemma ReplayAppendsNothing(h: History, more: History, view: ViewRef, results: seq<FeatureResult>)
    ensures NewResults(Appended(h, view, results) + more, view, results) == []
  {
    forall r | r in results
      ensures Represented(Appended(h, view, results) + more, view, r)
    {
      AppendRepresentsAll(h, view, results, r);
      RepresentedForGood(Appended(h, view, results), more, view, r);
    }
    NothingNew(Appended(h, view, results) + more, view, results);
  }

  // ---------------------------------------------------------------------------------------
  // Bulk and one-by-one appends
  // ---------------------------------------------------------------------------------------

  ghost function OneByOne(h: History, view: ViewRef, results: seq<FeatureResult>): History {
    if results == [] then h
    else
      var before := OneByOne(h, view, results[..|results| - 1]);
      Appended(before, view, [results[|results| - 1]])
  }

  /** Two kept results of which the later would have been taken for a duplicate of the earlier
      one, had the earlier one been stored already. */
  ghost predicate Collides(view: ViewRef, kept: seq<FeatureResult>, i: nat, j: nat) {
    i < j < |kept| && Matches(QueryFor(view, kept[j]), Record(view, kept[i])) && SameState(kept[i], kept[j])
  }

  ghost predicate CollisionFree(view: ViewRef, kept: seq<FeatureResult>) { forall i, j :: !Collides(view, kept, i, j) }

  /** Some row of `kept`, once stored, represents `r`. */
  ghost predicate StoredIn(view: ViewRef, kept: seq<FeatureResult>, r: FeatureResult) {
    exists i :: 0 <= i < |kept| && Matches(QueryFor(view, r), Record(view, kept[i])) && SameState(kept[i], r)
  }

  lemma CollisionFreeSnoc(view: ViewRef, kept: seq<FeatureResult>, last: FeatureResult)
    ensures CollisionFree(view, kept + [last]) <==> (CollisionFree(view, kept) && !StoredIn(view, kept, last))
  {
    var all := kept + [last];
    assert forall i: nat, j: nat :: Collides(view, kept, i, j) ==> Collides(view, all, i, j);
    assert forall i: nat, j: nat :: Collides(view, all, i, j) ==> Collides(view, kept, i, j) || j == |kept|;
    assert forall i: nat :: i < |kept| ==>
      (Collides(view, all, i, |kept|) <==>
         Matches(QueryFor(view, last), Record(view, kept[i])) && SameState(kept[i], last));
  }

  lemma SingleAppend(h: History, view: ViewRef, r: FeatureResult)
    ensures Appended(h, view, [r]) == if Represented(h, view, r) then h else h + [Record(view, r)]
  {
    assert NewResults(h, view, [r][..0]) == [];
    assert [r][..|[r]| - 1] == [];
  }

  lemma {:induction false} OneByOneRepresentsAll(h: History, view: ViewRef, results: seq<FeatureResult>,
                                                 r: FeatureResult)
    requires r in results
    ensures Represented(OneByOne(h, view, results), view, r)
  {
    var front, last := results[..|results| - 1], results[|results| - 1];
    assert results == front + [last];
    SingleAppend(OneByOne(h, view, front), view, last);
    if r == last {
      AppendRepresentsAll(OneByOne(h, view, front), view, [last], r);
    } else {
      OneByOneRepresentsAll(h, view, front, r);
      RepresentedForGood(OneByOne(h, view, front), [Record(view, last)], view, r);
    }
  }

  lemma {:induction false} OneByOneExtends(h: History, view: ViewRef, results: seq<FeatureResult>)
    ensures h <= OneByOne(h, view, results)
  {
    if results != [] {
      OneByOneExtends(h, view, results[..|results| - 1]);
      SingleAppend(OneByOne(h, view, results[..|results| - 1]), view, results[|results| - 1]);
    }
  }

  lemma {:induction false} KeptComesFromCall(h: History, view: ViewRef, results: seq<FeatureResult>)
    ensures forall k :: k in NewResults(h, view, results) ==> k in results
  {
    if results != [] {
      KeptComesFromCall(h, view, results[..|results| - 1]);
      assert results == results[..|results| - 1] + [results[|results| - 1]];
    }
  }

  /** What the bulk append skips, the one-by-one append skips too. */
  lemma BulkSkipIsSkip(h: History, view: ViewRef, front: seq<FeatureResult>, last: FeatureResult)
    requires NewResults(h, view, front + [last]) == NewResults(h, view, front)
    ensures Represented(OneByOne(h, view, front), view, last)
  {
    assert (front + [last])[..|front|] == front;
    var kept := NewResults(h, view, front);
    OneByOneExtends(h, view, front);
    if Represented(h, view, last) {
      RepresentedForGood(h, OneByOne(h, view, front)[|h|..], view, last);
    } else {
      var k :| k in kept && SignatureOf(k) == SignatureOf(last);
      KeptComesFromCall(h, view, front);
      OneByOneRepresentsAll(h, view, front, k);
      RepresentedByTwin(OneByOne(h, view, front), view, last, k);
    }
  }

  lemma RepresentedInExtension(h: History, view: ViewRef, kept: seq<FeatureResult>, r: FeatureResult)
    ensures Represented(h + Records(view, kept), view, r) <==>
      Represented(h, view, r) || StoredIn(view, kept, r)
  {
    var all := h + Records(view, kept);
    if Represented(h, view, r) {
      RepresentedForGood(h, Records(view, kept), view, r);
    }
    if i :| 0 <= i < |kept| && Matches(QueryFor(view, r), Record(view, kept[i])) && SameState(kept[i], r) {
      assert Records(view, kept)[i] in all;
    }
  }

  /** The bulk append never stores less, and stores exactly the same rows in the same order if
      and only if no two of its kept results collide. */
  lemma {:induction false} BulkVersusOneByOne(h: History, view: ViewRef, results: seq<FeatureResult>)
    ensures |OneByOne(h, view, results)| <= |Appended(h, view, results)|
    ensures Appended(h, view, results) == OneByOne(h, view, results) <==>
      CollisionFree(view, NewResults(h, view, results))
    ensures Appended(h, view, results) != OneByOne(h, view, results) ==>
      |OneByOne(h, view, results)| < |Appended(h, view, results)|
  {
    if results != [] {
      var front, last := results[..|results| - 1], results[|results| - 1];
      assert results == front + [last];
      BulkVersusOneByOne(h, view, front);
      var one, kept := OneByOne(h, view, front), NewResults(h, view, front);
      SingleAppend(one, view, last);
      NewSnoc(h, view, front, last);
      if NewResults(h, view, results) == kept {
        BulkSkipIsSkip(h, view, front, last);
      } else {
        assert Appended(h, view, results) == Appended(h, view, front) + [Record(view, last)];
        RepresentedInExtension(h, view, kept, last);
        CollisionFreeSnoc(view, kept, last);
        hide CollisionFree, StoredIn, Represented;
      }
    }
  }

  ghost predicate UniformPresence(results: seq<FeatureResult>) {
    forall a, b :: a in results && b in results ==>
      (a.fingerprint.Some? <==> b.fingerprint.Some?) && (TrustedAvailableAt(a).Some? <==> TrustedAvailableAt(b).Some?)
  }

  ghost predicate DistinctSignatures(kept: seq<FeatureResult>) {
    forall i, j :: 0 <= i < j < |kept| ==> SignatureOf(kept[i]) != SignatureOf(kept[j])
  }

  lemma {:induction false} KeptSignaturesDiffer(h: History, view: ViewRef, results: seq<FeatureResult>)
    ensures DistinctSignatures(NewResults(h, view, results))
  {
    if results != [] {
      var before, last := NewResults(h, view, results[..|results| - 1]), results[|results| - 1];
      KeptSignaturesDiffer(h, view, results[..|results| - 1]);
      if NewResults(h, view, results) != before {
        forall i | 0 <= i < |before|
          ensures SignatureOf(before[i]) != SignatureOf(last)
        {
          assert before[i] in before;
        }
      }
    }
  }

  /** Results that all carry, or all lack, each optional identity never collide. */
  lemma UniformCallsAgree(h: History, view: ViewRef, results: seq<FeatureResult>)
    requires UniformPresence(results)
    ensures Appended(h, view, results) == OneByOne(h, view, results)
  {
    var kept := NewResults(h, view, results);
    KeptComesFromCall(h, view, results);
    KeptSignaturesDiffer(h, view, results);
    forall i: nat, j: nat | i < j < |kept|
      ensures !Collides(view, kept, i, j)
    {
      assert kept[i] in kept && kept[j] in kept;
      assert SignatureOf(kept[i]) != SignatureOf(kept[j]);
    }
    BulkVersusOneByOne(h, view, results);
  }

  /** Without uniformity they can differ: a row without a fingerprint followed by the same state
      with one is stored twice in bulk and once one by one. */
  lemma MixedCallsCanDiffer(view: ViewRef, plain: FeatureResult, stamped: FeatureResult)
    requires plain.fingerprint == None && stamped == plain.(fingerprint := Some(External("f")))
    ensures |Appended([], view, [plain, stamped])| == 2 && |OneByOne([], view, [plain, stamped])| == 1
  {
    var both := [plain, stamped];
    assert both[..1] == [plain] && [plain][..0] == [];
    assert NewResults([], view, [plain]) == [plain];
    assert NewResults([], view, both) == both;
    SingleAppend([], view, plain);
    assert OneByOne([], view, []) == [];
    assert OneByOne([], view, [plain]) == [Record(view, plain)];
    SingleAppend([Record(view, plain)], view, stamped);
    assert Record(view, plain) in [Record(view, plain)];
    assert Represented([Record(view, plain)], view, stamped);
  }

  /** The same happens with an availability that sources provided. */
  lemma ClaimedCallsCanDiffer(view: ViewRef, plain: FeatureResult, claimed: FeatureResult, at: Time)
    requires plain.availableAt == None && plain.availabilitySource == None
    requires claimed == plain.(availableAt := Some(at), availabilitySource := Some(SourceProvided))
    ensures |Appended([], view, [plain, claimed])| == 2 && |OneByOne([], view, [plain, claimed])| == 1
  {
    var both := [plain, claimed];
    assert both[..1] == [plain] && [plain][..0] == [];
    assert NewResults([], view, [plain]) == [plain];
    assert NewResults([], view, both) == both;
    SingleAppend([], view, plain);
    assert OneByOne([], view, []) == [];
    assert OneByOne([], view, [plain]) == [Record(view, plain)];
    SingleAppend([Record(view, plain)], view, claimed);
    assert Record(view, plain) in [Record(view, plain)];
    assert Represented([Record(view, plain)], view, claimed);
  }
}
