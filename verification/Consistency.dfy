/** The read-only check of the online latest value against offline history (consistency.py). */
module Consistency {
  import opened Domain
  import opened Registry
  import opened Pit
  import opened Dedup
  import opened WriteGuard

  datatype Status = Ok | MissingOnline | MissingOffline | MissingBoth | StaleOnline | OnlineNewer | ValueMismatch

  datatype Item = Item(status: Status, offline: Option<FeatureResult>, online: Option<FeatureResult>)

  function Classify(offline: Option<FeatureResult>, online: Option<FeatureResult>): Item {
    var status :=
      if offline.None? && online.None? then MissingBoth
      else if online.None? then MissingOnline
      else if offline.None? then MissingOffline
      else if online.value.dataTs < offline.value.dataTs then StaleOnline
      else if online.value.dataTs > offline.value.dataTs then OnlineNewer
      else if offline.value.value != online.value.value then ValueMismatch
      else Ok;
    Item(status, offline, online)
  }

  /** The newest row by data time; the last appended one on ties. */
  ghost predicate NewestAt(records: History, i: nat) {
    && i < |records|
    && (forall j :: 0 <= j < |records| ==> records[j].result.dataTs <= records[i].result.dataTs)
    && forall j :: i < j < |records| ==> records[j].result.dataTs < records[i].result.dataTs
  }

  method LatestOffline(records: History) returns (latest: Option<Record>, ghost at: nat)
    ensures latest.None? <==> records == []
    ensures latest.Some? ==> NewestAt(records, at) && latest.value == records[at]
  {
    latest, at := None, 0;
    for i := 0 to |records|
      invariant latest.None? <==> i == 0
      invariant latest.Some? ==> NewestAt(records[..i], at) && latest.value == records[at]
    {
      if latest.None? || records[i].result.dataTs >= latest.value.result.dataTs {
        latest, at := Some(records[i]), i;
      }
    }
    assert records[..|records|] == records;
  }

  /** Item `item` is a truthful report on one feature. */
  ghost predicate Reports(item: Item, h: History, m: Latest, view: ViewRef, entity: EntityKey, ref: FeatureRef) {
    var records := Filter(h, Query(entity, ref.name, ref.version, view));
    && item.online == Current(m, Key(entity, view, ref))
    && (item.offline.None? <==> records == [])
    && (item.offline.Some? ==> exists i: nat :: NewestAt(records, i) && item.offline.value == records[i].result)
    && item == Classify(item.offline, item.online)
  }

  datatype Report = Report(consistent: bool, items: map<string, Item>) | UnknownFeature(name: string)

  method CheckFeature(offline: OfflineStore, online: OnlineStore, view: ViewRef, entity: EntityKey, ref: FeatureRef)
    returns (item: Item)
    ensures Reports(item, offline.history, online.values, view, entity, ref)
  {
    var records := offline.Get(Query(entity, ref.name, ref.version, view));
    var latest;
    ghost var at;
    latest, at := LatestOffline(records);
    var stored := if latest.Some? then Some(latest.value.result) else None;
    item := Classify(stored, Current(online.values, Key(entity, view, ref)));
    assert latest.Some? ==> NewestAt(records, at) && item.offline.value == records[at].result;
  }

  method CheckConsistency(offline: OfflineStore, online: OnlineStore, view: ViewRef, features: FeatureTable,
                          entity: EntityKey, names: seq<string>)
    returns (report: Report)
    ensures report.UnknownFeature? <==> exists n :: n in names && n !in features
    ensures report.Report? ==>
      && (forall n :: n in report.items <==> n in names)
      && (forall n :: n in report.items ==>
            Reports(report.items[n], offline.history, online.values, view, entity, FeatureRef(n, features[n].version)))
      && (report.consistent <==> forall n :: n in report.items ==> report.items[n].status == Ok)
  {
    hide Reports;
    var items: map<string, Item> := map[];
    for i := 0 to |names|
      invariant forall j :: 0 <= j < i ==> names[j] in features
      invariant forall n :: n in items <==> n in names[..i]
      invariant forall n :: n in items ==>
        Reports(items[n], offline.history, online.values, view, entity, FeatureRef(n, features[n].version))
    {
      var name := names[i];
      if name !in features {
        return UnknownFeature(name);
      }
      var item := CheckFeature(offline, online, view, entity, FeatureRef(name, features[name].version));
      items := items[name := item];
    }
    return Report(forall n | n in items :: items[n].status == Ok, items);
  }

  // ---------------------------------------------------------------------------------------
  // What each status says about the two stores
  // ---------------------------------------------------------------------------------------

  /** Row `i` is about the feature of the entity. */
  predicate IsRowOf(h: History, view: ViewRef, entity: EntityKey, ref: FeatureRef, i: nat) {
    i < |h| && h[i].view == view && h[i].result.entity == entity && h[i].result.ref == ref
  }

  /** No row about the feature has newer data, and no later one has data as new. */
  ghost predicate NewestRow(h: History, view: ViewRef, entity: EntityKey, ref: FeatureRef, i: nat) {
    && IsRowOf(h, view, entity, ref, i)
    && forall j: nat :: IsRowOf(h, view, entity, ref, j) && j != i ==>
         h[j].result.dataTs < h[i].result.dataTs || (h[j].result.dataTs == h[i].result.dataTs && j < i)
  }

  lemma {:induction false} NewestInHistory(h: History, view: ViewRef, entity: EntityKey, ref: FeatureRef, k: nat)
    returns (i: nat)
    requires NewestAt(Filter(h, Query(entity, ref.name, ref.version, view)), k)
    ensures NewestRow(h, view, entity, ref, i)
    ensures h[i] == Filter(h, Query(entity, ref.name, ref.version, view))[k]
  {
    var q, last := Query(entity, ref.name, ref.version, view), |h| - 1;
    var records, front := Filter(h, q), Filter(h[..last], q);
    assert Matches(q, h[last]) <==> IsRowOf(h, view, entity, ref, last);
    if k < |front| {
      assert records[..|front|] == front;
      i := NewestInHistory(h[..last], view, entity, ref, k);
      assert Matches(q, h[last]) ==> records[|front|] == h[last];
      assert forall j: nat :: IsRowOf(h, view, entity, ref, j) && j != last ==>
        IsRowOf(h[..last], view, entity, ref, j);
    } else {
      i := last;
      forall j: nat | IsRowOf(h, view, entity, ref, j) && j != i
        ensures h[j].result.dataTs <= h[i].result.dataTs
      {
        InFilter(h, q, h[j]);
      }
    }
  }

  /** Exactly when each status is reported, over all rows of the history and the online value. */
  lemma StatusMeans(item: Item, h: History, m: Latest, view: ViewRef, entity: EntityKey, ref: FeatureRef)
    requires Reports(item, h, m, view, entity, ref)
    ensures var k := Key(entity, view, ref);
      var stored := exists i: nat :: IsRowOf(h, view, entity, ref, i);
      && (item.status == MissingBoth <==> !stored && k !in m)
      && (item.status == MissingOnline <==> stored && k !in m)
      && (item.status == MissingOffline <==> !stored && k in m)
      && (item.status == StaleOnline <==>
            k in m && exists i: nat :: IsRowOf(h, view, entity, ref, i) && m[k].dataTs < h[i].result.dataTs)
      && (item.status == OnlineNewer <==>
            k in m && stored && forall i: nat :: IsRowOf(h, view, entity, ref, i) ==> h[i].result.dataTs < m[k].dataTs)
      && (item.status == ValueMismatch <==>
            k in m && exists i: nat ::
              NewestRow(h, view, entity, ref, i) && h[i].result.dataTs == m[k].dataTs &&
                h[i].result.value != m[k].value)
      && (item.status == Ok <==>
            k in m && exists i: nat ::
              NewestRow(h, view, entity, ref, i) && h[i].result.dataTs == m[k].dataTs &&
                h[i].result.value == m[k].value)
  {
    var q := Query(entity, ref.name, ref.version, view);
    forall i: nat | IsRowOf(h, view, entity, ref, i)
      ensures h[i] in Filter(h, q)
    {
      InFilter(h, q, h[i]);
    }
    if item.offline.Some? {
      var at: nat :| NewestAt(Filter(h, q), at) && item.offline.value == Filter(h, q)[at].result;
      var i := NewestInHistory(h, view, entity, ref, at);
      hide Filter, NewestAt;
      assert forall j: nat :: NewestRow(h, view, entity, ref, j) ==> j == i;
    }
  }

  // ---------------------------------------------------------------------------------------
  // Online and offline agree on what they received
  // ---------------------------------------------------------------------------------------

  /** The history holds the results of the view and nothing else, up to dropped duplicates. */
  ghost predicate Received(h: History, view: ViewRef, results: seq<FeatureResult>) {
    && (forall rec :: rec in h && rec.view == view ==> rec.result in results)
    && forall r :: r in results ==> Represented(h, view, r)
  }

  lemma AppendIsReceived(h: History, view: ViewRef, before: seq<FeatureResult>, results: seq<FeatureResult>)
    requires Received(h, view, before)
    ensures Received(Appended(h, view, results), view, before + results)
  {
    KeptComesFromCall(h, view, results);
    forall r | r in before + results
      ensures Represented(Appended(h, view, results), view, r)
    {
      if r in results {
        AppendRepresentsAll(h, view, results, r);
      } else {
        RepresentedForGood(h, Records(view, NewResults(h, view, results)), view, r);
      }
    }
  }

  /** One call of the bulk append, for some view. */
  datatype Call = Call(view: ViewRef, results: seq<FeatureResult>)

  ghost function HistoryOf(calls: seq<Call>): History {
    if calls == [] then []
    else
      var last := calls[|calls| - 1];
      Appended(HistoryOf(calls[..|calls| - 1]), last.view, last.results)
  }

  /** Everything that was sent to the history for one view. */
  function Sent(calls: seq<Call>, view: ViewRef): seq<FeatureResult> {
    if calls == [] then []
    else
      var last := calls[|calls| - 1];
      Sent(calls[..|calls| - 1], view) + if last.view == view then last.results else []
  }

  /** Any sequence of bulk appends leaves a history that holds exactly what was sent for a view. */
  lemma {:induction false} AppendsAreReceived(calls: seq<Call>, view: ViewRef)
    ensures Received(HistoryOf(calls), view, Sent(calls, view))
  {
    if calls != [] {
      var front, last := calls[..|calls| - 1], calls[|calls| - 1];
      var h, sent := HistoryOf(front), Sent(front, view);
      AppendsAreReceived(front, view);
      if last.view == view {
        AppendIsReceived(h, view, sent, last.results);
      } else {
        var kept := NewResults(h, last.view, last.results);
        assert Sent(calls, view) == sent;
        forall r | r in sent
          ensures Represented(h + Records(last.view, kept), view, r)
        {
          RepresentedForGood(h, Records(last.view, kept), view, r);
        }
      }
    }
  }

  /** `r` is a result for the key, and none has a newer data time. */
  ghost predicate Newest(results: seq<FeatureResult>, view: ViewRef, k: Key, r: FeatureResult) {
    r in results && KeyOf(view, r) == k && forall c :: c in results && KeyOf(view, c) == k ==> c.dataTs <= r.dataTs
  }

  ghost predicate NewestShareValue(results: seq<FeatureResult>, view: ViewRef, k: Key) {
    forall a, b :: Newest(results, view, k, a) && Newest(results, view, k, b) ==> a.value == b.value
  }

  /** The newest stored row is a newest received result; there is one if anything was received. */
  lemma OfflineIsNewest(h: History, view: ViewRef, received: seq<FeatureResult>, k: Key, records: History)
    requires Received(h, view, received) && k.view == view
    requires forall rec :: rec in records <==>
      rec in h && Matches(Query(k.entity, k.ref.name, k.ref.version, view), rec)
    ensures records == [] <==> forall r :: r in received ==> KeyOf(view, r) != k
    ensures forall i: nat :: NewestAt(records, i) ==> Newest(received, view, k, records[i].result)
  {
    if records != [] {
      assert records[0] in records;
    }
    forall r | r in received && KeyOf(view, r) == k
      ensures exists j :: 0 <= j < |records| && records[j].result.dataTs == r.dataTs
    {
      assert Represented(h, view, r);
      var rec :| rec in h && Matches(QueryFor(view, r), rec) && SameState(rec.result, r);
      var j :| 0 <= j < |records| && records[j] == rec;
    }
    forall i: nat | NewestAt(records, i)
      ensures Newest(received, view, k, records[i].result)
    {
      assert records[i] in records;
    }
  }

  /** So is the online value. */
  lemma OnlineIsNewest(view: ViewRef, received: seq<FeatureResult>, writes: seq<FeatureResult>, k: Key)
    requires SameWrites(received, writes)
    ensures var m := WriteAll(map[], view, writes);
      && (k !in m <==> forall r :: r in received ==> KeyOf(view, r) != k)
      && (k in m ==> Newest(received, view, k, m[k]))
  {
    var mine := WritesOf(view, writes, k);
    StoreIsPerKey(view, writes, k);
    forall r ensures r in mine <==> r in received && KeyOf(view, r) == k {
      InWritesOf(view, writes, k, r);
    }
    if mine == [] {
      assert forall r :: r in received && KeyOf(view, r) == k ==> r in mine;
    } else {
      FinalIsTop(mine);
    }
  }

  /** If the same results were sent to both stores, to history in any bulk appends and to the online
      store in any order, with any repetitions and whatever was appended for other views, the check
      never finds either side missing alone, stale or newer; and it finds them equal when all
      results with the newest data time share a value. */
  lemma StoresAgree(calls: seq<Call>, view: ViewRef, writes: seq<FeatureResult>, entity: EntityKey, ref: FeatureRef,
                    item: Item)
    requires SameWrites(Sent(calls, view), writes)
    requires Reports(item, HistoryOf(calls), WriteAll(map[], view, writes), view, entity, ref)
    ensures item.status == Ok || item.status == ValueMismatch || item.status == MissingBoth
    ensures item.status == MissingBoth <==> forall r :: r in Sent(calls, view) ==>
      KeyOf(view, r) != Key(entity, view, ref)
    ensures NewestShareValue(Sent(calls, view), view, Key(entity, view, ref)) ==> item.status != ValueMismatch
  {
    AppendsAreReceived(calls, view);
    ReceiversAgree(HistoryOf(calls), WriteAll(map[], view, writes), view, Sent(calls, view), writes, entity, ref, item);
  }

  lemma ReceiversAgree(h: History, m: Latest, view: ViewRef, received: seq<FeatureResult>, writes: seq<FeatureResult>,
                       entity: EntityKey, ref: FeatureRef, item: Item)
    requires Received(h, view, received) && m == WriteAll(map[], view, writes) && SameWrites(received, writes)
    requires Reports(item, h, m, view, entity, ref)
    ensures item.status == Ok || item.status == ValueMismatch || item.status == MissingBoth
    ensures item.status == MissingBoth <==> forall r :: r in received ==> KeyOf(view, r) != Key(entity, view, ref)
    ensures NewestShareValue(received, view, Key(entity, view, ref)) ==> item.status != ValueMismatch
  {
    var q, k := Query(entity, ref.name, ref.version, view), Key(entity, view, ref);
    var records := Filter(h, q);
    forall rec ensures rec in records <==> rec in h && Matches(q, rec) {
      InFilter(h, q, rec);
    }
    OfflineIsNewest(h, view, received, k, records);
    OnlineIsNewest(view, received, writes, k);
    NewestAgree(received, view, k, item);
  }

  lemma NewestAgree(received: seq<FeatureResult>, view: ViewRef, k: Key, item: Item)
    requires item == Classify(item.offline, item.online)
    requires item.offline.None? <==> forall r :: r in received ==> KeyOf(view, r) != k
    requires item.online.None? <==> forall r :: r in received ==> KeyOf(view, r) != k
    requires item.offline.Some? ==> Newest(received, view, k, item.offline.value)
    requires item.online.Some? ==> Newest(received, view, k, item.online.value)
    ensures item.status == Ok || item.status == ValueMismatch || item.status == MissingBoth
    ensures item.status == MissingBoth <==> forall r :: r in received ==> KeyOf(view, r) != k
    ensures NewestShareValue(received, view, k) ==> item.status != ValueMismatch
  {
  }
}
