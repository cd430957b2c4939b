/** What one delivery of the offline writer leaves behind, in the terms of offline_writer.py and
    offline_writer_runner.py. */
module OfflineEffects {
  import opened Domain
  import Registry
  import opened Dlq
  import opened Dedup
  import opened Pit
  import opened Propagation
  import opened OfflineWriter

  /** The number of this attempt: one more than the header says, or the first. */
  function ThisAttempt(m: Write): int {
    1 + if "x-fsp-attempt" !in m.headers then 0
        else match m.headers["x-fsp-attempt"] case Decimal(n) => n case Other(_) => 0
  }

  /** The message cannot be turned into rows, however often it is tried. */
  predicate Unreadable(m: Write) {
    match m.body
    case Junk(_) => true
    case Json(e) => !e.wellFormed
  }

  /** What became of its dead letter, if one is sent. */
  function DeadLetter(m: Write, maxAttempts: int, reach: Reach): Option<Publish> {
    match reach
    case RaisesUnexpectedly(_, dlq) => if Unreadable(m) || ThisAttempt(m) >= maxAttempts then Some(dlq) else None
    case _ => if Unreadable(m) then Some(Acked) else None
  }

  /** What became of its retry copy, if one is sent. */
  function Retried(m: Write, maxAttempts: int, reach: Reach): Option<Publish> {
    match reach
    case RaisesUnexpectedly(retry, _) => if !Unreadable(m) && ThisAttempt(m) < maxAttempts then Some(retry) else None
    case _ => None
  }

  /** The rows that a delivery appends: the new ones, or the first of them if it stops while appending. */
  ghost function RowsAppended(h: History, m: Write, reach: Reach): seq<FeatureResult> {
    if Unreadable(m) || reach.RaisesUnexpectedly? then []
    else
      var kept := NewResults(h, m.body.event.view, m.body.event.results);
      if reach.StopsAppending? && reach.rows < |kept| then kept[..reach.rows] else kept
  }

  /** It gets past the append. */
  predicate Appends(m: Write, reach: Reach) {
    !Unreadable(m) && (reach.StopsPublishing? || reach.StopsBeforeCommit? || reach.Commits?)
  }

  /** Exactly what one delivery changes. A message is committed after a complete handling, an acknowledged
      retry copy or an acknowledged dead letter, and not otherwise. */
  lemma DeliveryMeans(views: seq<Registry.ViewDef>, s: State, o: nat, reach: Reach, maxAttempts: int)
    requires o < |s.topic|
    ensures var m, s' := s.topic[o], Play(views, s, Deliver(o, reach), maxAttempts);
      && (o in s'.committed <==>
            || o in s.committed || (!Unreadable(m) && reach.Commits?)
            || Retried(m, maxAttempts, reach) == Some(Acked) || DeadLetter(m, maxAttempts, reach) == Some(Acked))
      && (o in s'.deadLetters <==>
            o in s.deadLetters || DeadLetter(m, maxAttempts, reach) in {Some(Acked), Some(LandedUnacked)})
      && s'.committed - {o} == s.committed - {o} && s'.deadLetters - {o} == s.deadLetters - {o}
      && s'.topic == s.topic + (if Retried(m, maxAttempts, reach) in {Some(Acked), Some(LandedUnacked)}
                                then [Message(m.body, m.headers["x-fsp-attempt" := Decimal(ThisAttempt(m))])] else [])
  {
    hide NewResults, UpdatesFor, FindView;
    assert NextAttempt(s.topic[o].headers) == ThisAttempt(s.topic[o]);
  }

  /** The rows it appends, and that it announces every result of the event, new or not, once all are
      stored. */
  lemma DeliveryStores(views: seq<Registry.ViewDef>, s: State, o: nat, reach: Reach, maxAttempts: int)
    requires o < |s.topic|
    ensures var m, s' := s.topic[o], Play(views, s, Deliver(o, reach), maxAttempts);
      && s'.history == s.history +
           (if Unreadable(m) then [] else Records(m.body.event.view, RowsAppended(s.history, m, reach)))
      && s.published <= s'.published
      && (!Appends(m, reach) ==> s'.published == s.published)
  {
    hide NewResults, UpdatesFor, FindView, RetryOrDlq;
    RetryStoresNothing(s, o, maxAttempts, reach);
    assert s.history + [] == s.history;
  }

  lemma RetryStoresNothing(s: State, o: nat, maxAttempts: int, reach: Reach)
    requires o < |s.topic|
    ensures reach.RaisesUnexpectedly? ==>
      var s' := RetryOrDlq(s, o, maxAttempts, reach.retry, reach.dlq);
      s'.history == s.history && s'.published == s.published
  {
  }

  /** The updates of a complete announcement: one for each result of a watched feature, in order, each
      after all rows of the event were stored. */
  lemma DeliveryAnnounces(views: seq<Registry.ViewDef>, s: State, o: nat, reach: Reach, maxAttempts: int,
                          view: Registry.ViewDef)
    returns (at: seq<nat>)
    requires o < |s.topic| && Appends(s.topic[o], reach)
    requires FindView(views, s.topic[o].body.event.view) == Some(view)
    ensures var e, s' := s.topic[o].body.event, Play(views, s, Deliver(o, reach), maxAttempts);
      var n := |s'.published| - |s.published|;
      && Increasing(at)
      && (forall i: nat :: i in at <==> i < |e.results| && Watched(view.features, e.results[i].ref.name))
      && n == (if reach.StopsPublishing? && reach.updates < |at| then reach.updates else |at|)
      && s'.published[..|s.published|] == s.published
      && forall k :: 0 <= k < n ==>
           var a := s'.published[|s.published| + k];
           && at[k] < |e.results| && Announces(a.update, e.view, e.entityType, e.results[at[k]])
           && a.offset == o && a.rowsThen == |s'.history|
  {
    var e := s.topic[o].body.event;
    FoundViewHasRef(views, e.view);
    at := UpdatesMean(view, e.entityType, e.results, |s.published|);
    hide NewResults, UpdatesFor, FindView, Watched, Announces;
  }

  /** The status that a delivery returns says how it ended. */
  lemma StatusMeans(m: Write, maxAttempts: int, reach: Reach)
    ensures var status := StatusOf(m, maxAttempts, reach);
      && (status == Ok <==> !Unreadable(m) && reach.Commits?)
      && (status == StoppedBeforeCommit <==> !Unreadable(m) && reach.StopsBeforeCommit?)
      && (status == AppendFailed <==> !Unreadable(m) && reach.StopsAppending?)
      && (status == PropagationPublishFailed <==> !Unreadable(m) && reach.StopsPublishing?)
      && (status == RetryRepublished <==> Retried(m, maxAttempts, reach) == Some(Acked))
      && (status == RetryPublishFailed <==> Retried(m, maxAttempts, reach) in {Some(LandedUnacked), Some(Lost)})
      && (status == DeadLettered <==> DeadLetter(m, maxAttempts, reach) == Some(Acked))
      && (status == DlqPublishFailed <==> DeadLetter(m, maxAttempts, reach) in {Some(LandedUnacked), Some(Lost)})
  {
    assert NextAttempt(m.headers) == ThisAttempt(m);
  }
}
