/** When each effect of a delivery happens, and in which order, in the terms of online_worker.py and
    online_worker_runner.py. */
module OnlineEffects {
  import opened Domain
  import opened Dlq
  import opened WriteGuard
  import opened OnlineWorker

  /** The number of this attempt: one more than the header says, or the first. */
  function ThisAttempt(m: Request): int {
    1 + if "x-fsp-attempt" !in m.headers then 0
        else match m.headers["x-fsp-attempt"] case Decimal(n) => n case Other(_) => 0
  }

  predicate OnTime(e: Event, f: Environment) { e.expiresAt.None? || f.now < e.expiresAt.value }

  /** The request was computed and its values went online and towards history. */
  predicate Handed(e: Event, f: Environment) {
    OnTime(e, f) && f.computation.Computed? && f.onlineFailsAfter.None? && f.offline.Acked?
  }

  /** The completion lists the features whose values were stored, and sums up the answers of the guard. */
  ghost predicate Reports(c: Completion, outcomes: Outcomes) {
    && c.Finished?
    && (forall ref :: ref in c.written <==> ref in outcomes && outcomes[ref] in {Written, WrittenRecompute})
    && (c.onlineStatus == Written <==> exists ref :: ref in outcomes && outcomes[ref] in {Written, WrittenRecompute})
    && (c.onlineStatus == Noop <==> forall ref :: ref in outcomes ==> outcomes[ref] == Noop)
    && (c.onlineStatus == SkippedStale <==>
          (forall ref :: ref in outcomes ==> outcomes[ref] in {SkippedStale, Noop}) &&
          exists ref :: ref in outcomes && outcomes[ref] == SkippedStale)
  }

  /** The message is settled: reported late, served with its result stored, republished, or given up. */
  predicate Settles(m: Request, maxAttempts: int, f: Environment) {
    match m.body
    case Junk(_) => f.dlq.Acked?
    case Json(e) =>
      if !OnTime(e, f) then f.completion.Acked?
      else if f.computation.Computed? then Handed(e, f) && f.completion.Acked? && f.resultStore.Acked?
      else if ThisAttempt(m) < maxAttempts then f.retry.Acked?
      else f.dlq.Acked?
  }

  /** Exactly when an effect happens in a delivery of `m`. A publish whose acknowledgement got lost has
      happened; nothing follows it. */
  ghost predicate Happens(m: Request, maxAttempts: int, f: Environment, outcomes: Outcomes, x: Effect) {
    match x
    case WroteOnline(view, r) =>
      && m.body.Json? && OnTime(m.body.event, f) && f.computation.Computed? && view == m.body.event.view
      && exists i :: 0 <= i < |f.computation.results| && f.computation.results[i] == r &&
                     (f.onlineFailsAfter.Some? ==> i < f.onlineFailsAfter.value)
    case PublishedOffline(e, results) =>
      && m.body == Json(e) && OnTime(e, f) && f.computation == Computed(results)
      && f.onlineFailsAfter.None? && !f.offline.Lost?
    case PublishedCompletion(e, c) =>
      && m.body == Json(e) && !f.completion.Lost?
      && if OnTime(e, f) then Handed(e, f) && Reports(c, outcomes) else c == DeadlineExpired
    case StoredResult(e, results) =>
      && m.body == Json(e) && Handed(e, f) && f.computation.results == results && f.completion.Acked?
      && !f.resultStore.Lost?
    case Republished(copy) =>
      && m.body.Json? && OnTime(m.body.event, f) && !f.computation.Computed? && ThisAttempt(m) < maxAttempts
      && !f.retry.Lost?
      && copy.body == m.body && copy.headers == m.headers["x-fsp-attempt" := Decimal(ThisAttempt(m))]
    case DeadLettered(body, attempts) =>
      && body == m.body && !f.dlq.Lost?
      && (match m.body
          case Junk(_) => attempts == None
          case Json(e) =>
            && OnTime(e, f) && !f.computation.Computed? && ThisAttempt(m) >= maxAttempts
            && attempts == Some(ThisAttempt(m)))
    case Committed => Settles(m, maxAttempts, f)
    case SetStatus(requestId, status) =>
      && f.statusUp && m.body.Json? && requestId == m.body.event.requestId
      && match status
         case Running => true
         case Completed(c) =>
           && Settles(m, maxAttempts, f)
           && if OnTime(m.body.event, f) then f.computation.Computed? && Reports(c, outcomes) else c == DeadlineExpired
         case Failed =>
           && Settles(m, maxAttempts, f) && OnTime(m.body.event, f) && !f.computation.Computed?
           && ThisAttempt(m) >= maxAttempts
  }

  lemma FinishedReports(outcomes: Outcomes, c: Completion)
    ensures Reports(c, outcomes) <==> c == FinishedWith(outcomes)
  {
    assert forall ref :: ref in outcomes ==> outcomes[ref] in outcomes.Values;
    var finished := FinishedWith(outcomes);
    if Reports(c, outcomes) {
      assert c.written == finished.written;
    }
  }

  lemma AttemptsAgree(m: Request)
    ensures NextAttempt(m.headers) == ThisAttempt(m)
  {
  }

  lemma WritesMean(view: ViewRef, results: seq<FeatureResult>, x: Effect)
    ensures x in OnlineWrites(view, results) <==>
      x.WroteOnline? && x.view == view && exists i :: 0 <= i < |results| && results[i] == x.result
  {
    if x.WroteOnline? && x.view == view {
      forall i | 0 <= i < |results| && results[i] == x.result
        ensures x in OnlineWrites(view, results)
      {
        assert OnlineWrites(view, results)[i] == x;
      }
    }
  }

  lemma HandlerMeans(m: Request, e: Event, maxAttempts: int, f: Environment, outcomes: Outcomes, x: Effect)
    requires m.body == Json(e)
    ensures x in HandlerTrace(e, f, outcomes) <==>
      (x.WroteOnline? || x.PublishedOffline? || x.PublishedCompletion?) && Happens(m, maxAttempts, f, outcomes, x)
  {
    if f.computation.Computed? {
      WritesMean(e.view, Reached(f, f.computation.results), x);
    }
    if x.PublishedCompletion? {
      FinishedReports(outcomes, x.completion);
    }
    hide OnlineWrites, FinishedWith;
  }

  /** What a failed attempt does. */
  lemma RetryMeans(m: Request, e: Event, maxAttempts: int, f: Environment, outcomes: Outcomes, x: Effect)
    requires m.body == Json(e) && OnTime(e, f) && !f.computation.Computed?
    ensures x in RetryTrace(m, e, maxAttempts, f) || x in StatusUpdate(f, e, Running) <==>
      !(x.WroteOnline? || x.PublishedOffline? || x.PublishedCompletion?) && Happens(m, maxAttempts, f, outcomes, x)
  {
    AttemptsAgree(m);
    hide Reports, GetAttempt;
  }

  lemma ConclusionMeans(m: Request, e: Event, maxAttempts: int, f: Environment, outcomes: Outcomes, x: Effect)
    requires m.body == Json(e)
    ensures x in ConclusionTrace(m, e, maxAttempts, f, outcomes) || x in StatusUpdate(f, e, Running) <==>
      !(x.WroteOnline? || x.PublishedOffline? || x.PublishedCompletion?) && Happens(m, maxAttempts, f, outcomes, x)
  {
    if OnTime(e, f) && !f.computation.Computed? {
      RetryMeans(m, e, maxAttempts, f, outcomes, x);
      hide Happens, RetryTrace, StatusUpdate, FinishedWith;
    } else {
      if x.SetStatus? && x.status.Completed? {
        FinishedReports(outcomes, x.status.completion);
      }
      hide FinishedWith, Reports, ThisAttempt, RetryTrace;
    }
  }

  lemma TraceMeans(m: Request, maxAttempts: int, f: Environment, outcomes: Outcomes, x: Effect)
    ensures x in Trace(m, maxAttempts, f, outcomes) <==> Happens(m, maxAttempts, f, outcomes, x)
  {
    if m.body.Json? {
      HandlerMeans(m, m.body.event, maxAttempts, f, outcomes, x);
      ConclusionMeans(m, m.body.event, maxAttempts, f, outcomes, x);
      hide HandlerTrace, ConclusionTrace, StatusUpdate, Happens;
    }
  }

  // ---------------------------------------------------------------------------------------
  // In which order
  // ---------------------------------------------------------------------------------------

  function Rank(x: Effect): nat {
    match x
    case WroteOnline(_, _) => 0
    case PublishedOffline(_, _) => 1
    case PublishedCompletion(_, _) => 2
    case StoredResult(_, _) => 3
    case Republished(_) => 3
    case DeadLettered(_, _) => 3
    case Committed => 4
    case SetStatus(_, _) => 5
  }

  /** Later effects rank higher, online writes aside; a status comes last, right after a commit. */
  ghost predicate Ordered(t: seq<Effect>) {
    && (forall i, j :: 0 <= i < j < |t| ==> Rank(t[i]) < Rank(t[j]) || (t[i].WroteOnline? && t[j].WroteOnline?))
    && forall i :: 0 <= i < |t| && t[i].SetStatus? ==> i > 0 && t[i - 1] == Committed
  }

  lemma OrderedJoin(a: seq<Effect>, b: seq<Effect>)
    requires Ordered(a) && Ordered(b) && forall i, j :: 0 <= i < |a| && 0 <= j < |b| ==> Rank(a[i]) < Rank(b[j])
    ensures Ordered(a + b)
  {
    hide Rank;
  }

  lemma StepsAreOrdered(p: Publish, x: Effect, end: seq<Effect>)
    requires Rank(x) == 3 && |end| <= 1 && forall y :: y in end ==> y.SetStatus?
    ensures var t := Landed(p, x) + CommitIf(p) + if p.Acked? then end else [];
      Ordered(t) && forall y :: y in t ==> Rank(y) >= 3
  {
    if p.Acked? && end != [] {
      assert end[0] in end;
      assert Landed(p, x) + CommitIf(p) + end == [x, Committed, end[0]];
    } else if p.Acked? {
      assert Landed(p, x) + CommitIf(p) + end == [x, Committed];
    }
  }

  lemma RetryIsOrdered(m: Request, e: Event, maxAttempts: int, f: Environment)
    ensures Ordered(RetryTrace(m, e, maxAttempts, f))
    ensures forall x :: x in RetryTrace(m, e, maxAttempts, f) ==> Rank(x) >= 3
  {
    if MayRetry(m, maxAttempts) {
      StepsAreOrdered(f.retry, Republished(RetryCopy(m)), StatusUpdate(f, e, Running));
    } else {
      StepsAreOrdered(f.dlq, DeadLettered(m.body, Some(NextAttempt(m.headers))), StatusUpdate(f, e, Failed));
    }
    hide Ordered, Landed, CommitIf, StatusUpdate;
  }

  lemma SettledIsOrdered(f: Environment, e: Event, status: RequestStatus)
    ensures var t := [Committed] + StatusUpdate(f, e, status);
      Ordered(t) && forall x :: x in t ==> Rank(x) >= 3
  {
    assert [Committed] + StatusUpdate(f, e, status) ==
      if f.statusUp then [Committed, SetStatus(e.requestId, status)] else [Committed];
  }

  lemma ConclusionIsOrdered(m: Request, e: Event, maxAttempts: int, f: Environment, outcomes: Outcomes)
    ensures Ordered(ConclusionTrace(m, e, maxAttempts, f, outcomes))
    ensures forall x :: x in ConclusionTrace(m, e, maxAttempts, f, outcomes) ==> Rank(x) >= 3
  {
    if HandlerStatus(e, f).Ok? {
      StepsAreOrdered(f.resultStore, StoredResult(e, f.computation.results),
                      StatusUpdate(f, e, Completed(FinishedWith(outcomes))));
    }
    SettledIsOrdered(f, e, Completed(DeadlineExpired));
    RetryIsOrdered(m, e, maxAttempts, f);
    hide Ordered, Landed, CommitIf, StatusUpdate, RetryTrace, FinishedWith;
  }

  lemma HandlerIsOrdered(e: Event, f: Environment, outcomes: Outcomes)
    ensures Ordered(HandlerTrace(e, f, outcomes))
    ensures forall x :: x in HandlerTrace(e, f, outcomes) ==> Rank(x) < 3
  {
    hide FinishedWith;
  }

  lemma EffectsAreOrdered(m: Request, e: Event, maxAttempts: int, f: Environment, outcomes: Outcomes)
    ensures Ordered(HandlerTrace(e, f, outcomes) + ConclusionTrace(m, e, maxAttempts, f, outcomes))
  {
    HandlerIsOrdered(e, f, outcomes);
    ConclusionIsOrdered(m, e, maxAttempts, f, outcomes);
    var a, b := HandlerTrace(e, f, outcomes), ConclusionTrace(m, e, maxAttempts, f, outcomes);
    hide HandlerTrace, ConclusionTrace, Ordered, Rank;
    assert forall i :: 0 <= i < |a| ==> a[i] in a;
    assert forall i :: 0 <= i < |b| ==> b[i] in b;
    OrderedJoin(a, b);
  }

  /** Online writes, then the offline event, the completion, the stored result or what replaces it, the
      commit, and a status at the end; only the status that marks the request as running comes before. */
  lemma TraceIsOrdered(m: Request, maxAttempts: int, f: Environment, outcomes: Outcomes)
    ensures var t := Trace(m, maxAttempts, f, outcomes);
      if m.body.Json? && f.statusUp then
        t != [] && t[0] == SetStatus(m.body.event.requestId, Running) && Ordered(t[1..])
      else Ordered(t)
  {
    if m.body.Json? {
      EffectsAreOrdered(m, m.body.event, maxAttempts, f, outcomes);
      EventTraceStarts(m, m.body.event, maxAttempts, f, outcomes);
      hide HandlerTrace, ConclusionTrace, Ordered, EventTrace;
    } else {
      StepsAreOrdered(f.dlq, DeadLettered(m.body, None), []);
      hide Ordered;
      assert Landed(f.dlq, DeadLettered(m.body, None)) + CommitIf(f.dlq) + [] == Trace(m, maxAttempts, f, outcomes);
    }
  }

  lemma EventTraceStarts(m: Request, e: Event, maxAttempts: int, f: Environment, outcomes: Outcomes)
    ensures var t := EventTrace(m, e, maxAttempts, f, outcomes);
      var rest := HandlerTrace(e, f, outcomes) + ConclusionTrace(m, e, maxAttempts, f, outcomes);
      if f.statusUp then t != [] && t[0] == SetStatus(e.requestId, Running) && t[1..] == rest else t == rest
  {
    hide HandlerTrace, ConclusionTrace;
    var rest := HandlerTrace(e, f, outcomes) + ConclusionTrace(m, e, maxAttempts, f, outcomes);
    assert EventTrace(m, e, maxAttempts, f, outcomes) == StatusUpdate(f, e, Running) + rest;
  }

  /** The writes are those of the results, in their order, before a failure if there is one. */
  lemma WritesInOrder(m: Request, maxAttempts: int, f: Environment, outcomes: Outcomes, k: nat)
    requires m.body.Json? && OnTime(m.body.event, f) && f.computation.Computed? && k < |f.computation.results|
    requires f.onlineFailsAfter.Some? ==> k < f.onlineFailsAfter.value
    ensures var t, at := Trace(m, maxAttempts, f, outcomes), k + if f.statusUp then 1 else 0;
      at < |t| && t[at] == WroteOnline(m.body.event.view, f.computation.results[k])
  {
    hide ConclusionTrace, FinishedWith;
  }

  // ---------------------------------------------------------------------------------------
  // The store and the answer
  // ---------------------------------------------------------------------------------------

  /** The online store receives exactly the results whose writes are in the trace, in their order. */
  lemma StoreGetsTheWrites(latest: Latest, m: Request, maxAttempts: int, f: Environment, outcomes: Outcomes)
    ensures var written := LoggedResults(Trace(m, maxAttempts, f, outcomes));
      LatestAfter(latest, m, f) == if m.body.Json? then WriteAll(latest, m.body.event.view, written) else latest
  {
    if m.body.Json? {
      var e := m.body.event;
      var a, b := HandlerTrace(e, f, outcomes), ConclusionTrace(m, e, maxAttempts, f, outcomes);
      ConclusionIsOrdered(m, e, maxAttempts, f, outcomes);
      NothingLogged(b);
      NothingLogged(StatusUpdate(f, e, Running));
      LoggedJoin(StatusUpdate(f, e, Running), a);
      LoggedJoin(StatusUpdate(f, e, Running) + a, b);
      HandlerLogs(e, f, outcomes);
      hide HandlerTrace, ConclusionTrace, LoggedResults, StatusUpdate;
      assert LoggedResults(Trace(m, maxAttempts, f, outcomes)) == LoggedResults(a);
      assert WriteAll(latest, e.view, []) == latest;
    } else {
      NothingLogged(Trace(m, maxAttempts, f, outcomes));
    }
  }

  function LoggedResults(t: seq<Effect>): seq<FeatureResult> {
    if t == [] then []
    else LoggedResults(t[..|t| - 1]) + if t[|t| - 1].WroteOnline? then [t[|t| - 1].result] else []
  }

  lemma {:induction false} NothingLogged(t: seq<Effect>)
    requires forall x :: x in t ==> !x.WroteOnline?
    ensures LoggedResults(t) == []
  {
    if t != [] {
      assert t[|t| - 1] in t && forall x :: x in t[..|t| - 1] ==> x in t;
      NothingLogged(t[..|t| - 1]);
    }
  }

  lemma {:induction false} LoggedJoin(a: seq<Effect>, b: seq<Effect>)
    ensures LoggedResults(a + b) == LoggedResults(a) + LoggedResults(b)
  {
    if b == [] {
      assert a + b == a;
    } else {
      assert (a + b)[..|a + b| - 1] == a + b[..|b| - 1];
      LoggedJoin(a, b[..|b| - 1]);
    }
  }

  lemma {:induction false} WritesAreLogged(view: ViewRef, results: seq<FeatureResult>)
    ensures LoggedResults(OnlineWrites(view, results)) == results
  {
    if results != [] {
      var front := results[..|results| - 1];
      assert OnlineWrites(view, results)[..|results| - 1] == OnlineWrites(view, front);
      WritesAreLogged(view, front);
    }
  }

  lemma HandlerLogs(e: Event, f: Environment, outcomes: Outcomes)
    ensures LoggedResults(HandlerTrace(e, f, outcomes)) ==
      if PastDeadline(e, f.now) || !f.computation.Computed? then [] else Reached(f, f.computation.results)
  {
    if PastDeadline(e, f.now) || !f.computation.Computed? {
      NothingLogged(HandlerTrace(e, f, outcomes));
    } else {
      var results := f.computation.results;
      var writes := OnlineWrites(e.view, Reached(f, results));
      var rest := if f.onlineFailsAfter.Some? then []
        else Landed(f.offline, PublishedOffline(e, results)) +
             if f.offline.Acked? then Landed(f.completion, PublishedCompletion(e, FinishedWith(outcomes))) else [];
      WritesAreLogged(e.view, Reached(f, results));
      NothingLogged(rest);
      LoggedJoin(writes, rest);
    }
  }

  /** The status that a delivery returns says how it ended. */
  lemma StatusMeans(m: Request, maxAttempts: int, f: Environment)
    ensures var status := FinalStatus(m, maxAttempts, f);
      var late := m.body.Json? && !OnTime(m.body.event, f);
      var handed := m.body.Json? && Handed(m.body.event, f);
      var failed := m.body.Json? && !late && !f.computation.Computed?;
      && (status == Expired <==> late && f.completion.Acked?)
      && (status == Ok <==> handed && f.completion.Acked? && f.resultStore.Acked?)
      && (status == ResultStoreFailed <==> handed && f.completion.Acked? && !f.resultStore.Acked?)
      && (status == OnlineWriteFailed <==>
            m.body.Json? && !late && f.computation.Computed? && f.onlineFailsAfter.Some?)
      && (status == PublishFailed <==>
            || (late && !f.completion.Acked?) || (handed && !f.completion.Acked?)
            || (m.body.Json? && !late && f.computation.Computed? && f.onlineFailsAfter.None? && !f.offline.Acked?))
      && (status == RetryRepublished <==> failed && ThisAttempt(m) < maxAttempts && f.retry.Acked?)
      && (status == RetryPublishFailed <==> failed && ThisAttempt(m) < maxAttempts && !f.retry.Acked?)
      && (status == DeadLetter <==>
            (m.body.Junk? || (failed && ThisAttempt(m) >= maxAttempts)) && f.dlq.Acked?)
      && (status == DlqPublishFailed <==>
            (m.body.Junk? || (failed && ThisAttempt(m) >= maxAttempts)) && !f.dlq.Acked?)
  {
    AttemptsAgree(m);
  }
}
