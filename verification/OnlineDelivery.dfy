/** Any number of online workers on one topic: at-least-once delivery, workers that crash between
    any two effects, publishes that fail, and redelivery of anything at any time. */
module OnlineDelivery {
  import opened Domain
  import opened Registry
  import opened Dlq
  import opened WriteGuard
  import opened OnlineWorker

  datatype Entry = Entry(offset: nat, effect: Effect)

  /** A delivery in progress: the first `done` effects of its trace have happened. */
  datatype Flight = Flight(offset: nat, f: Environment, outcomes: Outcomes, done: nat)

  datatype System = System(
    topic: seq<Request>, log: seq<Entry>, committed: set<nat>, latest: Latest, flights: map<nat, Flight>)

  const EMPTY: System := System([], [], {}, map[], map[])

  datatype Move =
    | Produce(message: Request)
    | Deliver(worker: nat, offset: nat, f: Environment, outcomes: Outcomes)
    | Advance(worker: nat)
    | Crash(worker: nat)

  function Script(s: System, fl: Flight, maxAttempts: int): seq<Effect>
    requires fl.offset < |s.topic|
  {
    Trace(s.topic[fl.offset], maxAttempts, fl.f, fl.outcomes)
  }

  function Perform(s: System, offset: nat, e: Effect): System {
    var logged := s.(log := s.log + [Entry(offset, e)]);
    match e
    case WroteOnline(view, r) => logged.(latest := WriteOne(s.latest, view, r))
    case Republished(copy) => logged.(topic := s.topic + [copy])
    case Committed => logged.(committed := s.committed + {offset})
    case _ => logged
  }

  function Play(s: System, move: Move, maxAttempts: int): System {
    match move
    case Produce(message) => s.(topic := s.topic + [message])
    case Deliver(w, offset, f, outcomes) =>
      if offset < |s.topic| then s.(flights := s.flights[w := Flight(offset, f, outcomes, 0)]) else s
    case Advance(w) =>
      if w in s.flights && s.flights[w].offset < |s.topic| &&
        s.flights[w].done < |Script(s, s.flights[w], maxAttempts)| then
        var fl := s.flights[w];
        Perform(s, fl.offset, Script(s, fl, maxAttempts)[fl.done]).(flights := s.flights[w := fl.(done := fl.done + 1)])
      else s
    case Crash(w) => s.(flights := s.flights - {w})
  }

  function Run(moves: seq<Move>, maxAttempts: int): System {
    if moves == [] then EMPTY else Play(Run(moves[..|moves| - 1], maxAttempts), moves[|moves| - 1], maxAttempts)
  }

  /** Every message that was produced is on the topic, and stays there. */
  lemma {:induction false} ProducedIsOnTopic(moves: seq<Move>, maxAttempts: int, message: Request)
    requires Produce(message) in moves
    ensures message in Run(moves, maxAttempts).topic
  {
    var front, last := moves[..|moves| - 1], moves[|moves| - 1];
    assert moves == front + [last];
    hide Script;
    if last != Produce(message) {
      ProducedIsOnTopic(front, maxAttempts, message);
    }
  }

  // ---------------------------------------------------------------------------------------
  // What a commit promises
  // ---------------------------------------------------------------------------------------

  /** The full effects of a computed request: values online, values on their way to history,
      a completion event and the request-scoped result. */
  ghost predicate Served(e: Event, done: seq<Effect>, results: seq<FeatureResult>, completion: Completion) {
    && (forall r :: r in results ==> WroteOnline(e.view, r) in done)
    && PublishedOffline(e, results) in done && completion.Finished? && PublishedCompletion(e, completion) in done
    && StoredResult(e, results) in done
  }

  ghost predicate Settles(m: Request, done: seq<Effect>) {
    || (m.body.Json? && exists results, completion :: Served(m.body.event, done, results, completion))
    || (m.body.Json? && PublishedCompletion(m.body.event, DeadlineExpired) in done)
    || exists attempts :: DeadLettered(m.body, attempts) in done
  }

  /** A message may be committed once it is settled or a bounded retry copy carries it on. */
  ghost predicate Covers(m: Request, maxAttempts: int, done: seq<Effect>) {
    Settles(m, done) || (MayRetry(m, maxAttempts) && Republished(RetryCopy(m)) in done)
  }

  lemma ServedBeforeCommit(e: Event, f: Environment, outcomes: Outcomes)
    requires HandlerStatus(e, f).Ok?
    ensures Served(e, HandlerTrace(e, f, outcomes) + [StoredResult(e, f.computation.results)], f.computation.results,
                   FinishedWith(outcomes))
  {
    var results := f.computation.results;
    var done := HandlerTrace(e, f, outcomes) + [StoredResult(e, results)];
    assert done == OnlineWrites(e.view, results) +
      [PublishedOffline(e, results), PublishedCompletion(e, FinishedWith(outcomes)), StoredResult(e, results)];
    forall r | r in results
      ensures WroteOnline(e.view, r) in done
    {
      var i :| 0 <= i < |results| && results[i] == r;
      assert done[i] == WroteOnline(e.view, r);
    }
    assert done[|results|] == PublishedOffline(e, results) &&
      done[|results| + 1] == PublishedCompletion(e, FinishedWith(outcomes));
  }

  lemma ServedWithMore(e: Event, done: seq<Effect>, before: seq<Effect>, results: seq<FeatureResult>,
                       completion: Completion)
    requires Served(e, done, results, completion)
    ensures Served(e, before + done, results, completion)
  {
  }

  /** What happens before the conclusion of a delivery neither commits nor reports completion. */
  ghost predicate Quiet(x: Effect) { x != Committed && (x.SetStatus? ==> x.status == Running) }

  function Opening(e: Event, f: Environment, outcomes: Outcomes): seq<Effect> {
    StatusUpdate(f, e, Running) + HandlerTrace(e, f, outcomes)
  }

  lemma OpeningIsQuiet(e: Event, f: Environment, outcomes: Outcomes)
    ensures forall i :: 0 <= i < |Opening(e, f, outcomes)| ==> Quiet(Opening(e, f, outcomes)[i])
  {
    forall x | x in HandlerTrace(e, f, outcomes)
      ensures Quiet(x)
    {
    }
  }

  lemma EventTraceSplits(m: Request, e: Event, maxAttempts: int, f: Environment, outcomes: Outcomes, k: nat)
    requires m.body == Json(e) && k < |Trace(m, maxAttempts, f, outcomes)| &&
      !Quiet(Trace(m, maxAttempts, f, outcomes)[k])
    ensures var n, conclusion := |Opening(e, f, outcomes)|, ConclusionTrace(m, e, maxAttempts, f, outcomes);
      && n <= k < n + |conclusion| && conclusion[k - n] == Trace(m, maxAttempts, f, outcomes)[k]
      && Trace(m, maxAttempts, f, outcomes)[..k] == Opening(e, f, outcomes) + conclusion[..k - n]
  {
    OpeningIsQuiet(e, f, outcomes);
    var opening, conclusion := Opening(e, f, outcomes), ConclusionTrace(m, e, maxAttempts, f, outcomes);
    SplitAt(opening, conclusion, k);
  }

  lemma SplitAt<T>(a: seq<T>, b: seq<T>, k: nat)
    requires k < |a + b|
    ensures k < |a| ==> (a + b)[k] == a[k]
    ensures |a| <= k ==> (a + b)[k] == b[k - |a|] && (a + b)[..k] == a + b[..k - |a|]
  {
  }

  /** Within one delivery, whatever precedes the commit covers the message. */
  lemma CommitIsCovered(m: Request, maxAttempts: int, f: Environment, outcomes: Outcomes, k: nat)
    requires k < |Trace(m, maxAttempts, f, outcomes)| && Trace(m, maxAttempts, f, outcomes)[k] == Committed
    ensures Covers(m, maxAttempts, Trace(m, maxAttempts, f, outcomes)[..k])
  {
    match m.body {
      case Junk(_) =>
        assert Trace(m, maxAttempts, f, outcomes)[..k] == [DeadLettered(m.body, None)];
      case Json(e) =>
        EventTraceSplits(m, e, maxAttempts, f, outcomes, k);
        ConclusionCovers(m, e, maxAttempts, f, outcomes, k - |Opening(e, f, outcomes)|);
    }
  }

  lemma ConclusionCovers(m: Request, e: Event, maxAttempts: int, f: Environment, outcomes: Outcomes, k: nat)
    requires m.body == Json(e)
    requires k < |ConclusionTrace(m, e, maxAttempts, f, outcomes)| &&
      ConclusionTrace(m, e, maxAttempts, f, outcomes)[k] == Committed
    ensures Covers(m, maxAttempts, Opening(e, f, outcomes) + ConclusionTrace(m, e, maxAttempts, f, outcomes)[..k])
  {
    var status, handled, conclusion := StatusUpdate(f, e, Running), HandlerTrace(e, f, outcomes),
      ConclusionTrace(m, e, maxAttempts, f, outcomes);
    var done := status + handled + conclusion[..k];
    match HandlerStatus(e, f) {
      case Ok =>
        var stored := [StoredResult(e, f.computation.results)];
        assert conclusion[..k] == stored;
        ServedBeforeCommit(e, f, outcomes);
        ServedWithMore(e, handled + stored, status, f.computation.results, FinishedWith(outcomes));
        assert done == status + (handled + stored);
      case Expired =>
        assert handled == [PublishedCompletion(e, DeadlineExpired)];
        assert done[|status|] == PublishedCompletion(e, DeadlineExpired);
      case ComputeFailed => RetryCovers(m, e, maxAttempts, f, status + handled, k);
      case UnexpectedError => RetryCovers(m, e, maxAttempts, f, status + handled, k);
      case _ =>
    }
  }

  lemma RetryCovers(m: Request, e: Event, maxAttempts: int, f: Environment, before: seq<Effect>, k: nat)
    requires k < |RetryTrace(m, e, maxAttempts, f)| && RetryTrace(m, e, maxAttempts, f)[k] == Committed
    ensures Covers(m, maxAttempts, before + RetryTrace(m, e, maxAttempts, f)[..k])
  {
    var trace := RetryTrace(m, e, maxAttempts, f);
    assert k == 1 && trace[..1] == [trace[0]];
    assert (before + [trace[0]])[|before|] == trace[0];
  }

  /** Values reach the online store first, then history, and only then is anything reported: what
      must have happened before effect `x` of a delivery. */
  ghost predicate Backed(x: Effect, done: seq<Effect>) {
    match x
    case PublishedOffline(e, results) => forall r :: r in results ==> WroteOnline(e.view, r) in done
    case PublishedCompletion(e, completion) => completion.Finished? ==>
      exists results :: PublishedOffline(e, results) in done
    case StoredResult(e, results) => PublishedOffline(e, results) in done
    case _ => true
  }

  lemma OnlineWritesAreAll(view: ViewRef, results: seq<FeatureResult>)
    ensures forall r :: r in results ==> WroteOnline(view, r) in OnlineWrites(view, results)
    ensures forall x :: x in OnlineWrites(view, results) ==> x.WroteOnline?
  {
    forall r | r in results
      ensures WroteOnline(view, r) in OnlineWrites(view, results)
    {
      var i :| 0 <= i < |results| && results[i] == r;
      assert OnlineWrites(view, results)[i] == WroteOnline(view, r);
    }
  }

  lemma HandlerIsBacked(e: Event, f: Environment, outcomes: Outcomes, k: nat)
    requires k < |HandlerTrace(e, f, outcomes)|
    ensures Backed(HandlerTrace(e, f, outcomes)[k], HandlerTrace(e, f, outcomes)[..k])
  {
    if !PastDeadline(e, f.now) && f.computation.Computed? {
      var results := f.computation.results;
      var writes := OnlineWrites(e.view, Reached(f, results));
      OnlineWritesAreAll(e.view, Reached(f, results));
      if k < |writes| {
        assert HandlerTrace(e, f, outcomes)[k] == writes[k];
      } else {
        SplitAt(writes, HandlerTrace(e, f, outcomes)[|writes|..], k);
        assert HandlerTrace(e, f, outcomes) == writes + HandlerTrace(e, f, outcomes)[|writes|..];
        if k > |writes| {
          assert HandlerTrace(e, f, outcomes)[|writes|] == PublishedOffline(e, results);
          assert HandlerTrace(e, f, outcomes)[..k][|writes|] == PublishedOffline(e, results);
        }
      }
    }
  }

  lemma BackedByMore(x: Effect, done: seq<Effect>, before: seq<Effect>)
    requires Backed(x, done)
    ensures Backed(x, before + done)
  {
  }

  lemma ConclusionPublishesNoCompletion(m: Request, e: Event, maxAttempts: int, f: Environment, outcomes: Outcomes,
                                        x: Effect)
    requires x in ConclusionTrace(m, e, maxAttempts, f, outcomes)
    ensures !x.PublishedCompletion? && !x.WroteOnline? && !x.PublishedOffline?
    ensures x.StoredResult? ==> HandlerStatus(e, f).Ok?
  {
  }

  lemma OpeningIsBacked(e: Event, f: Environment, outcomes: Outcomes, k: nat)
    requires k < |Opening(e, f, outcomes)|
    ensures Backed(Opening(e, f, outcomes)[k], Opening(e, f, outcomes)[..k])
  {
    var status, handled := StatusUpdate(f, e, Running), HandlerTrace(e, f, outcomes);
    SplitAt(status, handled, k);
    if k >= |status| {
      HandlerIsBacked(e, f, outcomes, k - |status|);
      BackedByMore(handled[k - |status|], handled[..k - |status|], status);
    }
  }

  lemma ConclusionIsBacked(m: Request, e: Event, maxAttempts: int, f: Environment, outcomes: Outcomes, k: nat)
    requires k < |ConclusionTrace(m, e, maxAttempts, f, outcomes)|
    ensures Backed(ConclusionTrace(m, e, maxAttempts, f, outcomes)[k], Opening(e, f, outcomes))
  {
    var x := ConclusionTrace(m, e, maxAttempts, f, outcomes)[k];
    ConclusionPublishesNoCompletion(m, e, maxAttempts, f, outcomes, x);
    if x.StoredResult? {
      assert x == StoredResult(e, f.computation.results);
      var n := |OnlineWrites(e.view, Reached(f, f.computation.results))|;
      assert HandlerTrace(e, f, outcomes)[n] == PublishedOffline(e, f.computation.results);
      assert PublishedOffline(e, f.computation.results) in HandlerTrace(e, f, outcomes);
    }
  }

  /** Within one delivery, every effect is backed by the effects before it. */
  lemma TraceIsBacked(m: Request, maxAttempts: int, f: Environment, outcomes: Outcomes, k: nat)
    requires k < |Trace(m, maxAttempts, f, outcomes)|
    ensures Backed(Trace(m, maxAttempts, f, outcomes)[k], Trace(m, maxAttempts, f, outcomes)[..k])
  {
    if m.body.Json? {
      var e := m.body.event;
      var opening, conclusion := Opening(e, f, outcomes), ConclusionTrace(m, e, maxAttempts, f, outcomes);
      assert Trace(m, maxAttempts, f, outcomes) == opening + conclusion;
      SplitAt(opening, conclusion, k);
      if k < |opening| {
        OpeningIsBacked(e, f, outcomes, k);
        assert (opening + conclusion)[..k] == opening[..k];
      } else {
        ConclusionIsBacked(m, e, maxAttempts, f, outcomes, k - |opening|);
        BackedByPrefix(conclusion[k - |opening|], opening, conclusion[..k - |opening|]);
      }
    }
  }

  lemma BackedByPrefix(x: Effect, done: seq<Effect>, more: seq<Effect>)
    requires Backed(x, done)
    ensures Backed(x, done + more)
  {
  }

  predicate ReportsValues(x: Effect) { x.SetStatus? && x.status.Completed? && x.status.completion.Finished? }

  lemma ConclusionReports(m: Request, e: Event, maxAttempts: int, f: Environment, outcomes: Outcomes, i: nat)
    requires i < |ConclusionTrace(m, e, maxAttempts, f, outcomes)| &&
      ReportsValues(ConclusionTrace(m, e, maxAttempts, f, outcomes)[i])
    ensures i > 0 && ConclusionTrace(m, e, maxAttempts, f, outcomes)[0].StoredResult?
    ensures ConclusionTrace(m, e, maxAttempts, f, outcomes)[0].event == e
  {
  }

  /** Within one delivery, a completion other than a missed deadline is reported only after the
      request-scoped result was stored. */
  lemma CompletedAfterResult(m: Request, maxAttempts: int, f: Environment, outcomes: Outcomes, k: nat)
    requires k < |Trace(m, maxAttempts, f, outcomes)| && ReportsValues(Trace(m, maxAttempts, f, outcomes)[k])
    ensures m.body.Json? && exists results ::
      StoredResult(m.body.event, results) in Trace(m, maxAttempts, f, outcomes)[..k]
  {
    match m.body {
      case Junk(_) => assert false;
      case Json(e) =>
        EventTraceSplits(m, e, maxAttempts, f, outcomes, k);
        var opening, conclusion := Opening(e, f, outcomes), ConclusionTrace(m, e, maxAttempts, f, outcomes);
        var i := k - |opening|;
        ConclusionReports(m, e, maxAttempts, f, outcomes, i);
        assert (opening + conclusion[..i])[|opening|] == StoredResult(e, conclusion[0].results);
    }
  }

  // ---------------------------------------------------------------------------------------
  // The invariant of every run
  // ---------------------------------------------------------------------------------------

  /** The latest value of the feature is at least as fresh as `r`. */
  ghost predicate AtLeast(latest: Latest, view: ViewRef, r: FeatureResult) {
    KeyOf(view, r) in latest && !Less(GuardTuple(latest[KeyOf(view, r)]), GuardTuple(r))
  }

  /** Effect `x` of a delivery of message `o` has happened, and still shows. */
  ghost predicate Happened(s: System, o: nat, x: Effect) {
    && Entry(o, x) in s.log
    && (x.Republished? ==> x.copy in s.topic)
    && (x.Committed? ==> o in s.committed)
    && (x.WroteOnline? ==> AtLeast(s.latest, x.view, x.result))
  }

  ghost predicate AllHappened(s: System, o: nat, done: seq<Effect>) {
    forall k :: 0 <= k < |done| ==> Happened(s, o, done[k])
  }

  ghost predicate InFlight(s: System, fl: Flight, maxAttempts: int) {
    fl.offset < |s.topic| && fl.done <= |Script(s, fl, maxAttempts)| &&
      AllHappened(s, fl.offset, Script(s, fl, maxAttempts)[..fl.done])
  }

  ghost predicate CoveredAt(s: System, o: nat, maxAttempts: int) {
    o < |s.topic| && exists done :: Covers(s.topic[o], maxAttempts, done) && AllHappened(s, o, done)
  }

  ghost predicate ResultStored(s: System, o: nat) {
    o < |s.topic| && s.topic[o].body.Json? && exists results ::
      Happened(s, o, StoredResult(s.topic[o].body.event, results))
  }

  /** The effects that back effect `x` of message `o` have happened. */
  ghost predicate BackedAt(s: System, o: nat, x: Effect) {
    exists done :: Backed(x, done) && AllHappened(s, o, done)
  }

  ghost predicate Invariant(s: System, maxAttempts: int) {
    && (forall w :: w in s.flights ==> InFlight(s, s.flights[w], maxAttempts))
    && (forall o :: o in s.committed ==> CoveredAt(s, o, maxAttempts))
    && (forall en :: en in s.log && ReportsValues(en.effect) ==> ResultStored(s, en.offset))
    && (forall en :: en in s.log ==> BackedAt(s, en.offset, en.effect))
  }

  /** The topic, the log and the commits only grow, and the latest values only get fresher. */
  ghost predicate Grows(s: System, s': System) {
    && s.topic <= s'.topic && s.log <= s'.log && s.committed <= s'.committed
    && forall view, r :: AtLeast(s.latest, view, r) ==> AtLeast(s'.latest, view, r)
  }

  lemma WriteKeepsFreshness(m: Latest, view: ViewRef, r: FeatureResult)
    ensures AtLeast(WriteOne(m, view, r), view, r)
    ensures forall v, q :: AtLeast(m, v, q) ==> AtLeast(WriteOne(m, view, r), v, q)
  {
  }

  lemma PerformGrows(s: System, o: nat, x: Effect)
    ensures Grows(s, Perform(s, o, x)) && Happened(Perform(s, o, x), o, x)
  {
    if x.WroteOnline? {
      WriteKeepsFreshness(s.latest, x.view, x.result);
    }
  }

  lemma HappenedStays(s: System, s': System, o: nat, done: seq<Effect>)
    requires Grows(s, s') && AllHappened(s, o, done)
    ensures AllHappened(s', o, done)
  {
    forall k | 0 <= k < |done|
      ensures Happened(s', o, done[k])
    {
      assert Happened(s, o, done[k]);
      InPrefix(s.log, s'.log, Entry(o, done[k]));
      if done[k].Republished? {
        InPrefix(s.topic, s'.topic, done[k].copy);
      }
    }
  }

  lemma InPrefix<T>(a: seq<T>, b: seq<T>, x: T)
    requires a <= b && x in a
    ensures x in b
  {
    var i :| 0 <= i < |a| && a[i] == x;
    assert b[i] == x;
  }

  lemma InFlightStays(s: System, s': System, fl: Flight, maxAttempts: int)
    requires Grows(s, s') && InFlight(s, fl, maxAttempts)
    ensures InFlight(s', fl, maxAttempts)
  {
    HappenedStays(s, s', fl.offset, Script(s, fl, maxAttempts)[..fl.done]);
  }

  lemma CoveredStays(s: System, s': System, o: nat, maxAttempts: int)
    requires Grows(s, s') && CoveredAt(s, o, maxAttempts)
    ensures CoveredAt(s', o, maxAttempts)
  {
    var done :| Covers(s.topic[o], maxAttempts, done) && AllHappened(s, o, done);
    HappenedStays(s, s', o, done);
    assert s'.topic[o] == s.topic[o];
  }

  lemma ResultStoredStays(s: System, s': System, o: nat)
    requires Grows(s, s') && ResultStored(s, o)
    ensures ResultStored(s', o)
  {
    var results :| Happened(s, o, StoredResult(s.topic[o].body.event, results));
    HappenedStays(s, s', o, [StoredResult(s.topic[o].body.event, results)]);
    assert Happened(s', o, [StoredResult(s.topic[o].body.event, results)][0]);
  }

  lemma BackedStays(s: System, s': System, o: nat, x: Effect)
    requires Grows(s, s') && BackedAt(s, o, x)
    ensures BackedAt(s', o, x)
  {
    var done :| Backed(x, done) && AllHappened(s, o, done);
    HappenedStays(s, s', o, done);
  }

  /** The next effect of a flight: what has happened before justifies it. */
  lemma AdvanceIsJustified(s: System, fl: Flight, x: Effect, maxAttempts: int)
    requires InFlight(s, fl, maxAttempts) && fl.done < |Script(s, fl, maxAttempts)| &&
      Script(s, fl, maxAttempts)[fl.done] == x
    ensures x.Committed? ==> CoveredAt(s, fl.offset, maxAttempts)
    ensures ReportsValues(x) ==> ResultStored(s, fl.offset)
    ensures BackedAt(s, fl.offset, x)
  {
    TraceIsBacked(s.topic[fl.offset], maxAttempts, fl.f, fl.outcomes, fl.done);
    var m, done := s.topic[fl.offset], Script(s, fl, maxAttempts)[..fl.done];
    if x.Committed? {
      CommitIsCovered(m, maxAttempts, fl.f, fl.outcomes, fl.done);
      assert Covers(m, maxAttempts, done);
    }
    if ReportsValues(x) {
      CompletedAfterResult(m, maxAttempts, fl.f, fl.outcomes, fl.done);
      var results :| StoredResult(m.body.event, results) in done;
      var k :| 0 <= k < |done| && done[k] == StoredResult(m.body.event, results);
      assert Happened(s, fl.offset, done[k]);
    }
  }

  lemma FlightAdvances(s: System, fl: Flight, x: Effect, maxAttempts: int)
    requires InFlight(s, fl, maxAttempts) && fl.done < |Script(s, fl, maxAttempts)| &&
      Script(s, fl, maxAttempts)[fl.done] == x
    ensures InFlight(Perform(s, fl.offset, x), fl.(done := fl.done + 1), maxAttempts)
  {
    hide Trace;
    var s', script := Perform(s, fl.offset, x), Script(s, fl, maxAttempts);
    PerformGrows(s, fl.offset, x);
    HappenedStays(s, s', fl.offset, script[..fl.done]);
    assert s'.topic[fl.offset] == s.topic[fl.offset];
    assert script[..fl.done + 1] == script[..fl.done] + [x];
  }

  /** A growing system keeps the invariant if what is new in it keeps its promise. */
  lemma GrowthKeepsInvariant(s: System, s': System, maxAttempts: int)
    requires Invariant(s, maxAttempts) && Grows(s, s')
    requires forall w :: w in s'.flights ==>
      (w in s.flights && s'.flights[w] == s.flights[w]) || InFlight(s', s'.flights[w], maxAttempts)
    requires forall o :: o in s'.committed ==> o in s.committed || CoveredAt(s, o, maxAttempts)
    requires forall en :: en in s'.log && ReportsValues(en.effect) ==> en in s.log || ResultStored(s, en.offset)
    requires forall en :: en in s'.log ==> en in s.log || BackedAt(s, en.offset, en.effect)
    ensures Invariant(s', maxAttempts)
  {
    forall en | en in s'.log
      ensures BackedAt(s', en.offset, en.effect)
    {
      BackedStays(s, s', en.offset, en.effect);
    }
    forall w | w in s'.flights
      ensures InFlight(s', s'.flights[w], maxAttempts)
    {
      if !InFlight(s', s'.flights[w], maxAttempts) {
        InFlightStays(s, s', s.flights[w], maxAttempts);
      }
    }
    forall o | o in s'.committed
      ensures CoveredAt(s', o, maxAttempts)
    {
      CoveredStays(s, s', o, maxAttempts);
    }
    forall en | en in s'.log && ReportsValues(en.effect)
      ensures ResultStored(s', en.offset)
    {
      ResultStoredStays(s, s', en.offset);
    }
  }

  lemma AdvanceKeepsInvariant(s: System, w: nat, x: Effect, maxAttempts: int)
    requires Invariant(s, maxAttempts) && w in s.flights && s.flights[w].offset < |s.topic|
    requires s.flights[w].done < |Script(s, s.flights[w], maxAttempts)| &&
      Script(s, s.flights[w], maxAttempts)[s.flights[w].done] == x
    ensures Invariant(Perform(s, s.flights[w].offset,
                            x).(flights := s.flights[w := s.flights[w].(done := s.flights[w].done + 1)]), maxAttempts)
  {
    hide Trace, CoveredAt, ResultStored, BackedAt;
    var fl := s.flights[w];
    var performed, next := Perform(s, fl.offset, x), fl.(done := fl.done + 1);
    var s' := performed.(flights := s.flights[w := next]);
    AdvanceIsJustified(s, fl, x, maxAttempts);
    PerformGrows(s, fl.offset, x);
    FlightAdvances(s, fl, x, maxAttempts);
    assert Grows(performed, s');
    InFlightStays(performed, s', next, maxAttempts);
    forall en | en in s'.log && ReportsValues(en.effect)
      ensures en in s.log || ResultStored(s, en.offset)
    {
      assert en in s.log || en == Entry(fl.offset, x);
    }
    forall en | en in s'.log
      ensures en in s.log || BackedAt(s, en.offset, en.effect)
    {
      assert en in s.log || en == Entry(fl.offset, x);
    }
    GrowthKeepsInvariant(s, s', maxAttempts);
  }

  lemma PlayKeepsInvariant(s: System, move: Move, maxAttempts: int)
    requires Invariant(s, maxAttempts)
    ensures Invariant(Play(s, move, maxAttempts), maxAttempts)
  {
    match move {
      case Produce(message) => GrowthKeepsInvariant(s, Play(s, move, maxAttempts), maxAttempts);
      case Deliver(w, offset, f, outcomes) =>
        if offset < |s.topic| {
          var s' := Play(s, move, maxAttempts);
          assert Script(s', s'.flights[w], maxAttempts)[..0] == [];
          GrowthKeepsInvariant(s, s', maxAttempts);
        }
      case Advance(w) =>
        if w in s.flights && s.flights[w].offset < |s.topic| &&
          s.flights[w].done < |Script(s, s.flights[w], maxAttempts)| {
          AdvanceKeepsInvariant(s, w, Script(s, s.flights[w], maxAttempts)[s.flights[w].done], maxAttempts);
        }
      case Crash(w) => GrowthKeepsInvariant(s, Play(s, move, maxAttempts), maxAttempts);
    }
  }

  lemma {:induction false} RunKeepsInvariant(moves: seq<Move>, maxAttempts: int)
    ensures Invariant(Run(moves, maxAttempts), maxAttempts)
  {
    if moves != [] {
      RunKeepsInvariant(moves[..|moves| - 1], maxAttempts);
      PlayKeepsInvariant(Run(moves[..|moves| - 1], maxAttempts), moves[|moves| - 1], maxAttempts);
    }
  }

  // ---------------------------------------------------------------------------------------
  // Nothing is lost
  // ---------------------------------------------------------------------------------------

  /** Message `o` has its full effects, a deadline completion, or a dead letter with its bytes. */
  ghost predicate SettledAt(s: System, o: nat) {
    o < |s.topic| && exists done :: Settles(s.topic[o], done) && AllHappened(s, o, done)
  }

  /** Message `p` carries message `o` on: a chain of bounded retry copies leads from one to the other. */
  ghost predicate Carries(s: System, o: nat, p: nat, chain: seq<Request>, maxAttempts: int) {
    o < |s.topic| && p < |s.topic| && RetryChain(chain, maxAttempts) && chain[0] == s.topic[o] &&
      chain[|chain| - 1] == s.topic[p]
  }

  /** In every run, whatever was produced is still waiting for delivery or settled, possibly as a
      retry copy of itself; and the copies end, because their attempts stay below the limit. */
  lemma {:induction false} NotLost(s: System, o: nat, maxAttempts: int) returns (p: nat, chain: seq<Request>)
    requires Invariant(s, maxAttempts) && o < |s.topic|
    ensures Carries(s, o, p, chain, maxAttempts) && (p !in s.committed || SettledAt(s, p))
    decreases Max(0, maxAttempts - GetAttempt(s.topic[o].headers))
  {
    p, chain := o, [s.topic[o]];
    if o in s.committed && !SettledAt(s, o) {
      assert CoveredAt(s, o, maxAttempts);
      var done :| Covers(s.topic[o], maxAttempts, done) && AllHappened(s, o, done);
      var copy := RetryCopy(s.topic[o]);
      var k :| 0 <= k < |done| && done[k] == Republished(copy);
      assert Happened(s, o, done[k]);
      var o' :| 0 <= o' < |s.topic| && s.topic[o'] == copy;
      var rest;
      p, rest := NotLost(s, o', maxAttempts);
      ChainGrows(s.topic[o], rest, maxAttempts);
      chain := [s.topic[o]] + rest;
    }
  }

  /** Once every offset is committed, every event ever produced is settled. */
  lemma DrainedIsSettled(moves: seq<Move>, maxAttempts: int, o: nat) returns (p: nat)
    requires o < |Run(moves, maxAttempts).topic|
    requires forall q :: 0 <= q < |Run(moves, maxAttempts).topic| ==> q in Run(moves, maxAttempts).committed
    ensures SettledAt(Run(moves, maxAttempts), p)
    ensures Run(moves, maxAttempts).topic[p].body == Run(moves, maxAttempts).topic[o].body
  {
    var s := Run(moves, maxAttempts);
    RunKeepsInvariant(moves, maxAttempts);
    var chain;
    p, chain := NotLost(s, o, maxAttempts);
    ChainsAreShort(chain, maxAttempts);
  }

  /** History never leads the online store: whatever has been sent to history is, now and ever
      after, at most as fresh as the latest value. */
  lemma HistoryNeverLeads(moves: seq<Move>, maxAttempts: int, o: nat, e: Event, results: seq<FeatureResult>,
                          r: FeatureResult)
    requires Entry(o, PublishedOffline(e, results)) in Run(moves, maxAttempts).log && r in results
    ensures AtLeast(Run(moves, maxAttempts).latest, e.view, r)
  {
    RunKeepsInvariant(moves, maxAttempts);
    SentToHistoryIsServed(Run(moves, maxAttempts), maxAttempts, o, e, results, r);
  }

  lemma SentToHistoryIsServed(s: System, maxAttempts: int, o: nat, e: Event, results: seq<FeatureResult>,
                              r: FeatureResult)
    requires Invariant(s, maxAttempts) && Entry(o, PublishedOffline(e, results)) in s.log && r in results
    ensures AtLeast(s.latest, e.view, r)
  {
    assert BackedAt(s, o, PublishedOffline(e, results));
    var done :| Backed(PublishedOffline(e, results), done) && AllHappened(s, o, done);
    DoneHappened(s, o, done, WroteOnline(e.view, r));
  }

  /** Nothing is reported complete before its values are on their way to history. */
  lemma ReportedIsInHistory(moves: seq<Move>, maxAttempts: int, o: nat, e: Event, completion: Completion)
    requires Entry(o, PublishedCompletion(e, completion)) in Run(moves, maxAttempts).log && completion.Finished?
    ensures exists results :: Entry(o, PublishedOffline(e, results)) in Run(moves, maxAttempts).log
  {
    RunKeepsInvariant(moves, maxAttempts);
    ReportedIsSent(Run(moves, maxAttempts), maxAttempts, o, e, completion);
  }

  lemma ReportedIsSent(s: System, maxAttempts: int, o: nat, e: Event, completion: Completion)
    requires Invariant(s, maxAttempts) && Entry(o, PublishedCompletion(e, completion)) in s.log && completion.Finished?
    ensures exists results :: Entry(o, PublishedOffline(e, results)) in s.log
  {
    var x := PublishedCompletion(e, completion);
    assert BackedAt(s, o, x);
    var done :| Backed(x, done) && AllHappened(s, o, done);
    var results :| PublishedOffline(e, results) in done;
    DoneHappened(s, o, done, PublishedOffline(e, results));
  }

  /** If a request is reported complete with values, its request-scoped result can be read. */
  lemma CompletedIsReadable(moves: seq<Move>, maxAttempts: int, en: Entry)
    requires en in Run(moves, maxAttempts).log && ReportsValues(en.effect)
    ensures ResultStored(Run(moves, maxAttempts), en.offset)
  {
    RunKeepsInvariant(moves, maxAttempts);
  }

  /** An effect by which a request ends other than by being served. */
  predicate Diverts(x: Effect) {
    x.Republished? || x.DeadLettered? || (x.PublishedCompletion? && x.completion.DeadlineExpired?)
  }

  /** A committed request that was neither late, nor dead-lettered, nor retried is served at least
      as fresh as it was computed, now and ever after. */
  lemma ServedIsFresh(moves: seq<Move>, maxAttempts: int, o: nat) returns (results: seq<FeatureResult>)
    requires var s := Run(moves, maxAttempts); o in s.committed && o < |s.topic| && s.topic[o].body.Json?
    requires var s := Run(moves, maxAttempts);
      forall en :: en in s.log && en.offset == o ==> !Diverts(en.effect)
    ensures var s := Run(moves, maxAttempts);
      Entry(o, StoredResult(s.topic[o].body.event, results)) in s.log &&
        Entry(o, PublishedOffline(s.topic[o].body.event, results)) in s.log
      && forall r :: r in results ==> AtLeast(s.latest, s.topic[o].body.event.view, r)
  {
    RunKeepsInvariant(moves, maxAttempts);
    var s := Run(moves, maxAttempts);
    assert CoveredAt(s, o, maxAttempts);
    results := CommitServes(s, o, maxAttempts);
  }

  lemma DoneHappened(s: System, o: nat, done: seq<Effect>, x: Effect)
    requires AllHappened(s, o, done) && x in done
    ensures Happened(s, o, x)
  {
    var k :| 0 <= k < |done| && done[k] == x;
    assert Happened(s, o, done[k]);
  }

  lemma CommitServes(s: System, o: nat, maxAttempts: int) returns (results: seq<FeatureResult>)
    requires CoveredAt(s, o, maxAttempts) && s.topic[o].body.Json?
    requires forall en :: en in s.log && en.offset == o ==> !Diverts(en.effect)
    ensures Entry(o, StoredResult(s.topic[o].body.event, results)) in s.log &&
      Entry(o, PublishedOffline(s.topic[o].body.event, results)) in s.log
    ensures forall r :: r in results ==> AtLeast(s.latest, s.topic[o].body.event.view, r)
  {
    var m := s.topic[o];
    var done :| Covers(m, maxAttempts, done) && AllHappened(s, o, done);
    forall x | x in done
      ensures Happened(s, o, x)
    {
      DoneHappened(s, o, done, x);
    }
    var completion;
    results, completion :| Served(m.body.event, done, results, completion);
    forall r | r in results
      ensures AtLeast(s.latest, m.body.event.view, r)
    {
      assert Happened(s, o, WroteOnline(m.body.event.view, r));
    }
  }

  lemma RunSnoc(moves: seq<Move>, move: Move, maxAttempts: int)
    ensures Run(moves + [move], maxAttempts) == Play(Run(moves, maxAttempts), move, maxAttempts)
  {
    assert (moves + [move])[..|moves|] == moves;
  }
}
