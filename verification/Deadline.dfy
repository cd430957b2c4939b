/** What a missed deadline says and does not say: when values of a request are written at all, in one
    delivery and in whole runs. */
module Deadline {
  import opened Domain
  import opened Dlq
  import opened WriteGuard
  import opened OnlineWorker
  import opened OnlineDelivery

  predicate WritesValue(x: Effect) { x.WroteOnline? || x.PublishedOffline? || x.StoredResult? }

  /** The delivery starts before the deadline, has values, and at least one of them gets out. */
  predicate OnTime(m: Request, f: Environment) {
    && m.body.Json? && !PastDeadline(m.body.event, f.now) && f.computation.Computed?
    && (Reached(f, f.computation.results) != [] || (f.onlineFailsAfter.None? && !f.offline.Lost?))
  }

  // ---------------------------------------------------------------------------------------
  // One delivery
  // ---------------------------------------------------------------------------------------

  lemma PartsOfTrace(m: Request, e: Event, maxAttempts: int, f: Environment, outcomes: Outcomes, x: Effect)
    requires m.body == Json(e)
    ensures x in HandlerTrace(e, f, outcomes) || x in ConclusionTrace(m, e, maxAttempts, f, outcomes)
      ==> x in Trace(m, maxAttempts, f, outcomes)
    ensures x in Trace(m, maxAttempts, f, outcomes)
      ==> x.SetStatus? || x in HandlerTrace(e, f, outcomes) || x in ConclusionTrace(m, e, maxAttempts, f, outcomes)
  {
    var status, handled := StatusUpdate(f, e, Running), HandlerTrace(e, f, outcomes);
    var conclusion := ConclusionTrace(m, e, maxAttempts, f, outcomes);
    assert Trace(m, maxAttempts, f, outcomes) == status + handled + conclusion;
    assert x in status ==> x.SetStatus?;
    hide StatusUpdate, HandlerTrace, ConclusionTrace;
    assert x in status + handled + conclusion <==> x in status || x in handled || x in conclusion;
  }

  lemma HandlerWrites(e: Event, f: Environment, outcomes: Outcomes) returns (x: Effect)
    requires OnTime(Message(Json(e), map[]), f)
    ensures x in HandlerTrace(e, f, outcomes) && WritesValue(x)
  {
    var results := f.computation.results;
    var writes := OnlineWrites(e.view, Reached(f, results));
    if writes != [] {
      x := writes[0];
      assert HandlerTrace(e, f, outcomes)[0] == x;
    } else {
      x := PublishedOffline(e, results);
      assert HandlerTrace(e, f, outcomes)[0] == x;
    }
  }

  lemma HandlerWritesOnTime(e: Event, f: Environment, outcomes: Outcomes, x: Effect)
    requires x in HandlerTrace(e, f, outcomes) && WritesValue(x)
    ensures OnTime(Message(Json(e), map[]), f)
  {
    OnlineWritesAreAll(e.view, if f.computation.Computed? then Reached(f, f.computation.results) else []);
  }

  lemma ConclusionWritesOnTime(m: Request, e: Event, maxAttempts: int, f: Environment, outcomes: Outcomes, x: Effect)
    requires m.body == Json(e) && x in ConclusionTrace(m, e, maxAttempts, f, outcomes) && WritesValue(x)
    ensures OnTime(m, f)
  {
    ConclusionPublishesNoCompletion(m, e, maxAttempts, f, outcomes, x);
  }

  /** A complete delivery writes a value somewhere exactly if it is on time. */
  lemma DeliveryWritesIff(m: Request, maxAttempts: int, f: Environment, outcomes: Outcomes)
    ensures (exists x :: x in Trace(m, maxAttempts, f, outcomes) && WritesValue(x)) <==> OnTime(m, f)
  {
    if m.body.Json? {
      var e := m.body.event;
      if OnTime(m, f) {
        var x := HandlerWrites(e, f, outcomes);
        PartsOfTrace(m, e, maxAttempts, f, outcomes, x);
      }
      forall x | x in Trace(m, maxAttempts, f, outcomes) && WritesValue(x)
        ensures OnTime(m, f)
      {
        TraceWritesOnTime(m, e, maxAttempts, f, outcomes, x);
      }
    }
  }

  lemma TraceWritesOnTime(m: Request, e: Event, maxAttempts: int, f: Environment, outcomes: Outcomes, x: Effect)
    requires m.body == Json(e) && x in Trace(m, maxAttempts, f, outcomes) && WritesValue(x)
    ensures OnTime(m, f)
  {
    PartsOfTrace(m, e, maxAttempts, f, outcomes, x);
    if x in HandlerTrace(e, f, outcomes) {
      HandlerWritesOnTime(e, f, outcomes, x);
    } else {
      ConclusionWritesOnTime(m, e, maxAttempts, f, outcomes, x);
    }
  }

  /** A delivery that reports a missed deadline has itself written no value anywhere. */
  lemma LateDeliveryWritesNothing(m: Request, maxAttempts: int, f: Environment, outcomes: Outcomes, late: Effect,
                                  x: Effect)
    requires late in Trace(m, maxAttempts, f, outcomes) && late.PublishedCompletion? && late.completion.DeadlineExpired?
    requires x in Trace(m, maxAttempts, f, outcomes)
    ensures !WritesValue(x)
  {
    if m.body.Json? {
      LateIsPastDeadline(m, m.body.event, maxAttempts, f, outcomes, late);
    }
    DeliveryWritesIff(m, maxAttempts, f, outcomes);
  }

  lemma LateIsPastDeadline(m: Request, e: Event, maxAttempts: int, f: Environment, outcomes: Outcomes, late: Effect)
    requires m.body == Json(e) && late in Trace(m, maxAttempts, f, outcomes)
    requires late.PublishedCompletion? && late.completion.DeadlineExpired?
    ensures PastDeadline(e, f.now)
  {
    PartsOfTrace(m, e, maxAttempts, f, outcomes, late);
    if late in ConclusionTrace(m, e, maxAttempts, f, outcomes) {
      ConclusionPublishesNoCompletion(m, e, maxAttempts, f, outcomes, late);
    }
  }

  // ---------------------------------------------------------------------------------------
  // Any run
  // ---------------------------------------------------------------------------------------

  ghost predicate Delivered(moves: seq<Move>, o: nat, f: Environment, outcomes: Outcomes) {
    exists w :: Deliver(w, o, f, outcomes) in moves
  }

  /** An effect was logged because a delivery of its message has it in its trace. */
  ghost predicate Explained(moves: seq<Move>, s: System, en: Entry, maxAttempts: int) {
    && en.offset < |s.topic|
    && exists f, outcomes ::
         Delivered(moves, en.offset, f, outcomes) && en.effect in Trace(s.topic[en.offset], maxAttempts, f, outcomes)
  }

  ghost predicate Launched(moves: seq<Move>, s: System, fl: Flight) {
    fl.offset < |s.topic| && Delivered(moves, fl.offset, fl.f, fl.outcomes)
  }

  ghost predicate AllExplained(moves: seq<Move>, s: System, maxAttempts: int) {
    && (forall w :: w in s.flights ==> Launched(moves, s, s.flights[w]))
    && forall en :: en in s.log ==> Explained(moves, s, en, maxAttempts)
  }

  lemma DeliveredStays(moves: seq<Move>, move: Move, o: nat, f: Environment, outcomes: Outcomes)
    requires Delivered(moves, o, f, outcomes)
    ensures Delivered(moves + [move], o, f, outcomes)
  {
    var w :| Deliver(w, o, f, outcomes) in moves;
    assert Deliver(w, o, f, outcomes) in moves + [move];
  }

  lemma ExplainedStays(moves: seq<Move>, s: System, move: Move, s': System, en: Entry, maxAttempts: int)
    requires Explained(moves, s, en, maxAttempts) && s.topic <= s'.topic
    ensures Explained(moves + [move], s', en, maxAttempts)
  {
    var f, outcomes :|
      Delivered(moves, en.offset, f, outcomes) && en.effect in Trace(s.topic[en.offset], maxAttempts, f, outcomes);
    DeliveredStays(moves, move, en.offset, f, outcomes);
    assert s'.topic[en.offset] == s.topic[en.offset];
  }

  lemma LaunchedStays(moves: seq<Move>, s: System, move: Move, s': System, fl: Flight, fl': Flight)
    requires Launched(moves, s, fl) && s.topic <= s'.topic
    requires fl'.offset == fl.offset && fl'.f == fl.f && fl'.outcomes == fl.outcomes
    ensures Launched(moves + [move], s', fl')
  {
    DeliveredStays(moves, move, fl.offset, fl.f, fl.outcomes);
  }

  lemma GrowthStaysExplained(moves: seq<Move>, s: System, move: Move, s': System, maxAttempts: int)
    requires AllExplained(moves, s, maxAttempts) && s.topic <= s'.topic
    requires forall w :: w in s'.flights ==>
      (w in s.flights && s'.flights[w] == s.flights[w]) || Launched(moves + [move], s', s'.flights[w])
    requires forall en :: en in s'.log ==> en in s.log || Explained(moves + [move], s', en, maxAttempts)
    ensures AllExplained(moves + [move], s', maxAttempts)
  {
    forall w | w in s'.flights
      ensures Launched(moves + [move], s', s'.flights[w])
    {
      if w in s.flights && s'.flights[w] == s.flights[w] {
        LaunchedStays(moves, s, move, s', s.flights[w], s'.flights[w]);
      }
    }
    forall en | en in s'.log
      ensures Explained(moves + [move], s', en, maxAttempts)
    {
      if en in s.log {
        ExplainedStays(moves, s, move, s', en, maxAttempts);
      }
    }
  }

  lemma PlayStaysExplained(moves: seq<Move>, s: System, move: Move, maxAttempts: int)
    requires AllExplained(moves, s, maxAttempts)
    ensures AllExplained(moves + [move], Play(s, move, maxAttempts), maxAttempts)
  {
    var s' := Play(s, move, maxAttempts);
    match move {
      case Produce(_) => GrowthStaysExplained(moves, s, move, s', maxAttempts);
      case Deliver(w, o, f, outcomes) =>
        assert move in moves + [move];
        GrowthStaysExplained(moves, s, move, s', maxAttempts);
      case Crash(_) => GrowthStaysExplained(moves, s, move, s', maxAttempts);
      case Advance(w) =>
        if w in s.flights && s.flights[w].offset < |s.topic| &&
          s.flights[w].done < |Script(s, s.flights[w], maxAttempts)| {
          var fl := s.flights[w];
          AdvanceStaysExplained(moves, s, w, Script(s, fl, maxAttempts)[fl.done], maxAttempts);
        } else {
          GrowthStaysExplained(moves, s, move, s', maxAttempts);
        }
    }
  }

  lemma AdvanceStaysExplained(moves: seq<Move>, s: System, w: nat, x: Effect, maxAttempts: int)
    requires AllExplained(moves, s, maxAttempts) && w in s.flights && s.flights[w].offset < |s.topic|
    requires s.flights[w].done < |Script(s, s.flights[w], maxAttempts)|
    requires Script(s, s.flights[w], maxAttempts)[s.flights[w].done] == x
    ensures AllExplained(moves + [Advance(w)], Play(s, Advance(w), maxAttempts), maxAttempts)
  {
    var fl, s' := s.flights[w], Play(s, Advance(w), maxAttempts);
    assert Launched(moves, s, fl);
    DeliveredStays(moves, Advance(w), fl.offset, fl.f, fl.outcomes);
    assert s'.topic[fl.offset] == s.topic[fl.offset];
    assert x in Script(s, fl, maxAttempts);
    assert s'.log == s.log + [Entry(fl.offset, x)];
    hide Trace;
    LaunchedStays(moves, s, Advance(w), s', fl, s'.flights[w]);
    assert Explained(moves + [Advance(w)], s', Entry(fl.offset, x), maxAttempts);
    GrowthStaysExplained(moves, s, Advance(w), s', maxAttempts);
  }

  lemma {:induction false} RunIsExplained(moves: seq<Move>, maxAttempts: int)
    ensures AllExplained(moves, Run(moves, maxAttempts), maxAttempts)
  {
    if moves != [] {
      var front, last := moves[..|moves| - 1], moves[|moves| - 1];
      RunIsExplained(front, maxAttempts);
      PlayStaysExplained(front, Run(front, maxAttempts), last, maxAttempts);
      assert moves == front + [last];
    }
  }

  /** In every run, interrupted and interleaved as it may be, a value of a message was written only
      if some delivery of the message was on time. */
  lemma ValuesNeedAnOnTimeDelivery(moves: seq<Move>, maxAttempts: int, en: Entry)
    requires en in Run(moves, maxAttempts).log && WritesValue(en.effect)
    ensures en.offset < |Run(moves, maxAttempts).topic|
    ensures exists f, outcomes ::
      Delivered(moves, en.offset, f, outcomes) && OnTime(Run(moves, maxAttempts).topic[en.offset], f)
  {
    var s := Run(moves, maxAttempts);
    RunIsExplained(moves, maxAttempts);
    assert Explained(moves, s, en, maxAttempts);
    var f, outcomes :|
      Delivered(moves, en.offset, f, outcomes) && en.effect in Trace(s.topic[en.offset], maxAttempts, f, outcomes);
    DeliveryWritesIff(s.topic[en.offset], maxAttempts, f, outcomes);
  }

  // ---------------------------------------------------------------------------------------
  // Runs of complete deliveries
  // ---------------------------------------------------------------------------------------

  datatype Delivery = Delivery(worker: nat, offset: nat, f: Environment, outcomes: Outcomes)

  function Advances(w: nat, n: nat): seq<Move> { seq(n, _ => Advance(w)) }

  function Entries(o: nat, script: seq<Effect>): seq<Entry> {
    seq(|script|, i requires 0 <= i < |script| => Entry(o, script[i]))
  }

  function TraceOf(topic: seq<Request>, d: Delivery, maxAttempts: int): seq<Effect>
    requires d.offset < |topic|
  {
    Trace(topic[d.offset], maxAttempts, d.f, d.outcomes)
  }

  /** One delivery without interruption. */
  function Complete(topic: seq<Request>, d: Delivery, maxAttempts: int): seq<Move>
    requires d.offset < |topic|
  {
    [Deliver(d.worker, d.offset, d.f, d.outcomes)] + Advances(d.worker, |TraceOf(topic, d, maxAttempts)|)
  }

  /** The delivery is in the air and its first `n` effects have been performed since `s`. */
  ghost predicate Flying(s: System, s': System, d: Delivery, n: nat, script: seq<Effect>) {
    && n <= |script| && s.topic <= s'.topic
    && d.worker in s'.flights && s'.flights[d.worker] == Flight(d.offset, d.f, d.outcomes, n)
    && s'.log == s.log + Entries(d.offset, script[..n])
    && (Committed in script[..n] ==> d.offset in s'.committed)
  }

  lemma FliesOn(s: System, s': System, d: Delivery, n: nat, script: seq<Effect>, maxAttempts: int)
    requires d.offset < |s.topic| && script == TraceOf(s.topic, d, maxAttempts)
    requires n < |script| && Flying(s, s', d, n, script)
    ensures Flying(s, Play(s', Advance(d.worker), maxAttempts), d, n + 1, script)
  {
    hide Trace, Play;
    assert s'.topic[d.offset] == s.topic[d.offset];
    AdvancePerforms(s', d.worker, script[n], maxAttempts);
    assert script[..n + 1] == script[..n] + [script[n]];
    assert Committed in script[..n + 1] ==> Committed in script[..n] || script[n] == Committed;
    assert Entries(d.offset, script[..n + 1]) == Entries(d.offset, script[..n]) + [Entry(d.offset, script[n])];
  }

  lemma AdvancePerforms(s: System, w: nat, x: Effect, maxAttempts: int)
    requires w in s.flights && s.flights[w].offset < |s.topic|
    requires s.flights[w].done < |Script(s, s.flights[w], maxAttempts)|
    requires Script(s, s.flights[w], maxAttempts)[s.flights[w].done] == x
    ensures var s', fl := Play(s, Advance(w), maxAttempts), s.flights[w];
      && s'.log == s.log + [Entry(fl.offset, x)] && s.topic <= s'.topic && s.committed <= s'.committed
      && (x.Committed? ==> fl.offset in s'.committed)
      && w in s'.flights && s'.flights[w] == fl.(done := fl.done + 1)
  {
  }

  lemma {:induction false} FliesThrough(moves: seq<Move>, d: Delivery, n: nat, maxAttempts: int)
    requires d.offset < |Run(moves, maxAttempts).topic| && n <= |TraceOf(Run(moves, maxAttempts).topic, d, maxAttempts)|
    ensures var s := Run(moves, maxAttempts);
      Flying(s, Run(moves + [Deliver(d.worker, d.offset, d.f, d.outcomes)] + Advances(d.worker, n), maxAttempts), d, n,
             TraceOf(s.topic, d, maxAttempts))
  {
    hide Trace, Flying, Run, Play;
    var s, start := Run(moves, maxAttempts), Deliver(d.worker, d.offset, d.f, d.outcomes);
    var script := TraceOf(s.topic, d, maxAttempts);
    if n == 0 {
      RunSnoc(moves, start, maxAttempts);
      assert moves + [start] + Advances(d.worker, 0) == moves + [start];
      TakesOff(s, d, script, maxAttempts);
    } else {
      FliesThrough(moves, d, n - 1, maxAttempts);
      var before := moves + [start] + Advances(d.worker, n - 1);
      assert moves + [start] + Advances(d.worker, n) == before + [Advance(d.worker)];
      RunSnoc(before, Advance(d.worker), maxAttempts);
      FliesOn(s, Run(before, maxAttempts), d, n - 1, script, maxAttempts);
    }
  }

  lemma TakesOff(s: System, d: Delivery, script: seq<Effect>, maxAttempts: int)
    requires d.offset < |s.topic|
    ensures Flying(s, Play(s, Deliver(d.worker, d.offset, d.f, d.outcomes), maxAttempts), d, 0, script)
  {
    assert script[..0] == [] && s.log + Entries(d.offset, []) == s.log;
  }

  /** A complete delivery logs exactly its trace. */
  lemma CompleteLogsTrace(moves: seq<Move>, d: Delivery, maxAttempts: int)
    requires d.offset < |Run(moves, maxAttempts).topic|
    ensures var s := Run(moves, maxAttempts); var s' := Run(moves + Complete(s.topic, d, maxAttempts), maxAttempts);
      var trace := TraceOf(s.topic, d, maxAttempts);
      && s'.log == s.log + Entries(d.offset, trace) && s.topic <= s'.topic
      && (Committed in trace ==> d.offset in s'.committed)
  {
    var topic := Run(moves, maxAttempts).topic;
    var trace, start := TraceOf(topic, d, maxAttempts), Deliver(d.worker, d.offset, d.f, d.outcomes);
    FliesThrough(moves, d, |trace|, maxAttempts);
    hide Trace;
    assert moves + Complete(topic, d, maxAttempts) == moves + [start] + Advances(d.worker, |trace|);
    assert trace[..|trace|] == trace;
  }

  ghost predicate ValueLogged(log: seq<Entry>, o: nat) {
    exists en :: en in log && en.offset == o && WritesValue(en.effect)
  }

  function CompleteAll(topic: seq<Request>, ds: seq<Delivery>, maxAttempts: int): seq<Move>
    requires forall d :: d in ds ==> d.offset < |topic|
  {
    if ds == [] then []
    else CompleteAll(topic, ds[..|ds| - 1], maxAttempts) + Complete(topic, ds[|ds| - 1], maxAttempts)
  }

  ghost predicate SomeOnTime(topic: seq<Request>, ds: seq<Delivery>, o: nat)
    requires o < |topic|
  {
    exists d :: d in ds && d.offset == o && OnTime(topic[o], d.f)
  }

  lemma SomeOnTimeSnoc(topic: seq<Request>, front: seq<Delivery>, d: Delivery, o: nat)
    requires o < |topic|
    ensures SomeOnTime(topic, front + [d], o) <==>
      SomeOnTime(topic, front, o) || (d.offset == o && OnTime(topic[o], d.f))
  {
    hide OnTime;
    assert forall e :: e in front + [d] <==> e in front || e == d;
  }

  /** The effect of one more complete delivery, planned when the topic was shorter. */
  lemma OneMoreDelivery(before: seq<Move>, topic: seq<Request>, d: Delivery, maxAttempts: int, o: nat)
    requires topic <= Run(before, maxAttempts).topic && d.offset < |topic|
    ensures var s, s' := Run(before, maxAttempts), Run(before + Complete(topic, d, maxAttempts), maxAttempts);
      && topic <= s'.topic
      && (ValueLogged(s'.log, o) <==> ValueLogged(s.log, o) || (d.offset == o && OnTime(topic[d.offset], d.f)))
  {
    var s := Run(before, maxAttempts);
    assert s.topic[d.offset] == topic[d.offset];
    CompleteLogsTrace(before, d, maxAttempts);
    EntriesWriteIff(s.log, s.topic, d, maxAttempts, o);
  }

  lemma {:induction false} CompleteDeliveriesWriteIff(moves: seq<Move>, ds: seq<Delivery>, maxAttempts: int, o: nat)
    requires var topic := Run(moves, maxAttempts).topic;
      o < |topic| && forall d :: d in ds ==> d.offset < |topic|
    ensures var s := Run(moves, maxAttempts); var s' := Run(moves + CompleteAll(s.topic, ds, maxAttempts), maxAttempts);
      && s.topic <= s'.topic
      && (ValueLogged(s'.log, o) <==> ValueLogged(s.log, o) || SomeOnTime(s.topic, ds, o))
  {
    hide OnTime, ValueLogged, Run, Complete;
    var topic := Run(moves, maxAttempts).topic;
    if ds == [] {
      assert moves + CompleteAll(topic, ds, maxAttempts) == moves;
    } else {
      var front, d := ds[..|ds| - 1], ds[|ds| - 1];
      assert ds == front + [d];
      CompleteDeliveriesWriteIff(moves, front, maxAttempts, o);
      var before := moves + CompleteAll(topic, front, maxAttempts);
      assert moves + CompleteAll(topic, ds, maxAttempts) == before + Complete(topic, d, maxAttempts);
      OneMoreDelivery(before, topic, d, maxAttempts, o);
      SomeOnTimeSnoc(topic, front, d, o);
    }
  }

  lemma EntriesWriteIff(log: seq<Entry>, topic: seq<Request>, d: Delivery, maxAttempts: int, o: nat)
    requires d.offset < |topic|
    ensures ValueLogged(log + Entries(d.offset, TraceOf(topic, d, maxAttempts)), o) <==>
      ValueLogged(log, o) || (d.offset == o && OnTime(topic[d.offset], d.f))
  {
    var trace := TraceOf(topic, d, maxAttempts);
    var entries := Entries(d.offset, trace);
    DeliveryWritesIff(topic[d.offset], maxAttempts, d.f, d.outcomes);
    hide Trace, OnTime;
    if x :| x in trace && WritesValue(x) {
      var i :| 0 <= i < |trace| && trace[i] == x;
      assert entries[i] == Entry(d.offset, x);
      assert Entry(d.offset, x) in log + entries;
    }
    forall en | en in entries && WritesValue(en.effect)
      ensures en.offset == d.offset && en.effect in trace
    {
    }
  }

  /** In a run of complete deliveries of produced messages, values of a message are written if and
      only if one of its deliveries was on time; so a late completion excludes values exactly if
      every delivery of the message was late, or had nothing to write. */
  lemma ValuesAreWrittenIff(messages: seq<Request>, ds: seq<Delivery>, maxAttempts: int, o: nat)
    requires o < |messages| && forall d :: d in ds ==> d.offset < |messages|
    ensures var produced := seq(|messages|, i requires 0 <= i < |messages| => Produce(messages[i]));
      var s := Run(produced + CompleteAll(messages, ds, maxAttempts), maxAttempts);
      ValueLogged(s.log, o) <==> SomeOnTime(messages, ds, o)
  {
    var produced := seq(|messages|, i requires 0 <= i < |messages| => Produce(messages[i]));
    ProducedTopic(messages, maxAttempts);
    CompleteDeliveriesWriteIff(produced, ds, maxAttempts, o);
  }

  lemma {:induction false} ProducedTopic(messages: seq<Request>, maxAttempts: int)
    ensures var produced := seq(|messages|, i requires 0 <= i < |messages| => Produce(messages[i]));
      Run(produced, maxAttempts) == EMPTY.(topic := messages)
  {
    var produced := seq(|messages|, i requires 0 <= i < |messages| => Produce(messages[i]));
    if messages != [] {
      var front := messages[..|messages| - 1];
      ProducedTopic(front, maxAttempts);
      assert produced[..|produced| - 1] == seq(|front|, i requires 0 <= i < |front| => Produce(front[i]));
      assert messages == front + [messages[|messages| - 1]];
    }
  }

  function UnluckyDelivery(now: Time, r: FeatureResult): Delivery {
    Delivery(0, 0, Environment(now, Computed([r]), None, Lost, Acked, Acked, Acked, Acked, false), map[])
  }

  lemma UnluckyTraces(e: Event, r: FeatureResult, maxAttempts: int)
    requires e.expiresAt == Some(10)
    ensures var topic := [Message(Json(e), map[])];
      && TraceOf(topic, UnluckyDelivery(0, r), maxAttempts) == [WroteOnline(e.view, r)]
      && TraceOf(topic, UnluckyDelivery(20, r), maxAttempts) == [PublishedCompletion(e, DeadlineExpired), Committed]
  {
  }

  /** A late completion and an earlier value: the online write succeeded, the offline event was lost,
      and by the redelivery the deadline had passed. */
  lemma EarlierDeliveryMayHaveWritten(e: Event, r: FeatureResult, maxAttempts: int) returns (moves: seq<Move>)
    requires e.expiresAt == Some(10)
    ensures var s := Run(moves, maxAttempts);
      && 0 in s.committed && Entry(0, WroteOnline(e.view, r)) in s.log
      && Entry(0, PublishedCompletion(e, DeadlineExpired)) in s.log
  {
    var m, early, late := Message(Json(e), map[]), UnluckyDelivery(0, r), UnluckyDelivery(20, r);
    UnluckyTraces(e, r, maxAttempts);
    ProducedTopic([m], maxAttempts);
    var start := seq(|[m]|, i requires 0 <= i < |[m]| => Produce([m][i]));
    hide Trace, Run, Complete, UnluckyDelivery;
    CompleteLogsTrace(start, early, maxAttempts);
    var middle := start + Complete([m], early, maxAttempts);
    var topic := Run(middle, maxAttempts).topic;
    assert topic[0] == m;
    assert TraceOf(topic, late, maxAttempts) == TraceOf([m], late, maxAttempts);
    CompleteLogsTrace(middle, late, maxAttempts);
    moves := middle + Complete(topic, late, maxAttempts);
    var first, second := Entries(0, [WroteOnline(e.view, r)]),
    Entries(0, [PublishedCompletion(e, DeadlineExpired), Committed]);
    assert first[0] in first && second[0] in second;
  }
}
