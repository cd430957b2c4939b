/** Sequences of calls of the propagation runner (propagation_worker_runner.py): in which of them
    every commit is justified, and in which of them commits pass over unfinished messages. */
module RunnerCalls {
  import opened Domain
  import opened Registry
  import opened Dlq
  import opened Propagation
  import opened Debounce
  import opened PropagationWorker
  import opened PropagationRunner

  const NO_BOOKS := Books([], [], [], [])

  /** The session after `calls`, made by a process that starts on the backend `start`. */
  ghost function Run(cfg: Config, start: WaveState, calls: seq<Call>): Session {
    PlayAll(cfg, Session(NO_BOOKS, [], start), calls)
  }

  lemma RunSnoc(cfg: Config, start: WaveState, before: seq<Call>, call: Call)
    ensures Run(cfg, start, before + [call]) == Play(cfg, Run(cfg, start, before), call)
  {
    PlaySnoc(cfg, Session(NO_BOOKS, [], start), before, call);
  }

  // ---------------------------------------------------------------------------------------
  // What a history of calls says about an update
  // ---------------------------------------------------------------------------------------

  predicate Holds(call: Call) { call.Poll? && call.delivery.message.body.Json? }

  predicate Reads(call: Call, u: Update) { call.Poll? && call.delivery.message.body == Json(u) }

  /** The debounce store is emptied, whatever becomes of the wave. */
  predicate Drains(call: Call) { call.Flush? || call.NewStore? }

  ghost predicate Completed(cfg: Config, start: WaveState, calls: seq<Call>, n: nat) {
    n < |calls| && calls[n].Flush? && WaveCompletes(cfg, Run(cfg, start, calls[..n]), calls[n].outage)
  }

  /** The update was polled and the debounce store has not been drained since. */
  ghost predicate IsWaiting(calls: seq<Call>, u: Update) {
    exists p :: 0 <= p < |calls| && Reads(calls[p], u) && forall k :: p < k < |calls| ==> !Drains(calls[k])
  }

  /** Some completed wave took the update along. */
  ghost predicate IsRecomputed(cfg: Config, start: WaveState, calls: seq<Call>, u: Update) {
    exists f :: 0 <= f < |calls| && Completed(cfg, start, calls, f) && IsWaiting(calls[..f], u)
  }

  /** The message of poll `p` is held back: no completed wave and no new batch since. */
  ghost predicate IsHeld(cfg: Config, start: WaveState, calls: seq<Call>, p: nat) {
    && p < |calls| && Holds(calls[p])
    && forall k :: p < k < |calls| ==> !calls[k].NewBatch? && !Completed(cfg, start, calls, k)
  }

  /** Call `n` is a flush that completes although the dependents of a held message are neither in the
      debounce store nor covered by an earlier wave: the store was drained since they were polled. */
  ghost predicate LosesWork(cfg: Config, start: WaveState, calls: seq<Call>, n: nat) {
    && Completed(cfg, start, calls, n)
    && exists p: nat, u :: IsHeld(cfg, start, calls[..n], p) && Reads(calls[..n][p], u) &&
         Wave(cfg.views, u) != [] && !IsWaiting(calls[..n], u) && !IsRecomputed(cfg, start, calls[..n], u)
  }

  // ---------------------------------------------------------------------------------------
  // One more call
  // ---------------------------------------------------------------------------------------

  lemma CompletedSnoc(cfg: Config, start: WaveState, before: seq<Call>, call: Call, n: nat)
    ensures n < |before| ==> (Completed(cfg, start, before + [call], n) <==> Completed(cfg, start, before, n))
    ensures Completed(cfg, start, before + [call], |before|) <==>
      call.Flush? && WaveCompletes(cfg, Run(cfg, start, before), call.outage)
  {
    if n < |before| {
      assert (before + [call])[..n] == before[..n];
    }
    assert (before + [call])[..|before|] == before;
  }

  lemma WaitingSnoc(before: seq<Call>, call: Call, u: Update)
    ensures IsWaiting(before + [call], u) <==> Reads(call, u) || (!Drains(call) && IsWaiting(before, u))
  {
    var calls, last := before + [call], |before|;
    if Reads(call, u) {
      assert Reads(calls[last], u);
    }
    if !Drains(call) && IsWaiting(before, u) {
      var p :| 0 <= p < last && Reads(before[p], u) && forall k :: p < k < last ==> !Drains(before[k]);
      assert Reads(calls[p], u);
    }
    if IsWaiting(calls, u) && !Reads(call, u) {
      var p :| 0 <= p < |calls| && Reads(calls[p], u) && forall k :: p < k < |calls| ==> !Drains(calls[k]);
      assert !Drains(calls[last]) && Reads(before[p], u);
      assert forall k :: p < k < last ==> before[k] == calls[k];
    }
  }

  lemma RecomputedSnoc(cfg: Config, start: WaveState, before: seq<Call>, call: Call, u: Update)
    ensures IsRecomputed(cfg, start, before + [call], u) <==>
      || IsRecomputed(cfg, start, before, u)
      || (call.Flush? && WaveCompletes(cfg, Run(cfg, start, before), call.outage) && IsWaiting(before, u))
  {
    hide IsWaiting, Completed, WaveCompletes, Run;
    var calls, last := before + [call], |before|;
    CompletedSnoc(cfg, start, before, call, last);
    assert calls[..last] == before;
    forall f | 0 <= f < last
      ensures Completed(cfg, start, calls, f) <==> Completed(cfg, start, before, f)
      ensures calls[..f] == before[..f]
    {
      CompletedSnoc(cfg, start, before, call, f);
    }
  }

  lemma HeldSnoc(cfg: Config, start: WaveState, before: seq<Call>, call: Call, p: nat)
    ensures IsHeld(cfg, start, before + [call], p) <==>
      || (p == |before| && Holds(call))
      || (IsHeld(cfg, start, before, p) && !call.NewBatch? &&
          !(call.Flush? && WaveCompletes(cfg, Run(cfg, start, before), call.outage)))
  {
    hide Completed, WaveCompletes, Run;
    var calls, last := before + [call], |before|;
    CompletedSnoc(cfg, start, before, call, last);
    forall k | 0 <= k < last
      ensures Completed(cfg, start, calls, k) <==> Completed(cfg, start, before, k)
      ensures calls[k] == before[k]
    {
      CompletedSnoc(cfg, start, before, call, k);
    }
    assert calls[last] == call;
  }

  // ---------------------------------------------------------------------------------------
  // The session shows its history
  // ---------------------------------------------------------------------------------------

  ghost predicate SeenIn(seen: seq<Observation>, u: Update, c: Candidate) {
    exists now :: Observation(c, u, now) in seen
  }

  lemma SeenInPoll(views: seq<ViewDef>, polled: Update, now: Time, u: Update, c: Candidate)
    requires c in Wave(views, u)
    ensures SeenIn(ObservationsOf(views, polled, now), u, c) <==> u == polled
  {
    if u == polled {
      var i :| 0 <= i < |Wave(views, u)| && Wave(views, u)[i] == c;
      assert ObservationsOf(views, polled, now)[i] == Observation(c, u, now);
    }
  }

  lemma SeenInParts(a: seq<Observation>, b: seq<Observation>, u: Update, c: Candidate)
    ensures SeenIn(a + b, u, c) <==> SeenIn(a, u, c) || SeenIn(b, u, c)
  {
    forall now
      ensures Observation(c, u, now) in a + b <==> Observation(c, u, now) in a || Observation(c, u, now) in b
    {
    }
  }

  /** The debounce store holds the dependents of exactly the waiting updates, the completed waves
      those of exactly the recomputed ones. */
  lemma {:induction false} ObservationsShow(cfg: Config, start: WaveState, calls: seq<Call>, u: Update, c: Candidate)
    requires c in Wave(cfg.views, u)
    ensures SeenIn(Run(cfg, start, calls).seen, u, c) <==> IsWaiting(calls, u)
    ensures SeenIn(Run(cfg, start, calls).books.completed, u, c) <==> IsRecomputed(cfg, start, calls, u)
  {
    if calls != [] {
      var before, call := calls[..|calls| - 1], calls[|calls| - 1];
      assert calls == before + [call];
      ObservationsShow(cfg, start, before, u, c);
      RunSnoc(cfg, start, before, call);
      WaitingSnoc(before, call, u);
      RecomputedSnoc(cfg, start, before, call, u);
      hide IsWaiting, IsRecomputed, Run, AfterWave, WaveCompletes, SeenIn;
      CallShows(cfg, Run(cfg, start, before), call, u, c);
    }
  }

  lemma CallShows(cfg: Config, s: Session, call: Call, u: Update, c: Candidate)
    requires c in Wave(cfg.views, u)
    ensures SeenIn(Play(cfg, s, call).seen, u, c) <==> Reads(call, u) || (!Drains(call) && SeenIn(s.seen, u, c))
    ensures SeenIn(Play(cfg, s, call).books.completed, u, c) <==>
      || SeenIn(s.books.completed, u, c)
      || (call.Flush? && WaveCompletes(cfg, s, call.outage) && SeenIn(s.seen, u, c))
  {
    hide AfterWave, WaveCompletes;
    match call {
      case Poll(d) =>
        if d.message.body.Json? {
          SeenInPoll(cfg.views, d.message.body.event, d.now, u, c);
          SeenInParts(s.seen, ObservationsOf(cfg.views, d.message.body.event, d.now), u, c);
        }
      case Flush(outage) => SeenInParts(s.books.completed, s.seen, u, c);
      case NewBatch =>
      case NewStore =>
    }
  }

  ghost predicate PolledAt(calls: seq<Call>, p: nat, m: Polled) {
    p < |calls| && calls[p].Poll? && calls[p].delivery.message == m
  }

  /** The pending batch holds exactly the messages that the history holds back. */
  lemma {:induction false} BatchShows(cfg: Config, start: WaveState, calls: seq<Call>, m: Polled)
    ensures m in Run(cfg, start, calls).books.held <==>
      exists p :: IsHeld(cfg, start, calls, p) && PolledAt(calls, p, m)
  {
    if calls != [] {
      var before, call := calls[..|calls| - 1], calls[|calls| - 1];
      assert calls == before + [call];
      BatchShows(cfg, start, before, m);
      RunSnoc(cfg, start, before, call);
      hide Run, AfterWave, WaveCompletes, IsHeld;
      forall p: nat
        ensures IsHeld(cfg, start, calls, p) && PolledAt(calls, p, m) <==>
          || (p == |before| && Holds(call) && call.delivery.message == m)
          || (IsHeld(cfg, start, before, p) && PolledAt(before, p, m) && !call.NewBatch? &&
              !(call.Flush? && WaveCompletes(cfg, Run(cfg, start, before), call.outage)))
      {
        HeldSnoc(cfg, start, before, call, p);
        HeldIsPolled(cfg, start, before, p);
      }
      if Holds(call) && call.delivery.message == m {
        assert IsHeld(cfg, start, calls, |before|) && PolledAt(calls, |before|, m);
      }
    }
  }

  lemma HeldIsPolled(cfg: Config, start: WaveState, calls: seq<Call>, p: nat)
    ensures IsHeld(cfg, start, calls, p) ==> p < |calls| && Holds(calls[p])
  {
  }

  // ---------------------------------------------------------------------------------------
  // When every commit is justified
  // ---------------------------------------------------------------------------------------

  /** An update is settled exactly if nothing depends on it or a completed wave took it along. */
  lemma SettledIff(cfg: Config, start: WaveState, calls: seq<Call>, m: Polled)
    requires m.body.Json?
    ensures Settled(cfg.views, Run(cfg, start, calls).books, m) <==>
      Wave(cfg.views, m.body.event) == [] || IsRecomputed(cfg, start, calls, m.body.event)
  {
    var u, b := m.body.event, Run(cfg, start, calls).books;
    hide IsRecomputed, Run;
    forall c | c in Wave(cfg.views, u)
      ensures SeenIn(b.completed, u, c) <==> IsRecomputed(cfg, start, calls, u)
    {
      ObservationsShow(cfg, start, calls, u, c);
    }
    if Wave(cfg.views, u) != [] {
      assert Wave(cfg.views, u)[0] in Wave(cfg.views, u);
    }
    assert Observed(cfg.views, b.completed, u) <==> forall c :: c in Wave(cfg.views, u) ==> SeenIn(b.completed, u, c);
  }

  ghost predicate SettledThrough(cfg: Config, start: WaveState, calls: seq<Call>) {
    forall n :: 0 <= n <= |calls| ==> CommitsAreSettled(cfg.views, Run(cfg, start, calls[..n]).books)
  }

  /** A call that is not a completed flush leaves justified commits justified. */
  lemma OtherCallsAreHarmless(cfg: Config, s: Session, call: Call)
    requires CommitsAreSettled(cfg.views, s.books) && !(call.Flush? && WaveCompletes(cfg, s, call.outage))
    ensures CommitsAreSettled(cfg.views, Play(cfg, s, call).books)
  {
    hide WaveCompletes, AfterWave, Settled, CommitsAreSettled;
    match call {
      case Poll(d) =>
        if d.message.body.Json? {
          HoldKeepsPromises(cfg.views, s.books, s.seen, d.message, d.now);
        } else {
          DeadLetterSettles(cfg.views, s.books, d);
        }
      case Flush(outage) =>
      case NewBatch => FreshBatchKeepsSettled(cfg.views, s.books);
      case NewStore =>
    }
  }

  /** What is held when a flush completes is settled afterwards if it was recomputed before or has
      been waiting for this wave. */
  lemma FlushSettlesIff(cfg: Config, start: WaveState, before: seq<Call>, outage: Option<Outage>, m: Polled)
    requires m.body.Json? && WaveCompletes(cfg, Run(cfg, start, before), outage)
    ensures Settled(cfg.views, Run(cfg, start, before + [Flush(outage)]).books, m) <==>
      || Wave(cfg.views, m.body.event) == []
      || IsRecomputed(cfg, start, before, m.body.event) || IsWaiting(before, m.body.event)
  {
    hide Settled, IsWaiting, IsRecomputed, Run, WaveCompletes;
    SettledIff(cfg, start, before + [Flush(outage)], m);
    RecomputedSnoc(cfg, start, before, Flush(outage), m.body.event);
  }

  lemma CompletedFlushIsSafeIff(cfg: Config, start: WaveState, before: seq<Call>, outage: Option<Outage>)
    requires CommitsAreSettled(cfg.views, Run(cfg, start, before).books)
    requires WaveCompletes(cfg, Run(cfg, start, before), outage)
    ensures CommitsAreSettled(cfg.views, Run(cfg, start, before + [Flush(outage)]).books) <==>
      !LosesWork(cfg, start, before + [Flush(outage)], |before|)
  {
    var calls, n := before + [Flush(outage)], |before|;
    var b, after := Run(cfg, start, before).books, Run(cfg, start, calls).books;
    assert calls[..n] == before;
    CompletedSnoc(cfg, start, before, Flush(outage), n);
    RunSnoc(cfg, start, before, Flush(outage));
    assert after == Flushed(b, Run(cfg, start, before).seen);
    hide Run, WaveCompletes, AfterWave, Settled, IsWaiting, IsRecomputed, Completed;
    forall m | m in b.committed
      ensures Settled(cfg.views, after, m)
    {
      SettledStays(cfg.views, b, after, m);
    }
    if LosesWork(cfg, start, calls, n) {
      var p: nat, u :| IsHeld(cfg, start, before, p) && Reads(before[p], u) && Wave(cfg.views, u) != [] &&
        !IsWaiting(before, u) && !IsRecomputed(cfg, start, before, u);
      var m := before[p].delivery.message;
      assert PolledAt(before, p, m);
      BatchShows(cfg, start, before, m);
      assert m in after.committed;
      FlushSettlesIff(cfg, start, before, outage, m);
    } else {
      forall m | m in b.held
        ensures Settled(cfg.views, after, m)
      {
        BatchShows(cfg, start, before, m);
        var p: nat :| IsHeld(cfg, start, before, p) && PolledAt(before, p, m);
        HeldIsPolled(cfg, start, before, p);
        assert Reads(before[p], m.body.event);
        FlushSettlesIff(cfg, start, before, outage, m);
      }
    }
  }

  lemma LosesWorkInFront(cfg: Config, start: WaveState, before: seq<Call>, call: Call, n: nat)
    requires n < |before|
    ensures LosesWork(cfg, start, before + [call], n) <==> LosesWork(cfg, start, before, n)
  {
    CompletedSnoc(cfg, start, before, call, n);
    assert (before + [call])[..n] == before[..n];
  }

  /** In a history of calls every commit is justified at all times if and only if no flush completes
      after the store was drained of the dependents of a message that is still held. */
  lemma {:induction false} CommitsStaySettledIff(cfg: Config, start: WaveState, calls: seq<Call>)
    ensures SettledThrough(cfg, start, calls) <==> forall n: nat :: !LosesWork(cfg, start, calls, n)
  {
    if calls == [] {
      assert calls[..0] == [];
      assert CommitsAreSettled(cfg.views, Run(cfg, start, []).books);
    } else {
      var before, call := calls[..|calls| - 1], calls[|calls| - 1];
      assert calls == before + [call];
      CommitsStaySettledIff(cfg, start, before);
      LastCallIsSafeIff(cfg, start, before, call);
      hide Run, LosesWork, CommitsAreSettled;
      assert forall n :: 0 <= n <= |before| ==> calls[..n] == before[..n];
      assert calls[..|calls|] == calls && before[..|before|] == before;
      forall n: nat | n < |before|
        ensures LosesWork(cfg, start, calls, n) <==> LosesWork(cfg, start, before, n)
      {
        LosesWorkInFront(cfg, start, before, call, n);
      }
      forall n: nat | n >= |calls|
        ensures !LosesWork(cfg, start, calls, n) && !LosesWork(cfg, start, before, n)
      {
        LosesWorkIsACall(cfg, start, calls, n);
        LosesWorkIsACall(cfg, start, before, n);
      }
      LosesWorkIsACall(cfg, start, before, |before|);
    }
  }

  lemma LosesWorkIsACall(cfg: Config, start: WaveState, calls: seq<Call>, n: nat)
    ensures LosesWork(cfg, start, calls, n) ==> n < |calls| && calls[n].Flush?
  {
  }

  lemma LastCallIsSafeIff(cfg: Config, start: WaveState, before: seq<Call>, call: Call)
    ensures CommitsAreSettled(cfg.views, Run(cfg, start, before).books) ==>
      (CommitsAreSettled(cfg.views, Run(cfg, start, before + [call]).books) <==>
       !LosesWork(cfg, start, before + [call], |before|))
  {
    var s := Run(cfg, start, before);
    if CommitsAreSettled(cfg.views, s.books) {
      if call.Flush? && WaveCompletes(cfg, s, call.outage) {
        CompletedFlushIsSafeIff(cfg, start, before, call.outage);
      } else {
        OtherCallsAreHarmless(cfg, s, call);
        RunSnoc(cfg, start, before, call);
        CompletedSnoc(cfg, start, before, call, |before|);
      }
    }
  }

  /** Between an emptying of the store that is not a completed wave and the next flush, a new
      pending batch is made. */
  ghost predicate RenewsBatches(cfg: Config, start: WaveState, calls: seq<Call>) {
    forall d, f :: 0 <= d < f < |calls| && Drains(calls[d]) && calls[f].Flush? ==>
      Completed(cfg, start, calls, d) || HasNewBatch(calls, d, f)
  }

  predicate HasNewBatch(calls: seq<Call>, d: nat, f: nat) { exists k :: d < k < f < |calls| && calls[k].NewBatch? }

  lemma CompletedInPrefix(cfg: Config, start: WaveState, calls: seq<Call>, n: nat, d: nat)
    requires d < n <= |calls|
    ensures Completed(cfg, start, calls[..n], d) <==> Completed(cfg, start, calls, d)
  {
    assert calls[..n][..d] == calls[..d];
  }

  lemma NotWaitingIsDrained(calls: seq<Call>, p: nat, u: Update) returns (d: nat)
    requires p < |calls| && Reads(calls[p], u) && !IsWaiting(calls, u)
    ensures p < d < |calls| && Drains(calls[d])
  {
    d :| p < d < |calls| && Drains(calls[d]);
  }

  /** A process that renews its pending batch like that loses nothing. */
  lemma FreshBatchesLoseNothing(cfg: Config, start: WaveState, calls: seq<Call>, n: nat)
    requires RenewsBatches(cfg, start, calls)
    ensures !LosesWork(cfg, start, calls, n)
  {
    hide Completed, Run, IsRecomputed, IsWaiting;
    if LosesWork(cfg, start, calls, n) {
      LosesWorkIsACall(cfg, start, calls, n);
      var before := calls[..n];
      var p: nat, u :| IsHeld(cfg, start, before, p) && Reads(before[p], u) && !IsWaiting(before, u);
      HeldIsPolled(cfg, start, before, p);
      var d := NotWaitingIsDrained(before, p, u);
      CompletedInPrefix(cfg, start, calls, n, d);
    }
  }

  lemma SomeUnit(seen: seq<Observation>)
    ensures Units(seen) == [] <==> seen == []
  {
    if seen != [] {
      assert KeyOf(seen[0].candidate) == Keys(seen)[0];
      assert Keys(seen)[0] in Dedupe(Keys(seen));
    }
  }

  lemma FlushIsInterrupted(cfg: Config, s: Session)
    requires s.seen != []
    ensures !WaveCompletes(cfg, s, Some(Outage(0, BeforeAppend)))
  {
    SomeUnit(s.seen);
    hide Units, OutcomeOf;
    assert InterruptedAt(cfg, WaveStart(s.backend), Units(s.seen), Some(Outage(0, BeforeAppend)), 0);
  }

  lemma NothingToFlush(cfg: Config, s: Session)
    requires s.seen == []
    ensures WaveCompletes(cfg, s, None)
  {
    SomeUnit(s.seen);
  }

  /** The books of a process that polls, flushes into an outage and flushes again. */
  lemma ReflushCommits(cfg: Config, start: WaveState, d: Delivery)
    requires d.message.body.Json? && Wave(cfg.views, d.message.body.event) != []
    ensures var failed := [Poll(d), Flush(Some(Outage(0, BeforeAppend)))];
      && Run(cfg, start, failed).books == Hold(NO_BOOKS, d.message)
      && WaveCompletes(cfg, Run(cfg, start, failed), None)
      && Run(cfg, start, failed + [Flush(None)]).books == Flushed(Hold(NO_BOOKS, d.message), [])
  {
    var outage := Some(Outage(0, BeforeAppend));
    var polled, failed := [Poll(d)], [Poll(d), Flush(outage)];
    assert [] + [Poll(d)] == polled && polled + [Flush(outage)] == failed;
    RunSnoc(cfg, start, [], Poll(d));
    RunSnoc(cfg, start, polled, Flush(outage));
    RunSnoc(cfg, start, failed, Flush(None));
    var s := Session(NO_BOOKS, [], start);
    assert Run(cfg, start, []) == s;
    hide Run, PlayAll, WaveCompletes, AfterWave;
    assert Run(cfg, start, polled) == Play(cfg, s, Poll(d));
    FlushIsInterrupted(cfg, Run(cfg, start, polled));
    NothingToFlush(cfg, Run(cfg, start, failed));
  }

  /** A wave that fails has already drained the debounce store. Polling a message, flushing into an
      outage and flushing the same batch again commits the message without any recompute. */
  lemma ReflushLosesWork(cfg: Config, start: WaveState, d: Delivery)
    requires d.message.body.Json? && Wave(cfg.views, d.message.body.event) != []
    ensures var calls := [Poll(d), Flush(Some(Outage(0, BeforeAppend)))] + [Flush(None)];
      && LosesWork(cfg, start, calls, 2)
      && d.message in Run(cfg, start, calls).books.committed && Run(cfg, start, calls).books.completed == []
      && !Settled(cfg.views, Run(cfg, start, calls).books, d.message)
  {
    var failed := [Poll(d), Flush(Some(Outage(0, BeforeAppend)))];
    ReflushCommits(cfg, start, d);
    hide Run, WaveCompletes, LosesWork;
    CompletedFlushIsSafeIff(cfg, start, failed, None);
    assert Wave(cfg.views, d.message.body.event)[0] in Wave(cfg.views, d.message.body.event);
    assert !Settled(cfg.views, Run(cfg, start, failed + [Flush(None)]).books, d.message);
  }
}
