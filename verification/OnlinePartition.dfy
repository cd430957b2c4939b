/** A process that consumes one partition of compute requests (online_worker_runner.py `run`): it polls
    on after a delivery that did not commit, and commits are cumulative. Retry copies carry the key of
    their message, so they land in the same partition. */
module OnlinePartition {
  import opened Domain
  import opened Registry
  import opened Dlq
  import opened WriteGuard
  import opened OnlineWorker
  import opened OnlineDelivery
  import Deadline
  import Partition

  /** A poll performs the first `reach` effects of its delivery; the process dies if that is not all. */
  datatype Step = Publish(message: Request) | Poll(f: Environment, outcomes: Outcomes, reach: nat) | Restart

  /** What the process does, and what that means for the offsets of the partition. */
  datatype Session = Session(moves: seq<Move>, polls: seq<Partition.Move>)

  /** An effect that ends a request: served, late, dead-lettered or carried on by a retry copy. */
  predicate IsFinal(x: Effect) {
    x.StoredResult? || (x.PublishedCompletion? && x.completion.DeadlineExpired?) || x.DeadLettered? || x.Republished?
  }

  predicate Lands(done: seq<Effect>) { exists i :: 0 <= i < |done| && IsFinal(done[i]) }

  function Performed(m: Request, maxAttempts: int, step: Step): seq<Effect>
    requires step.Poll?
  {
    var trace := Trace(m, maxAttempts, step.f, step.outcomes);
    trace[..Min(step.reach, |trace|)]
  }

  function PollOf(m: Request, maxAttempts: int, step: Step): Partition.Move
    requires step.Poll?
  {
    var done := Performed(m, maxAttempts, step);
    Partition.Poll(Lands(done), Committed in done, |done| < |Trace(m, maxAttempts, step.f, step.outcomes)|)
  }

  function Play(s: Session, step: Step, maxAttempts: int): Session {
    match step
    case Publish(message) => s.(moves := s.moves + [Produce(message)])
    case Restart => s.(polls := s.polls + [Partition.Restart])
    case Poll(f, outcomes, reach) =>
      var topic, o := OnlineDelivery.Run(s.moves, maxAttempts).topic, Partition.Run(s.polls).fetch;
      if o >= |topic| then s
      else
        var n := |Performed(topic[o], maxAttempts, step)|;
        Session(s.moves + [Deliver(0, o, f, outcomes)] + Deadline.Advances(0, n),
                s.polls + [PollOf(topic[o], maxAttempts, step)])
  }

  function Run(steps: seq<Step>, maxAttempts: int): Session {
    if steps == [] then Session([], [])
    else Play(Run(steps[..|steps| - 1], maxAttempts), steps[|steps| - 1], maxAttempts)
  }

  function SystemOf(s: Session, maxAttempts: int): System { OnlineDelivery.Run(s.moves, maxAttempts) }

  /** The committed position has passed the message, and it is not covered. */
  ghost predicate Lost(s: Session, o: nat, maxAttempts: int) {
    o < Partition.Run(s.polls).position && !CoveredAt(SystemOf(s, maxAttempts), o, maxAttempts)
  }

  // ---------------------------------------------------------------------------------------
  // Final effects are what covers a message
  // ---------------------------------------------------------------------------------------

  lemma CoveringIsFinal(m: Request, maxAttempts: int, done: seq<Effect>)
    requires Covers(m, maxAttempts, done)
    ensures Lands(done)
  {
    if x :| x in done && IsFinal(x) {
      var i :| 0 <= i < |done| && done[i] == x;
    }
  }

  lemma LandsPrefix(done: seq<Effect>, k: nat)
    requires k <= |done| && Lands(done[..k])
    ensures Lands(done)
  {
    var i :| 0 <= i < k && IsFinal(done[..k][i]);
    assert done[i] == done[..k][i];
  }

  /** A commit comes only after a final effect. */
  lemma CommitLands(m: Request, maxAttempts: int, f: Environment, outcomes: Outcomes, n: nat)
    requires n <= |Trace(m, maxAttempts, f, outcomes)| && Committed in Trace(m, maxAttempts, f, outcomes)[..n]
    ensures Lands(Trace(m, maxAttempts, f, outcomes)[..n])
  {
    var trace := Trace(m, maxAttempts, f, outcomes);
    var k :| 0 <= k < n && trace[..n][k] == Committed;
    CommitIsCovered(m, maxAttempts, f, outcomes, k);
    hide Trace, Covers;
    CoveringIsFinal(m, maxAttempts, trace[..k]);
    assert trace[..k] == trace[..n][..k];
    LandsPrefix(trace[..n], k);
  }

  /** The effect carries the message it was performed for. */
  predicate IsOwn(m: Request, maxAttempts: int, x: Effect) {
    && (x.DeadLettered? ==> x.body == m.body)
    && (x.Republished? ==> MayRetry(m, maxAttempts) && x.copy == RetryCopy(m))
    && (x.PublishedCompletion? || x.StoredResult? ==> m.body.Json? && x.event == m.body.event)
  }

  lemma HandlerIsOwn(m: Request, e: Event, maxAttempts: int, f: Environment, outcomes: Outcomes, x: Effect)
    requires m.body == Json(e) && x in HandlerTrace(e, f, outcomes)
    ensures IsOwn(m, maxAttempts, x)
  {
  }

  lemma ConclusionIsOwn(m: Request, e: Event, maxAttempts: int, f: Environment, outcomes: Outcomes, x: Effect)
    requires m.body == Json(e) && x in ConclusionTrace(m, e, maxAttempts, f, outcomes)
    ensures IsOwn(m, maxAttempts, x)
  {
    hide MayRetry, RetryCopy;
  }

  lemma TraceIsOwn(m: Request, maxAttempts: int, f: Environment, outcomes: Outcomes, x: Effect)
    requires x in Trace(m, maxAttempts, f, outcomes)
    ensures IsOwn(m, maxAttempts, x)
  {
    match m.body {
      case Junk(_) =>
      case Json(e) =>
        if x in HandlerTrace(e, f, outcomes) {
          HandlerIsOwn(m, e, maxAttempts, f, outcomes, x);
        } else if x in ConclusionTrace(m, e, maxAttempts, f, outcomes) {
          ConclusionIsOwn(m, e, maxAttempts, f, outcomes, x);
        } else {
          hide HandlerTrace, ConclusionTrace, MayRetry, RetryCopy;
          assert x in StatusUpdate(f, e, Running);
        }
    }
  }

  lemma StoringServes(m: Request, e: Event, maxAttempts: int, f: Environment, outcomes: Outcomes, k: nat)
    requires m.body == Json(e)
    requires k < |Trace(m, maxAttempts, f, outcomes)| && Trace(m, maxAttempts, f, outcomes)[k].StoredResult?
    ensures f.computation.Computed?
    ensures Served(e, Trace(m, maxAttempts, f, outcomes)[..k + 1], f.computation.results, FinishedWith(outcomes))
  {
    var trace := Trace(m, maxAttempts, f, outcomes);
    StoresInConclusion(m, e, maxAttempts, f, outcomes, k);
    var stored := [StoredResult(e, f.computation.results)];
    ServedBeforeCommit(e, f, outcomes);
    assert trace == StatusUpdate(f, e, Running) + HandlerTrace(e, f, outcomes) +
      ConclusionTrace(m, e, maxAttempts, f, outcomes);
    hide Served, HandlerTrace, ConclusionTrace, Trace, HandlerStatus, FinishedWith;
    ServedWithMore(e, HandlerTrace(e, f, outcomes) + stored, StatusUpdate(f, e, Running), f.computation.results,
                   FinishedWith(outcomes));
    assert trace[..k + 1] == trace[..k] + [trace[k]];
    assert trace[..k] == StatusUpdate(f, e, Running) + HandlerTrace(e, f, outcomes);
    assert trace[..k + 1] == StatusUpdate(f, e, Running) + (HandlerTrace(e, f, outcomes) + stored);
  }

  lemma StoresInConclusion(m: Request, e: Event, maxAttempts: int, f: Environment, outcomes: Outcomes, k: nat)
    requires m.body == Json(e)
    requires k < |Trace(m, maxAttempts, f, outcomes)| && Trace(m, maxAttempts, f, outcomes)[k].StoredResult?
    ensures k == |Opening(e, f, outcomes)| && HandlerStatus(e, f).Ok?
    ensures Trace(m, maxAttempts, f, outcomes)[k] == StoredResult(e, f.computation.results)
  {
    var opening, conclusion := Opening(e, f, outcomes), ConclusionTrace(m, e, maxAttempts, f, outcomes);
    assert Trace(m, maxAttempts, f, outcomes) == opening + conclusion;
    SplitAt(opening, conclusion, k);
    if k < |opening| {
      SplitAt(StatusUpdate(f, e, Running), HandlerTrace(e, f, outcomes), k);
      HandlerDoesNotStore(e, f, outcomes);
    } else {
      ConclusionStoresFirst(m, e, maxAttempts, f, outcomes, k - |opening|);
    }
  }

  lemma HandlerDoesNotStore(e: Event, f: Environment, outcomes: Outcomes)
    ensures forall i :: 0 <= i < |HandlerTrace(e, f, outcomes)| ==> !HandlerTrace(e, f, outcomes)[i].StoredResult?
  {
  }

  lemma ConclusionStoresFirst(m: Request, e: Event, maxAttempts: int, f: Environment, outcomes: Outcomes, i: nat)
    requires i < |ConclusionTrace(m, e, maxAttempts, f, outcomes)|
    requires ConclusionTrace(m, e, maxAttempts, f, outcomes)[i].StoredResult?
    ensures i == 0 && HandlerStatus(e, f).Ok?
    ensures ConclusionTrace(m, e, maxAttempts, f, outcomes)[0] == StoredResult(e, f.computation.results)
  {
  }

  /** Once a final effect has happened, the message is covered. */
  lemma FinalCovers(m: Request, maxAttempts: int, f: Environment, outcomes: Outcomes, k: nat)
    requires k < |Trace(m, maxAttempts, f, outcomes)| && IsFinal(Trace(m, maxAttempts, f, outcomes)[k])
    ensures Covers(m, maxAttempts, Trace(m, maxAttempts, f, outcomes)[..k + 1])
  {
    hide Trace;
    var trace := Trace(m, maxAttempts, f, outcomes);
    var done := trace[..k + 1];
    assert done[k] == trace[k] && trace[k] in done;
    TraceIsOwn(m, maxAttempts, f, outcomes, trace[k]);
    if trace[k].StoredResult? {
      StoringServes(m, m.body.event, maxAttempts, f, outcomes, k);
      hide Served;
      assert Settles(m, done);
    }
  }

  // ---------------------------------------------------------------------------------------
  // What a session has covered
  // ---------------------------------------------------------------------------------------

  lemma PlayGrows(s: System, move: Move, maxAttempts: int)
    ensures Grows(s, OnlineDelivery.Play(s, move, maxAttempts))
  {
    if move.Advance? {
      var w := move.worker;
      if w in s.flights && s.flights[w].offset < |s.topic| &&
        s.flights[w].done < |Script(s, s.flights[w], maxAttempts)| {
        var fl := s.flights[w];
        hide Trace;
        PerformGrows(s, fl.offset, Script(s, fl, maxAttempts)[fl.done]);
      }
    }
  }

  lemma {:induction false} RunGrows(moves: seq<Move>, more: seq<Move>, maxAttempts: int)
    ensures Grows(OnlineDelivery.Run(moves, maxAttempts), OnlineDelivery.Run(moves + more, maxAttempts))
  {
    hide OnlineDelivery.Run, OnlineDelivery.Play;
    if more == [] {
      assert moves + more == moves;
    } else {
      var front, m := more[..|more| - 1], more[|more| - 1];
      RunGrows(moves, front, maxAttempts);
      assert moves + more == (moves + front) + [m];
      RunSnoc(moves + front, m, maxAttempts);
      PlayGrows(OnlineDelivery.Run(moves + front, maxAttempts), m, maxAttempts);
    }
  }

  /** A final effect of the message has happened. */
  ghost predicate FinalLogged(log: seq<Entry>, o: nat) {
    exists en :: en in log && en.offset == o && IsFinal(en.effect)
  }

  lemma CoveredIsLogged(s: System, o: nat, maxAttempts: int)
    requires CoveredAt(s, o, maxAttempts)
    ensures FinalLogged(s.log, o)
  {
    var done :| Covers(s.topic[o], maxAttempts, done) && AllHappened(s, o, done);
    CoveringIsFinal(s.topic[o], maxAttempts, done);
    var i :| 0 <= i < |done| && IsFinal(done[i]);
    assert Happened(s, o, done[i]);
    assert Entry(o, done[i]) in s.log;
  }

  lemma EntriesAreFinalIff(o: nat, done: seq<Effect>, log: seq<Entry>, x: nat)
    ensures FinalLogged(log + Deadline.Entries(o, done), x) <==> FinalLogged(log, x) || (x == o && Lands(done))
  {
    var entries := Deadline.Entries(o, done);
    if x == o && Lands(done) {
      var i :| 0 <= i < |done| && IsFinal(done[i]);
      assert entries[i] == Entry(o, done[i]);
      assert Entry(o, done[i]) in log + entries;
    }
    forall en | en in entries
      ensures en.offset == o && (IsFinal(en.effect) ==> Lands(done))
    {
      var i :| 0 <= i < |entries| && entries[i] == en;
      assert done[i] == en.effect;
    }
  }

  lemma LandedIsCovered(s: System, fl: Flight, maxAttempts: int)
    requires InFlight(s, fl, maxAttempts) && Lands(Script(s, fl, maxAttempts)[..fl.done])
    ensures CoveredAt(s, fl.offset, maxAttempts)
  {
    hide Trace, Covers;
    var m, script := s.topic[fl.offset], Script(s, fl, maxAttempts);
    var k :| 0 <= k < fl.done && IsFinal(script[..fl.done][k]);
    FinalCovers(m, maxAttempts, fl.f, fl.outcomes, k);
    var done := script[..k + 1];
    assert forall i :: 0 <= i < |done| ==> done[i] == script[..fl.done][i];
    assert Covers(m, maxAttempts, done) && AllHappened(s, fl.offset, done);
  }

  /** The moves of one poll: they log what was performed, and cover the message if that lands. */
  lemma PollLogs(moves: seq<Move>, o: nat, step: Step, maxAttempts: int)
    requires step.Poll? && o < |OnlineDelivery.Run(moves, maxAttempts).topic|
    ensures var s := OnlineDelivery.Run(moves, maxAttempts);
      var done := Performed(s.topic[o], maxAttempts, step);
      var s' := OnlineDelivery.Run(moves + [Deliver(0, o, step.f, step.outcomes)] + Deadline.Advances(0, |done|),
                                   maxAttempts);
      && s'.log == s.log + Deadline.Entries(o, done) && (Lands(done) ==> CoveredAt(s', o, maxAttempts))
  {
    hide Trace, OnlineDelivery.Run, CoveredAt;
    var s := OnlineDelivery.Run(moves, maxAttempts);
    var d := Deadline.Delivery(0, o, step.f, step.outcomes);
    var script, done := Deadline.TraceOf(s.topic, d, maxAttempts), Performed(s.topic[o], maxAttempts, step);
    Deadline.FliesThrough(moves, d, |done|, maxAttempts);
    var all := moves + [Deliver(0, o, step.f, step.outcomes)] + Deadline.Advances(0, |done|);
    var s' := OnlineDelivery.Run(all, maxAttempts);
    assert script[..|done|] == done;
    RunKeepsInvariant(all, maxAttempts);
    assert InFlight(s', s'.flights[0], maxAttempts);
    assert Script(s', s'.flights[0], maxAttempts) == script;
    if Lands(done) {
      LandedIsCovered(s', s'.flights[0], maxAttempts);
    }
  }

  /** The offsets that have landed are exactly the covered ones, and only they are committed. */
  ghost predicate Mirrors(s: Session, maxAttempts: int) {
    && Partition.Run(s.polls).fetch <= |SystemOf(s, maxAttempts).topic|
    && Partition.Honest(s.polls)
    && (forall o: nat :: FinalLogged(SystemOf(s, maxAttempts).log, o) ==> o in Partition.Run(s.polls).landed)
    && (forall o: nat :: o in Partition.Run(s.polls).landed ==> CoveredAt(SystemOf(s, maxAttempts), o, maxAttempts))
  }

  /** The system after a poll at offset `o` that performed `done`. */
  ghost predicate Follows(system: System, system': System, o: nat, done: seq<Effect>, maxAttempts: int) {
    && Grows(system, system') && system'.log == system.log + Deadline.Entries(o, done)
    && (Lands(done) ==> CoveredAt(system', o, maxAttempts))
  }

  lemma PollFollows(s: Session, step: Step, maxAttempts: int)
    requires step.Poll? && Partition.Run(s.polls).fetch < |SystemOf(s, maxAttempts).topic|
    ensures var o, system := Partition.Run(s.polls).fetch, SystemOf(s, maxAttempts);
      Follows(system, SystemOf(Play(s, step, maxAttempts), maxAttempts), o,
              Performed(system.topic[o], maxAttempts, step), maxAttempts)
  {
    hide Trace, OnlineDelivery.Run, Partition.Run, CoveredAt;
    var topic, o := SystemOf(s, maxAttempts).topic, Partition.Run(s.polls).fetch;
    var done := Performed(topic[o], maxAttempts, step);
    PollLogs(s.moves, o, step, maxAttempts);
    var more := [Deliver(0, o, step.f, step.outcomes)] + Deadline.Advances(0, |done|);
    assert Play(s, step, maxAttempts).moves == s.moves + more;
    assert s.moves + [Deliver(0, o, step.f, step.outcomes)] + Deadline.Advances(0, |done|) == s.moves + more;
    RunGrows(s.moves, more, maxAttempts);
  }

  lemma PollIsHonest(m: Request, maxAttempts: int, step: Step)
    requires step.Poll?
    ensures PollOf(m, maxAttempts, step).committed ==> PollOf(m, maxAttempts, step).landed
  {
    hide Trace;
    var done := Performed(m, maxAttempts, step);
    if Committed in done {
      CommitLands(m, maxAttempts, step.f, step.outcomes, |done|);
    }
  }

  lemma PollKeepsMirror(s: Session, step: Step, maxAttempts: int)
    requires Mirrors(s, maxAttempts) && step.Poll?
    ensures Mirrors(Play(s, step, maxAttempts), maxAttempts)
  {
    var system, o, s' := SystemOf(s, maxAttempts), Partition.Run(s.polls).fetch, Play(s, step, maxAttempts);
    if o < |system.topic| {
      var done, poll := Performed(system.topic[o], maxAttempts, step), PollOf(system.topic[o], maxAttempts, step);
      var system' := SystemOf(s', maxAttempts);
      PollFollows(s, step, maxAttempts);
      PollIsHonest(system.topic[o], maxAttempts, step);
      assert s'.polls == s.polls + [poll] && poll.landed == Lands(done);
      hide Play, Performed, PollOf, SystemOf, Partition.Run, CoveredAt, FinalLogged, Lands;
      Partition.RunSnoc(s.polls, poll);
      forall x: nat
        ensures FinalLogged(system'.log, x) <==> FinalLogged(system.log, x) || (x == o && Lands(done))
        ensures CoveredAt(system, x, maxAttempts) ==> CoveredAt(system', x, maxAttempts)
      {
        EntriesAreFinalIff(o, done, system.log, x);
        if CoveredAt(system, x, maxAttempts) {
          CoveredStays(system, system', x, maxAttempts);
        }
      }
    }
  }

  lemma StepKeepsMirror(s: Session, step: Step, maxAttempts: int)
    requires Mirrors(s, maxAttempts)
    ensures Mirrors(Play(s, step, maxAttempts), maxAttempts)
  {
    match step {
      case Poll(_, _, _) => PollKeepsMirror(s, step, maxAttempts);
      case Restart => Partition.RunSnoc(s.polls, Partition.Restart);
      case Publish(message) =>
        RunSnoc(s.moves, Produce(message), maxAttempts);
        RunGrows(s.moves, [Produce(message)], maxAttempts);
        hide OnlineDelivery.Run, Partition.Run, CoveredAt, FinalLogged;
        forall x: nat | x in Partition.Run(s.polls).landed
          ensures CoveredAt(SystemOf(Play(s, step, maxAttempts), maxAttempts), x, maxAttempts)
        {
          CoveredStays(SystemOf(s, maxAttempts), SystemOf(Play(s, step, maxAttempts), maxAttempts), x, maxAttempts);
        }
    }
  }

  lemma {:induction false} RunMirrors(steps: seq<Step>, maxAttempts: int)
    ensures Mirrors(Run(steps, maxAttempts), maxAttempts)
  {
    if steps == [] {
      assert OnlineDelivery.Run([], maxAttempts) == EMPTY;
    } else {
      RunMirrors(steps[..|steps| - 1], maxAttempts);
      hide Mirrors;
      StepKeepsMirror(Run(steps[..|steps| - 1], maxAttempts), steps[|steps| - 1], maxAttempts);
    }
  }

  /** What the position has passed uncovered is what the partition loses. */
  lemma LostIff(steps: seq<Step>, maxAttempts: int, o: nat)
    ensures Lost(Run(steps, maxAttempts), o, maxAttempts) <==>
      Partition.Lost(Partition.Run(Run(steps, maxAttempts).polls), o)
  {
    RunMirrors(steps, maxAttempts);
    hide Run, Partition.Run, OnlineDelivery.Run, CoveredAt;
    if CoveredAt(SystemOf(Run(steps, maxAttempts), maxAttempts), o, maxAttempts) {
      CoveredIsLogged(SystemOf(Run(steps, maxAttempts), maxAttempts), o, maxAttempts);
    }
  }

  /** No request is ever lost if and only if no delivery commits after the same process has polled a
      request that no delivery has ended: served, late, dead-lettered or copied for a retry. */
  lemma NothingIsLostIff(steps: seq<Step>, maxAttempts: int)
    ensures (forall o: nat :: !Lost(Run(steps, maxAttempts), o, maxAttempts)) <==>
      Partition.NothingIsSkipped(Run(steps, maxAttempts).polls)
  {
    RunMirrors(steps, maxAttempts);
    hide Run, Lost, Partition.Run, Partition.Lost, Partition.NothingIsSkipped;
    Partition.NothingIsLostIff(Run(steps, maxAttempts).polls);
    forall o: nat
      ensures Lost(Run(steps, maxAttempts), o, maxAttempts) <==>
        Partition.Lost(Partition.Run(Run(steps, maxAttempts).polls), o)
    {
      LostIff(steps, maxAttempts, o);
    }
  }

  // ---------------------------------------------------------------------------------------
  // Every request is ahead of the position or settled
  // ---------------------------------------------------------------------------------------

  /** If nothing was skipped, each request lies at or beyond the committed position, where a restart
      finds it, or is settled, possibly as a retry copy of itself. */
  lemma {:induction false} AheadOrSettled(s: Session, o: nat, maxAttempts: int) returns (p: nat, chain: seq<Request>)
    requires o < |SystemOf(s, maxAttempts).topic| && forall x: nat :: !Lost(s, x, maxAttempts)
    ensures Carries(SystemOf(s, maxAttempts), o, p, chain, maxAttempts)
    ensures Partition.Run(s.polls).position <= p || SettledAt(SystemOf(s, maxAttempts), p)
    decreases Max(0, maxAttempts - GetAttempt(SystemOf(s, maxAttempts).topic[o].headers))
  {
    hide OnlineDelivery.Run, Partition.Run;
    var system := SystemOf(s, maxAttempts);
    p, chain := o, [system.topic[o]];
    if o < Partition.Run(s.polls).position && !SettledAt(system, o) {
      assert !Lost(s, o, maxAttempts);
      var o' := CopyOf(system, o, maxAttempts);
      var rest;
      p, rest := AheadOrSettled(s, o', maxAttempts);
      ChainGrows(system.topic[o], rest, maxAttempts);
      chain := [system.topic[o]] + rest;
    }
  }

  lemma CopyOf(s: System, o: nat, maxAttempts: int) returns (copy: nat)
    requires CoveredAt(s, o, maxAttempts) && !SettledAt(s, o)
    ensures copy < |s.topic| && s.topic[copy] == RetryCopy(s.topic[o]) && MayRetry(s.topic[o], maxAttempts)
  {
    var done :| Covers(s.topic[o], maxAttempts, done) && AllHappened(s, o, done);
    assert !Settles(s.topic[o], done);
    var k :| 0 <= k < |done| && done[k] == Republished(RetryCopy(s.topic[o]));
    assert Happened(s, o, done[k]);
    copy :| 0 <= copy < |s.topic| && s.topic[copy] == RetryCopy(s.topic[o]);
  }

  /** Once the position is at the end of the partition, every request is settled. */
  lemma DrainedIsSettled(steps: seq<Step>, maxAttempts: int, o: nat) returns (p: nat)
    requires var s := Run(steps, maxAttempts);
      && Partition.NothingIsSkipped(s.polls) && o < |SystemOf(s, maxAttempts).topic|
      && Partition.Run(s.polls).position == |SystemOf(s, maxAttempts).topic|
    ensures var system := SystemOf(Run(steps, maxAttempts), maxAttempts);
      SettledAt(system, p) && system.topic[p].body == system.topic[o].body
  {
    var s, chain := Run(steps, maxAttempts), [];
    NothingIsLostIff(steps, maxAttempts);
    hide Run, Lost, Partition.NothingIsSkipped, OnlineDelivery.Run, Partition.Run;
    p, chain := AheadOrSettled(s, o, maxAttempts);
    ChainsAreShort(chain, maxAttempts);
  }

  // ---------------------------------------------------------------------------------------
  // A failing run
  // ---------------------------------------------------------------------------------------

  /** The offline event is lost or acknowledged, everything else works. */
  function Weather(r: FeatureResult, offline: Publish): Environment {
    Environment(0, Computed([r]), None, offline, Acked, Acked, Acked, Acked, false)
  }

  function Ordinary(e: Event): Request { Message(Json(e), map[]) }

  lemma WeatherDecides(e: Event, r: FeatureResult, maxAttempts: int)
    requires e.expiresAt == None
    ensures PollOf(Ordinary(e), maxAttempts, Poll(Weather(r, Publish.Lost), map[], 5))
      == Partition.Poll(false, false, false)
    ensures PollOf(Ordinary(e), maxAttempts, Poll(Weather(r, Acked), map[], 5)) == Partition.Poll(true, true, false)
  {
    var results := [r];
    var lost := Trace(Ordinary(e), maxAttempts, Weather(r, Publish.Lost), map[]);
    var fine := Trace(Ordinary(e), maxAttempts, Weather(r, Acked), map[]);
    assert lost == [WroteOnline(e.view, r)] && lost[..1] == lost;
    assert fine == [WroteOnline(e.view, r), PublishedOffline(e, results), PublishedCompletion(e, FinishedWith(map[])),
                    StoredResult(e, results), Committed];
    assert fine[..5] == fine && IsFinal(fine[3]);
  }

  function FailThenSucceed(e: Event, next: Event, r: FeatureResult): seq<Step> {
    [Publish(Ordinary(e))] + [Publish(Ordinary(next))] + [Poll(Weather(r, Publish.Lost), map[], 5)] +
    [Poll(Weather(r, Acked), map[], 5)] + [Restart]
  }

  lemma StepSnoc(before: seq<Step>, step: Step, maxAttempts: int)
    ensures Run(before + [step], maxAttempts) == Play(Run(before, maxAttempts), step, maxAttempts)
  {
    assert (before + [step])[..|before|] == before;
  }

  lemma TopicOfTwo(a: Request, b: Request, maxAttempts: int)
    ensures OnlineDelivery.Run([Produce(a)] + [Produce(b)], maxAttempts).topic == [a, b]
  {
    assert [] + [Produce(a)] == [Produce(a)];
    RunSnoc([], Produce(a), maxAttempts);
    RunSnoc([Produce(a)], Produce(b), maxAttempts);
  }

  /** A poll adds its move and keeps the messages in place. */
  lemma PollExtends(s: Session, step: Step, maxAttempts: int)
    requires step.Poll? && Partition.Run(s.polls).fetch < |SystemOf(s, maxAttempts).topic|
    ensures var o := Partition.Run(s.polls).fetch;
      var poll := PollOf(SystemOf(s, maxAttempts).topic[o], maxAttempts, step);
      var s' := Play(s, step, maxAttempts);
      && s'.polls == s.polls + [poll] && Partition.Run(s'.polls) == Partition.Step(Partition.Run(s.polls), poll)
      && SystemOf(s, maxAttempts).topic <= SystemOf(s', maxAttempts).topic
  {
    hide Trace, OnlineDelivery.Run, Partition.Run;
    var topic, o := SystemOf(s, maxAttempts).topic, Partition.Run(s.polls).fetch;
    var n := |Performed(topic[o], maxAttempts, step)|;
    var more := [Deliver(0, o, step.f, step.outcomes)] + Deadline.Advances(0, n);
    assert Play(s, step, maxAttempts).moves == s.moves + more;
    RunGrows(s.moves, more, maxAttempts);
    Partition.RunSnoc(s.polls, PollOf(topic[o], maxAttempts, step));
  }

  lemma TwoPublished(e: Event, next: Event, maxAttempts: int)
    ensures var s := Run([Publish(Ordinary(e))] + [Publish(Ordinary(next))], maxAttempts);
      s.polls == [] && SystemOf(s, maxAttempts).topic == [Ordinary(e), Ordinary(next)]
  {
    var first, second := Publish(Ordinary(e)), Publish(Ordinary(next));
    assert [] + [first] == [first] && [] + [Produce(Ordinary(e))] == [Produce(Ordinary(e))];
    StepSnoc([], first, maxAttempts);
    StepSnoc([first], second, maxAttempts);
    TopicOfTwo(Ordinary(e), Ordinary(next), maxAttempts);
  }

  lemma AfterFailure(e: Event, next: Event, r: FeatureResult, maxAttempts: int)
    requires e.expiresAt == None
    ensures var published := [Publish(Ordinary(e))] + [Publish(Ordinary(next))];
      var s := Run(published + [Poll(Weather(r, Publish.Lost), map[], 5)], maxAttempts);
      && [Ordinary(e), Ordinary(next)] <= SystemOf(s, maxAttempts).topic
      && Partition.Run(s.polls) == Partition.Consumer(1, 0, {})
  {
    var published := [Publish(Ordinary(e))] + [Publish(Ordinary(next))];
    var step := Poll(Weather(r, Publish.Lost), map[], 5);
    TwoPublished(e, next, maxAttempts);
    WeatherDecides(e, r, maxAttempts);
    StepSnoc(published, step, maxAttempts);
    assert Partition.Run([]) == Partition.START;
    hide Run, SystemOf, Play, PollOf, Partition.Run;
    PollExtends(Run(published, maxAttempts), step, maxAttempts);
  }

  lemma AfterSuccess(s: Session, e: Event, next: Event, r: FeatureResult, maxAttempts: int)
    requires next.expiresAt == None && [Ordinary(e), Ordinary(next)] <= SystemOf(s, maxAttempts).topic
    requires Partition.Run(s.polls) == Partition.Consumer(1, 0, {})
    ensures var s' := Play(s, Poll(Weather(r, Acked), map[], 5), maxAttempts);
      && [Ordinary(e), Ordinary(next)] <= SystemOf(s', maxAttempts).topic
      && Partition.Run(s'.polls) == Partition.Consumer(2, 2, {1})
  {
    WeatherDecides(next, r, maxAttempts);
    hide PollOf, Partition.Run, SystemOf, Play;
    PollExtends(s, Poll(Weather(r, Acked), map[], 5), maxAttempts);
  }

  lemma AfterRestart(s: Session, maxAttempts: int)
    ensures var s' := Play(s, Restart, maxAttempts);
      && SystemOf(s', maxAttempts) == SystemOf(s, maxAttempts)
      && Partition.Run(s'.polls) == Partition.Step(Partition.Run(s.polls), Partition.Restart)
  {
    Partition.RunSnoc(s.polls, Partition.Restart);
  }

  /** The offline event of the first request is lost, the next request succeeds, and its commit passes
      the first one: a restart begins behind both, and the first request is never finished. */
  lemma NextSuccessOvertakes(e: Event, next: Event, r: FeatureResult, maxAttempts: int)
    requires e.expiresAt == None && next.expiresAt == None
    ensures var s := Run(FailThenSucceed(e, next, r), maxAttempts);
      && [Ordinary(e), Ordinary(next)] <= SystemOf(s, maxAttempts).topic
      && Partition.Run(s.polls).fetch == 2 && Lost(s, 0, maxAttempts)
  {
    var failed := [Publish(Ordinary(e))] + [Publish(Ordinary(next))] + [Poll(Weather(r, Publish.Lost), map[], 5)];
    AfterFailure(e, next, r, maxAttempts);
    var done := failed + [Poll(Weather(r, Acked), map[], 5)];
    StepSnoc(failed, Poll(Weather(r, Acked), map[], 5), maxAttempts);
    StepSnoc(done, Restart, maxAttempts);
    hide Run, SystemOf, Partition.Run, Lost, Play;
    AfterSuccess(Run(failed, maxAttempts), e, next, r, maxAttempts);
    AfterRestart(Run(done, maxAttempts), maxAttempts);
    LostIff(FailThenSucceed(e, next, r), maxAttempts, 0);
  }
}
