/** A process that consumes one partition of offline writes (offline_writer_runner.py `run`): it polls
    on after a delivery that did not commit, and commits are cumulative. */
module OfflinePartition {
  import opened Domain
  import opened Registry
  import opened Dlq
  import Dedup
  import opened Pit
  import opened Propagation
  import opened OfflineWriter
  import Partition

  /** The process may die with a poll, or be restarted between two polls. */
  datatype Step =
    | Publish(message: Write) | Import(rows: History) | Poll(reach: Reach, dies: bool) | Restart

  datatype Session = Session(actions: seq<Action>, polls: seq<Partition.Move>)

  ghost function StateOf(views: seq<ViewDef>, s: Session, maxAttempts: int): State {
    OfflineWriter.Run(views, s.actions, maxAttempts)
  }

  /** What a delivery means for its offset: whether the message is covered after it, and whether it is
      committed. */
  ghost function PollOf(views: seq<ViewDef>, before: State, o: nat, reach: Reach, dies: bool, maxAttempts: int)
    : Partition.Move
    requires o < |before.topic|
  {
    Partition.Poll(Covered(views, OfflineWriter.Play(views, before, Deliver(o, reach), maxAttempts), o, maxAttempts),
                   Settles(StatusOf(before.topic[o], maxAttempts, reach)), dies)
  }

  ghost function Play(views: seq<ViewDef>, s: Session, step: Step, maxAttempts: int): Session {
    match step
    case Publish(message) => s.(actions := s.actions + [Produce(message)])
    case Import(rows) => s.(actions := s.actions + [AppendElsewhere(rows)])
    case Restart => s.(polls := s.polls + [Partition.Restart])
    case Poll(reach, dies) =>
      var before, o := StateOf(views, s, maxAttempts), Partition.Run(s.polls).fetch;
      if o >= |before.topic| then s
      else Session(s.actions + [Deliver(o, reach)], s.polls + [PollOf(views, before, o, reach, dies, maxAttempts)])
  }

  ghost function Run(views: seq<ViewDef>, steps: seq<Step>, maxAttempts: int): Session {
    if steps == [] then Session([], [])
    else Play(views, Run(views, steps[..|steps| - 1], maxAttempts), steps[|steps| - 1], maxAttempts)
  }

  /** The committed position has passed the message, and it is not covered. */
  ghost predicate Lost(views: seq<ViewDef>, s: Session, o: nat, maxAttempts: int) {
    o < Partition.Run(s.polls).position && !Covered(views, StateOf(views, s, maxAttempts), o, maxAttempts)
  }

  lemma ActionSnoc(views: seq<ViewDef>, actions: seq<Action>, a: Action, maxAttempts: int)
    ensures OfflineWriter.Run(views, actions + [a], maxAttempts)
         == OfflineWriter.Play(views, OfflineWriter.Run(views, actions, maxAttempts), a, maxAttempts)
  {
    assert (actions + [a])[..|actions|] == actions;
  }

  // ---------------------------------------------------------------------------------------
  // Only the deliveries of a message cover it
  // ---------------------------------------------------------------------------------------

  /** Nothing in `s'` is new for message `x`. */
  ghost predicate NothingNewFor(s: State, s': State, x: nat) {
    && Grows(s, s') && (x in s'.appended ==> x in s.appended) && (x in s'.copied ==> x in s.copied)
    && (x in s'.deadLetters ==> x in s.deadLetters)
    && forall a :: a in s'.published && a.offset == x ==> a in s.published
  }

  lemma StillUncovered(views: seq<ViewDef>, s: State, s': State, x: nat, maxAttempts: int)
    requires Invariant(views, s, maxAttempts) && NothingNewFor(s, s', x)
    ensures Covered(views, s', x, maxAttempts) ==> Covered(views, s, x, maxAttempts)
  {
    if Served(views, s', x) {
      assert s'.topic[x] == s.topic[x];
      var e, view := s.topic[x].body.event, FindView(views, s.topic[x].body.event.view);
      if view.Some? {
        forall r | r in e.results && HasReactiveDependents(view.value.features, r.ref.name)
          ensures Announced(views, s, x, r)
        {
          assert Announced(views, s', x, r);
        }
      }
      assert Served(views, s, x);
    }
  }

  lemma OthersUntouched(views: seq<ViewDef>, s: State, o: nat, reach: Reach, x: nat, maxAttempts: int)
    requires Invariant(views, s, maxAttempts) && x != o
    ensures NothingNewFor(s, OfflineWriter.Play(views, s, Deliver(o, reach), maxAttempts), x)
  {
  }

  lemma OfferedIsUntouched(views: seq<ViewDef>, s: State, a: Action, x: nat, maxAttempts: int)
    requires Invariant(views, s, maxAttempts) && (a.Produce? || a.AppendElsewhere?)
    ensures NothingNewFor(s, OfflineWriter.Play(views, s, a, maxAttempts), x)
  {
  }

  lemma DeliveryGrows(views: seq<ViewDef>, s: State, o: nat, reach: Reach, maxAttempts: int)
    ensures Grows(s, OfflineWriter.Play(views, s, Deliver(o, reach), maxAttempts))
  {
  }

  lemma SettledIsCommitted(views: seq<ViewDef>, s: State, o: nat, reach: Reach, maxAttempts: int)
    requires o < |s.topic| && Settles(StatusOf(s.topic[o], maxAttempts, reach))
    ensures o in OfflineWriter.Play(views, s, Deliver(o, reach), maxAttempts).committed
  {
  }

  /** A delivery commits only what it leaves covered. */
  lemma PollIsHonest(views: seq<ViewDef>, s: State, o: nat, reach: Reach, dies: bool, maxAttempts: int)
    requires Invariant(views, s, maxAttempts) && o < |s.topic|
    ensures var poll := PollOf(views, s, o, reach, dies, maxAttempts); poll.committed ==> poll.landed
  {
    PlayKeepsInvariant(views, s, Deliver(o, reach), maxAttempts);
    if Settles(StatusOf(s.topic[o], maxAttempts, reach)) {
      SettledIsCommitted(views, s, o, reach, maxAttempts);
    }
  }

  // ---------------------------------------------------------------------------------------
  // What a session has covered
  // ---------------------------------------------------------------------------------------

  /** The offsets that have landed are exactly the covered ones, and only they are committed. */
  ghost predicate Mirrors(views: seq<ViewDef>, s: Session, maxAttempts: int) {
    && Partition.Run(s.polls).fetch <= |StateOf(views, s, maxAttempts).topic| && Partition.Honest(s.polls)
    && forall o: nat :: o in Partition.Run(s.polls).landed <==>
      Covered(views, StateOf(views, s, maxAttempts), o, maxAttempts)
  }

  lemma OtherStepKeepsMirror(views: seq<ViewDef>, s: Session, a: Action, maxAttempts: int)
    requires Mirrors(views, s, maxAttempts) && (a.Produce? || a.AppendElsewhere?)
    ensures Mirrors(views, s.(actions := s.actions + [a]), maxAttempts)
  {
    var state := StateOf(views, s, maxAttempts);
    RunKeepsInvariant(views, s.actions, maxAttempts);
    ActionSnoc(views, s.actions, a, maxAttempts);
    hide OfflineWriter.Run, Partition.Run, Covered, Invariant;
    forall x: nat
      ensures Covered(views, OfflineWriter.Play(views, state, a, maxAttempts), x, maxAttempts)
        <==> Covered(views, state, x, maxAttempts)
    {
      OfferedIsUntouched(views, state, a, x, maxAttempts);
      StillUncovered(views, state, OfflineWriter.Play(views, state, a, maxAttempts), x, maxAttempts);
      if Covered(views, state, x, maxAttempts) {
        CoveredStays(views, state, OfflineWriter.Play(views, state, a, maxAttempts), x, maxAttempts);
      }
    }
  }

  /** A delivery covers at most its own message, and uncovers none. */
  lemma CoveredAfter(views: seq<ViewDef>, s: State, o: nat, reach: Reach, x: nat, maxAttempts: int)
    requires Invariant(views, s, maxAttempts)
    ensures var after := OfflineWriter.Play(views, s, Deliver(o, reach), maxAttempts);
      && (Covered(views, s, x, maxAttempts) ==> Covered(views, after, x, maxAttempts))
      && (x != o && Covered(views, after, x, maxAttempts) ==> Covered(views, s, x, maxAttempts))
  {
    hide OfflineWriter.Play, Covered, Invariant;
    var after := OfflineWriter.Play(views, s, Deliver(o, reach), maxAttempts);
    DeliveryGrows(views, s, o, reach, maxAttempts);
    if x != o {
      OthersUntouched(views, s, o, reach, x, maxAttempts);
      StillUncovered(views, s, after, x, maxAttempts);
    }
    if Covered(views, s, x, maxAttempts) {
      CoveredStays(views, s, after, x, maxAttempts);
    }
  }

  lemma PollKeepsMirror(views: seq<ViewDef>, s: Session, step: Step, maxAttempts: int)
    requires Mirrors(views, s, maxAttempts) && step.Poll?
    ensures Mirrors(views, Play(views, s, step, maxAttempts), maxAttempts)
  {
    hide OfflineWriter.Run, OfflineWriter.Play, Partition.Run, Covered, Invariant, StatusOf;
    var state, o := StateOf(views, s, maxAttempts), Partition.Run(s.polls).fetch;
    if o < |state.topic| {
      RunKeepsInvariant(views, s.actions, maxAttempts);
      ActionSnoc(views, s.actions, Deliver(o, step.reach), maxAttempts);
      Partition.RunSnoc(s.polls, PollOf(views, state, o, step.reach, step.dies, maxAttempts));
      PollIsHonest(views, state, o, step.reach, step.dies, maxAttempts);
      DeliveryGrows(views, state, o, step.reach, maxAttempts);
      hide Grows;
      forall x: nat
        ensures var after := OfflineWriter.Play(views, state, Deliver(o, step.reach), maxAttempts);
          && (Covered(views, state, x, maxAttempts) ==> Covered(views, after, x, maxAttempts))
          && (x != o && Covered(views, after, x, maxAttempts) ==> Covered(views, state, x, maxAttempts))
      {
        CoveredAfter(views, state, o, step.reach, x, maxAttempts);
      }
    }
  }

  lemma {:induction false} RunMirrors(views: seq<ViewDef>, steps: seq<Step>, maxAttempts: int)
    ensures Mirrors(views, Run(views, steps, maxAttempts), maxAttempts)
  {
    if steps == [] {
      assert OfflineWriter.Run(views, [], maxAttempts) == State([], [], [], {}, {}, {}, {});
    } else {
      var s, step := Run(views, steps[..|steps| - 1], maxAttempts), steps[|steps| - 1];
      RunMirrors(views, steps[..|steps| - 1], maxAttempts);
      match step {
        case Publish(message) => OtherStepKeepsMirror(views, s, Produce(message), maxAttempts);
        case Import(rows) => OtherStepKeepsMirror(views, s, AppendElsewhere(rows), maxAttempts);
        case Poll(_, _) => PollKeepsMirror(views, s, step, maxAttempts);
        case Restart => Partition.RunSnoc(s.polls, Partition.Restart);
      }
    }
  }

  /** No event is ever lost if and only if no delivery commits after the same process has polled an event
      that no delivery has left stored and announced, dead-lettered or copied for a retry. */
  lemma NothingIsLostIff(views: seq<ViewDef>, steps: seq<Step>, maxAttempts: int)
    ensures (forall o: nat :: !Lost(views, Run(views, steps, maxAttempts), o, maxAttempts)) <==>
      Partition.NothingIsSkipped(Run(views, steps, maxAttempts).polls)
  {
    RunMirrors(views, steps, maxAttempts);
    hide Run, Partition.Run, Partition.NothingIsSkipped, Covered;
    var s := Run(views, steps, maxAttempts);
    Partition.NothingIsLostIff(s.polls);
    forall o: nat
      ensures Lost(views, s, o, maxAttempts) <==> Partition.Lost(Partition.Run(s.polls), o)
    {
    }
  }

  /** If nothing was skipped, each event lies at or beyond the committed position, where a restart finds
      it, or is stored and announced, or dead-lettered, possibly as a retry copy of itself. */
  lemma {:induction false} AheadOrSettled(views: seq<ViewDef>, s: Session, o: nat, maxAttempts: int)
    returns (p: nat, chain: seq<Write>)
    requires o < |StateOf(views, s, maxAttempts).topic| && forall x: nat :: !Lost(views, s, x, maxAttempts)
    ensures Carries(StateOf(views, s, maxAttempts), o, p, chain, maxAttempts)
    ensures Partition.Run(s.polls).position <= p || Served(views, StateOf(views, s, maxAttempts), p)
         || p in StateOf(views, s, maxAttempts).deadLetters
    decreases Max(0, maxAttempts - GetAttempt(StateOf(views, s, maxAttempts).topic[o].headers))
  {
    hide OfflineWriter.Run, Partition.Run, Served;
    var state := StateOf(views, s, maxAttempts);
    p, chain := o, [state.topic[o]];
    if o < Partition.Run(s.polls).position && !Served(views, state, o) && o !in state.deadLetters {
      assert !Lost(views, s, o, maxAttempts);
      var copy := RetryCopy(state.topic[o]);
      var o' :| 0 <= o' < |state.topic| && state.topic[o'] == copy;
      var rest;
      p, rest := AheadOrSettled(views, s, o', maxAttempts);
      ChainGrows(state.topic[o], rest, maxAttempts);
      chain := [state.topic[o]] + rest;
    }
  }

  /** Once the position is at the end of the partition, every event is stored and announced, or
      dead-lettered. */
  lemma DrainedIsSettled(views: seq<ViewDef>, steps: seq<Step>, maxAttempts: int, o: nat) returns (p: nat)
    requires var s := Run(views, steps, maxAttempts);
      && Partition.NothingIsSkipped(s.polls) && o < |StateOf(views, s, maxAttempts).topic|
      && Partition.Run(s.polls).position == |StateOf(views, s, maxAttempts).topic|
    ensures var state := StateOf(views, Run(views, steps, maxAttempts), maxAttempts);
      p < |state.topic| && state.topic[p].body == state.topic[o].body &&
        (Served(views, state, p) || p in state.deadLetters)
  {
    var s, chain := Run(views, steps, maxAttempts), [];
    NothingIsLostIff(views, steps, maxAttempts);
    hide Run, Lost, Partition.NothingIsSkipped, OfflineWriter.Run, Partition.Run, Served;
    p, chain := AheadOrSettled(views, s, o, maxAttempts);
    ChainsAreShort(chain, maxAttempts);
  }

  // ---------------------------------------------------------------------------------------
  // A failing run
  // ---------------------------------------------------------------------------------------

  function FailThenSucceed(e: WriteEvent, next: WriteEvent): seq<Step> {
    [Publish(Message(Json(e), map[]))] + [Publish(Message(Json(next), map[]))] + [Poll(StopsAppending(0), false)] +
    [Poll(Commits, false)] + [Restart]
  }

  lemma StepSnoc(views: seq<ViewDef>, before: seq<Step>, step: Step, maxAttempts: int)
    ensures Run(views, before + [step], maxAttempts) == Play(views, Run(views, before, maxAttempts), step, maxAttempts)
  {
    assert (before + [step])[..|before|] == before;
  }

  lemma TwoPublished(views: seq<ViewDef>, a: Write, b: Write, maxAttempts: int)
    ensures var s := Run(views, [Publish(a)] + [Publish(b)], maxAttempts);
      s.polls == [] && StateOf(views, s, maxAttempts) == State([a, b], [], [], {}, {}, {}, {})
  {
    assert [] + [Publish(a)] == [Publish(a)] && [] + [Produce(a)] == [Produce(a)];
    StepSnoc(views, [], Publish(a), maxAttempts);
    StepSnoc(views, [Publish(a)], Publish(b), maxAttempts);
    ActionSnoc(views, [], Produce(a), maxAttempts);
    ActionSnoc(views, [Produce(a)], Produce(b), maxAttempts);
  }

  lemma PollExtends(views: seq<ViewDef>, s: Session, reach: Reach, maxAttempts: int)
    requires Partition.Run(s.polls).fetch < |StateOf(views, s, maxAttempts).topic|
    ensures var o, before := Partition.Run(s.polls).fetch, StateOf(views, s, maxAttempts);
      var s' := Play(views, s, Poll(reach, false), maxAttempts);
      && StateOf(views, s', maxAttempts) == OfflineWriter.Play(views, before, Deliver(o, reach), maxAttempts)
      && Partition.Run(s'.polls)
           == Partition.Step(Partition.Run(s.polls), PollOf(views, before, o, reach, false, maxAttempts))
  {
    var o, before := Partition.Run(s.polls).fetch, StateOf(views, s, maxAttempts);
    ActionSnoc(views, s.actions, Deliver(o, reach), maxAttempts);
    Partition.RunSnoc(s.polls, PollOf(views, before, o, reach, false, maxAttempts));
  }

  /** The append of the first event fails, the next event succeeds, and its commit passes the first one:
      a restart begins behind both, and the first event is never stored. */
  lemma NextSuccessOvertakes(views: seq<ViewDef>, e: WriteEvent, next: WriteEvent, maxAttempts: int)
    requires e.wellFormed && next.wellFormed
    ensures var s := Run(views, FailThenSucceed(e, next), maxAttempts);
      && |StateOf(views, s, maxAttempts).topic| == 2 == Partition.Run(s.polls).fetch
      && Lost(views, s, 0, maxAttempts)
  {
    var a, b := Message(Json(e), map[]), Message(Json(next), map[]);
    var published := [Publish(a)] + [Publish(b)];
    var failed := published + [Poll(StopsAppending(0), false)];
    var done := failed + [Poll(Commits, false)];
    TwoPublished(views, a, b, maxAttempts);
    StepSnoc(views, published, Poll(StopsAppending(0), false), maxAttempts);
    StepSnoc(views, failed, Poll(Commits, false), maxAttempts);
    StepSnoc(views, done, Restart, maxAttempts);
    assert Partition.Run([]) == Partition.START;
    hide Run, OfflineWriter.Run, Partition.Run, Covered, Dedup.NewResults;
    PollExtends(views, Run(views, published, maxAttempts), StopsAppending(0), maxAttempts);
    PollExtends(views, Run(views, failed, maxAttempts), Commits, maxAttempts);
    Partition.RunSnoc(Run(views, done, maxAttempts).polls, Partition.Restart);
    var after := StateOf(views, Run(views, done, maxAttempts), maxAttempts);
    assert 0 !in after.appended && 0 !in after.deadLetters && 0 !in after.copied;
    UncoveredUntilAppended(views, after, 0, maxAttempts);
  }

  lemma UncoveredUntilAppended(views: seq<ViewDef>, s: State, o: nat, maxAttempts: int)
    requires o !in s.appended && o !in s.deadLetters && o !in s.copied
    ensures !Covered(views, s, o, maxAttempts)
  {
  }
}
