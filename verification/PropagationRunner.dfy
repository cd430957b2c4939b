/** The consumer of feature updates (propagation_worker_runner.py): observed messages are held back
    and committed together once the wave they called for has completed. */
module PropagationRunner {
  import opened Domain
  import opened Registry
  import opened Dlq
  import opened Pit
  import opened Propagation
  import opened Debounce
  import opened PropagationWorker
  import Quiescence

  datatype Polled = Polled(offset: nat, body: Body<Update>)

  /** What the runner has done: what is held back, what is committed, what was dead-lettered, and
      the observations whose waves completed. */
  datatype Books = Books(
    held: seq<Polled>, committed: seq<Polled>, deadLetters: seq<Polled>, completed: seq<Observation>)

  function ObservationsOf(views: seq<ViewDef>, u: Update, now: Time): seq<Observation> {
    var wave := Wave(views, u);
    seq(|wave|, i requires 0 <= i < |wave| => Observation(wave[i], u, now))
  }

  /** Every dependent that `u` makes due is among the observations. */
  ghost predicate Observed(views: seq<ViewDef>, seen: seq<Observation>, u: Update) {
    forall c :: c in Wave(views, u) ==> exists now :: Observation(c, u, now) in seen
  }

  /** A commit is justified by a dead letter, or by completed waves for all due dependents. */
  ghost predicate Settled(views: seq<ViewDef>, b: Books, m: Polled) {
    match m.body
    case Junk(_) => m in b.deadLetters
    case Json(u) => Observed(views, b.completed, u)
  }

  ghost predicate CommitsAreSettled(views: seq<ViewDef>, b: Books) {
    forall m :: m in b.committed ==> Settled(views, b, m)
  }

  ghost predicate HeldAreObserved(views: seq<ViewDef>, b: Books, seen: seq<Observation>) {
    forall m :: m in b.held ==> m.body.Json? && Observed(views, seen, m.body.event)
  }

  /** The books after a flush whose wave completed: whatever is held is committed. */
  function Flushed(b: Books, seen: seq<Observation>): Books {
    b.(held := [], committed := b.committed + b.held, completed := b.completed + seen)
  }

  function Hold(b: Books, m: Polled): Books { b.(held := b.held + [m]) }

  lemma ObservedInMore(views: seq<ViewDef>, seen: seq<Observation>, more: seq<Observation>, u: Update)
    requires Observed(views, seen, u)
    ensures Observed(views, seen + more, u) && Observed(views, more + seen, u)
  {
    forall c | c in Wave(views, u)
      ensures exists now :: Observation(c, u, now) in seen + more && Observation(c, u, now) in more + seen
    {
      var now :| Observation(c, u, now) in seen;
      assert Observation(c, u, now) in seen + more && Observation(c, u, now) in more + seen;
    }
  }

  lemma ObservationsAreObserved(views: seq<ViewDef>, u: Update, now: Time)
    ensures Observed(views, ObservationsOf(views, u, now), u)
    ensures Quiescence.Planned(views, ObservationsOf(views, u, now))
  {
    forall c | c in Wave(views, u)
      ensures Observation(c, u, now) in ObservationsOf(views, u, now)
    {
      var i :| 0 <= i < |Wave(views, u)| && Wave(views, u)[i] == c;
      assert ObservationsOf(views, u, now)[i] == Observation(c, u, now);
    }
  }

  lemma HoldKeepsObserved(views: seq<ViewDef>, b: Books, seen: seq<Observation>, m: Polled, now: Time)
    requires HeldAreObserved(views, b, seen) && m.body.Json?
    ensures HeldAreObserved(views, Hold(b, m), seen + ObservationsOf(views, m.body.event, now))
  {
    ObservationsAreObserved(views, m.body.event, now);
    ObservedInMore(views, ObservationsOf(views, m.body.event, now), seen, m.body.event);
    forall held | held in b.held
      ensures Observed(views, seen + ObservationsOf(views, m.body.event, now), held.body.event)
    {
      ObservedInMore(views, seen, ObservationsOf(views, m.body.event, now), held.body.event);
    }
  }

  lemma SettledStays(views: seq<ViewDef>, b: Books, b': Books, m: Polled)
    requires Settled(views, b, m) && b.completed <= b'.completed && b.deadLetters <= b'.deadLetters
    ensures Settled(views, b', m)
  {
    if m.body.Json? {
      ObservedInMore(views, b.completed, b'.completed[|b.completed|..], m.body.event);
    } else {
      var i :| 0 <= i < |b.deadLetters| && b.deadLetters[i] == m;
      assert b'.deadLetters[i] == m;
    }
  }

  lemma ObservedFlushIsSafe(views: seq<ViewDef>, b: Books, seen: seq<Observation>)
    requires CommitsAreSettled(views, b) && HeldAreObserved(views, b, seen)
    ensures CommitsAreSettled(views, Flushed(b, seen))
  {
    var after := Flushed(b, seen);
    forall m | m in after.committed
      ensures Settled(views, after, m)
    {
      if m in b.committed {
        SettledStays(views, b, after, m);
      } else {
        ObservedInMore(views, seen, b.completed, m.body.event);
      }
    }
  }

  datatype Status = ObservedOne(candidates: nat) | DeadLettered | DlqPublishFailed

  /** A message to be polled, with what becomes of its dead letter should it need one. */
  datatype Delivery = Delivery(message: Polled, dlq: Publish, now: Time)

  /** A message that does not deserialise is committed once its dead letter is acknowledged. */
  function AfterDeadLetter(b: Books, d: Delivery): Books {
    var written := if d.dlq.Lost? then b else b.(deadLetters := b.deadLetters + [d.message]);
    if d.dlq.Acked? then written.(committed := written.committed + [d.message]) else written
  }

  // ---------------------------------------------------------------------------------------
  // Calls of the runner
  // ---------------------------------------------------------------------------------------

  /** What a process may call, in any order: poll one message, flush, start a new pending batch,
      start a new debounce store. */
  datatype Call = Poll(delivery: Delivery) | Flush(outage: Option<Outage>) | NewBatch | NewStore

  /** The books, what the debounce store has seen since it was last drained, and the backend. */
  datatype Session = Session(books: Books, seen: seq<Observation>, backend: WaveState)

  /** A wave starts with an empty tally. */
  ghost function WaveStart(backend: WaveState): WaveState { backend.(tally := NO_TALLY) }

  ghost predicate WaveCompletes(cfg: Config, s: Session, outage: Option<Outage>) {
    Completes(cfg, WaveStart(s.backend), Units(s.seen), outage)
  }

  /** The backend after a wave over the observations, which gets to the end or to its first
      interruption. */
  ghost function AfterWave(cfg: Config, s: Session, outage: Option<Outage>): WaveState {
    var units, start := Units(s.seen), WaveStart(s.backend);
    if WaveCompletes(cfg, s, outage) then AfterUnits(cfg, start, units)
    else Stopped(cfg, start, units, outage, FirstInterruption(cfg, start, units, outage))
  }

  ghost function Play(cfg: Config, s: Session, call: Call): Session {
    match call
    case Poll(d) =>
      (match d.message.body
       case Junk(_) => s.(books := AfterDeadLetter(s.books, d))
       case Json(u) => s.(books := Hold(s.books, d.message), seen := s.seen + ObservationsOf(cfg.views, u, d.now)))
    case Flush(outage) =>
      Session(if WaveCompletes(cfg, s, outage) then Flushed(s.books, s.seen) else s.books, [],
              AfterWave(cfg, s, outage))
    case NewBatch => s.(books := s.books.(held := []))
    case NewStore => s.(seen := [])
  }

  ghost function PlayAll(cfg: Config, s: Session, calls: seq<Call>): Session {
    if calls == [] then s else Play(cfg, PlayAll(cfg, s, calls[..|calls| - 1]), calls[|calls| - 1])
  }

  lemma PlaySnoc(cfg: Config, s: Session, calls: seq<Call>, call: Call)
    ensures PlayAll(cfg, s, calls + [call]) == Play(cfg, PlayAll(cfg, s, calls), call)
  {
    assert (calls + [call])[..|calls|] == calls;
  }

  function Polls(deliveries: seq<Delivery>): seq<Call> {
    seq(|deliveries|, i requires 0 <= i < |deliveries| => Poll(deliveries[i]))
  }

  function Opening(ownStore: bool): seq<Call> { if ownStore then [NewStore, NewBatch] else [NewBatch] }

  /** The calls of one round of `run`; it makes a debounce store unless it is given one. */
  function RoundOf(ownStore: bool, deliveries: seq<Delivery>, outage: Option<Outage>): seq<Call> {
    Opening(ownStore) + Polls(deliveries) + [Flush(outage)]
  }

  class Runner {
    const worker: Worker
    var held: seq<Polled>
    var committed: seq<Polled>
    var deadLetters: seq<Polled>
    ghost var completed: seq<Observation>

    ghost function Ledger(): Books
      reads this
    {
      Books(held, committed, deadLetters, completed)
    }

    ghost function State(): Session
      reads this, worker, worker.offline, worker.debounce
    {
      Session(Ledger(), worker.debounce.seen, worker.State())
    }

    ghost predicate Valid()
      reads this, worker.debounce
    {
      worker.debounce.Valid() && Quiescence.Planned(worker.cfg.views, worker.debounce.seen)
    }

    /** Every commit is justified. */
    ghost predicate Sound()
      reads this
    {
      CommitsAreSettled(worker.cfg.views, Ledger())
    }

    /** What is held back is waiting in the debounce store. */
    ghost predicate Waiting()
      reads this, worker.debounce
    {
      HeldAreObserved(worker.cfg.views, Ledger(), worker.debounce.seen)
    }

    constructor (worker: Worker)
      requires worker.debounce.Valid() && worker.debounce.seen == []
      ensures this.worker == worker && Ledger() == Books([], [], [], []) && Valid() && Sound() && Waiting()
    {
      this.worker := worker;
      held, committed, deadLetters, completed := [], [], [], [];
    }

    /** Plan the dependents of one update and coalesce them into the debounce store. */
    method HandleFeatureUpdated(u: Update, now: Time) returns (candidates: seq<Candidate>)
      requires worker.debounce.Valid()
      modifies worker.debounce
      ensures worker.debounce.Valid() && candidates == Wave(worker.cfg.views, u)
      ensures worker.debounce.seen == old(worker.debounce.seen) + ObservationsOf(worker.cfg.views, u, now)
    {
      candidates := PlanRecomputeWave(worker.cfg.views, u);
      ghost var all := ObservationsOf(worker.cfg.views, u, now);
      for i := 0 to |candidates|
        invariant worker.debounce.Valid()
        invariant worker.debounce.seen == old(worker.debounce.seen) + all[..i]
      {
        var _ := worker.debounce.Observe(candidates[i], u, now);
        NextObservation(old(worker.debounce.seen), all, i);
      }
      assert all[..|candidates|] == all;
    }

    /** Publish the bytes to the dead-letter topic; commit only if that was acknowledged. */
    method DeadLetterMessage(d: Delivery) returns (status: Status)
      requires d.message.body.Junk?
      modifies `committed, `deadLetters
      ensures Ledger() == AfterDeadLetter(old(Ledger()), d) && (old(Sound()) ==> Sound())
      ensures status == if d.dlq.Acked? then DeadLettered else DlqPublishFailed
    {
      if CommitsAreSettled(worker.cfg.views, Ledger()) {
        DeadLetterSettles(worker.cfg.views, Ledger(), d);
      }
      if !d.dlq.Lost? {
        deadLetters := deadLetters + [d.message];
      }
      if !d.dlq.Acked? {
        return DlqPublishFailed;
      }
      committed := committed + [d.message];
      return DeadLettered;
    }

    method ProcessNext(d: Delivery) returns (status: Status)
      requires Valid()
      modifies this, worker.debounce
      ensures Valid() && State() == Play(worker.cfg, old(State()), Poll(d))
      ensures (old(Sound()) ==> Sound()) && (old(Waiting()) ==> Waiting())
      ensures status == match d.message.body
                        case Json(u) => ObservedOne(|Wave(worker.cfg.views, u)|)
                        case Junk(_) => if d.dlq.Acked? then DeadLettered else DlqPublishFailed
    {
      match d.message.body {
        case Junk(_) =>
          status := DeadLetterMessage(d);
        case Json(u) =>
          HoldKeepsPromises(worker.cfg.views, Ledger(), worker.debounce.seen, d.message, d.now);
          ObservationsAreObserved(worker.cfg.views, u, d.now);
          var candidates := HandleFeatureUpdated(u, d.now);
          held := held + [d.message];
          return ObservedOne(|candidates|);
      }
    }

    /** Run the wave; commit what is held only if it completed. */
    method Flush(outage: Option<Outage>) returns (ok: bool)
      requires Valid()
      modifies this, worker, worker.offline, worker.debounce
      ensures Valid() && State() == Play(worker.cfg, old(State()), Call.Flush(outage))
      ensures ok <==> WaveCompletes(worker.cfg, old(State()), outage)
      ensures old(Sound()) && old(Waiting()) ==> Sound()
    {
      hide Completes, AfterUnits, Stopped, CommitsAreSettled, HeldAreObserved, Units, DebounceStore.Valid,
        InterruptedAt;
      ghost var before := State();
      ghost var seen := worker.debounce.seen;
      if CommitsAreSettled(worker.cfg.views, Ledger()) && HeldAreObserved(worker.cfg.views, Ledger(), seen) {
        ObservedFlushIsSafe(worker.cfg.views, Ledger(), seen);
      }
      ghost var after := Flushed(Ledger(), seen);
      ghost var at;
      ok, at := worker.ExecuteWave(outage);
      if ok {
        committed := committed + held;
        held := [];
        completed := completed + seen;
        assert Ledger() == after;
      } else {
        FirstInterruptionIsUnique(worker.cfg, WaveStart(before.backend), Units(seen), outage, at);
      }
    }

    /** One bounded round: a fresh batch, some messages, one wave. Whatever happened before, and
        whatever fails now, every commit stays justified. */
    method Run(ownStore: bool, deliveries: seq<Delivery>, outage: Option<Outage>) returns (ok: bool)
      requires Valid()
      modifies this, worker, worker.offline, worker.debounce
      ensures Valid() && (old(Sound()) ==> Sound())
      ensures State() == PlayAll(worker.cfg, old(State()), RoundOf(ownStore, deliveries, outage))
    {
      hide Play, PlayAll, Polls, Opening, CommitsAreSettled, WaveCompletes, DebounceStore.Valid;
      ghost var start := State();
      if ownStore {
        var _ := worker.debounce.Drain();
      }
      FreshBatchKeepsSettled(worker.cfg.views, Ledger());
      held := [];
      OpeningPlays(worker.cfg, start, ownStore);
      assert deliveries[..0] == [] && Opening(ownStore) + Polls([]) == Opening(ownStore) by { NoPolls(); }
      for i := 0 to |deliveries|
        invariant Valid() && Waiting() && (old(Sound()) ==> Sound())
        invariant State() == PlayAll(worker.cfg, start, Opening(ownStore) + Polls(deliveries[..i]))
      {
        var _ := ProcessNext(deliveries[i]);
        PollsAdvance(worker.cfg, start, Opening(ownStore), deliveries, i);
      }
      assert deliveries[..|deliveries|] == deliveries;
      PlaySnoc(worker.cfg, start, Opening(ownStore) + Polls(deliveries), Call.Flush(outage));
      ok := Flush(outage);
    }
  }

  lemma NextObservation(before: seq<Observation>, all: seq<Observation>, i: nat)
    requires i < |all|
    ensures before + all[..i + 1] == before + all[..i] + [all[i]]
  {
  }

  lemma HoldKeepsPromises(views: seq<ViewDef>, b: Books, seen: seq<Observation>, m: Polled, now: Time)
    requires m.body.Json?
    ensures CommitsAreSettled(views, b) ==> CommitsAreSettled(views, Hold(b, m))
    ensures HeldAreObserved(views, b, seen) ==>
      HeldAreObserved(views, Hold(b, m), seen + ObservationsOf(views, m.body.event, now))
  {
    if CommitsAreSettled(views, b) {
      forall c | c in b.committed
        ensures Settled(views, Hold(b, m), c)
      {
        SettledStays(views, b, Hold(b, m), c);
      }
    }
    if HeldAreObserved(views, b, seen) {
      HoldKeepsObserved(views, b, seen, m, now);
    }
  }

  lemma OpeningPlays(cfg: Config, s: Session, ownStore: bool)
    ensures PlayAll(cfg, s, Opening(ownStore)) ==
      s.(books := s.books.(held := []), seen := if ownStore then [] else s.seen)
  {
    if ownStore {
      assert Opening(ownStore) == [NewStore] + [NewBatch] && [] + [NewStore] == [NewStore];
      PlaySnoc(cfg, s, [], NewStore);
      PlaySnoc(cfg, s, [NewStore], NewBatch);
    } else {
      assert [] + [NewBatch] == [NewBatch];
      PlaySnoc(cfg, s, [], NewBatch);
    }
  }

  lemma NoPolls()
    ensures Polls([]) == []
  {
  }

  lemma PollsAdvance(cfg: Config, s: Session, opening: seq<Call>, deliveries: seq<Delivery>, i: nat)
    requires i < |deliveries|
    ensures PlayAll(cfg, s, opening + Polls(deliveries[..i + 1]))
      == Play(cfg, PlayAll(cfg, s, opening + Polls(deliveries[..i])), Poll(deliveries[i]))
  {
    PlaySnoc(cfg, s, opening + Polls(deliveries[..i]), Poll(deliveries[i]));
    assert opening + Polls(deliveries[..i]) + [Poll(deliveries[i])] == opening + Polls(deliveries[..i + 1]);
  }

  lemma FreshBatchKeepsSettled(views: seq<ViewDef>, b: Books)
    ensures CommitsAreSettled(views, b) ==> CommitsAreSettled(views, b.(held := []))
  {
    forall c | CommitsAreSettled(views, b) && c in b.committed
      ensures Settled(views, b.(held := []), c)
    {
      SettledStays(views, b, b.(held := []), c);
    }
  }

  lemma DeadLetterSettles(views: seq<ViewDef>, b: Books, d: Delivery)
    requires CommitsAreSettled(views, b) && d.message.body.Junk?
    ensures CommitsAreSettled(views, AfterDeadLetter(b, d))
  {
    forall c | c in AfterDeadLetter(b, d).committed
      ensures Settled(views, AfterDeadLetter(b, d), c)
    {
      if c in b.committed {
        SettledStays(views, b, AfterDeadLetter(b, d), c);
      }
    }
  }

  // ---------------------------------------------------------------------------------------
  // What a round leaves
  // ---------------------------------------------------------------------------------------

  /** The messages among the deliveries that carry an update, in order. */
  function Updates(deliveries: seq<Delivery>): seq<Polled> {
    if deliveries == [] then []
    else
      var last := deliveries[|deliveries| - 1].message;
      Updates(deliveries[..|deliveries| - 1]) + if last.body.Json? then [last] else []
  }

  /** The other ones whose dead letter was acknowledged. */
  function GivenUp(deliveries: seq<Delivery>): seq<Polled> {
    if deliveries == [] then []
    else
      var last := deliveries[|deliveries| - 1];
      GivenUp(deliveries[..|deliveries| - 1]) + if last.message.body.Junk? &&
        last.dlq.Acked? then [last.message] else []
  }

  /** Every candidate of the update, in order. */
  function DueBy(views: seq<ViewDef>, d: Delivery): seq<Observation> {
    match d.message.body
    case Junk(_) => []
    case Json(u) => seq(|Wave(views, u)|, i requires 0 <= i < |Wave(views, u)| => Observation(Wave(views, u)[i], u,
                                                                                              d.now))
  }

  function Due(views: seq<ViewDef>, deliveries: seq<Delivery>): seq<Observation> {
    if deliveries == [] then []
    else Due(views, deliveries[..|deliveries| - 1]) + DueBy(views, deliveries[|deliveries| - 1])
  }

  ghost predicate HasPolled(views: seq<ViewDef>, before: Session, after: Session, deliveries: seq<Delivery>) {
    && after.books.held == before.books.held + Updates(deliveries)
    && after.books.committed == before.books.committed + GivenUp(deliveries)
    && after.seen == before.seen + Due(views, deliveries) && after.backend == before.backend
  }

  lemma OnePoll(cfg: Config, before: Session, s: Session, front: seq<Delivery>, d: Delivery)
    requires HasPolled(cfg.views, before, s, front)
    ensures HasPolled(cfg.views, before, Play(cfg, s, Poll(d)), front + [d])
  {
    hide Wave;
    assert (front + [d])[..|front|] == front;
    var after := Play(cfg, s, Poll(d));
    assert after.seen == s.seen + DueBy(cfg.views, d);
    hide Due, DueBy, Updates, GivenUp;
  }

  lemma {:induction false} PollsMean(cfg: Config, s: Session, opening: seq<Call>, deliveries: seq<Delivery>, n: nat)
    requires n <= |deliveries|
    ensures HasPolled(cfg.views, PlayAll(cfg, s, opening), PlayAll(cfg, s, opening + Polls(deliveries[..n])),
                   deliveries[..n])
  {
    hide Play, PlayAll, Polls, DueBy;
    if n == 0 {
      NoPolls();
      assert opening + [] == opening && deliveries[..0] == [];
    } else {
      hide HasPolled;
      PollsMean(cfg, s, opening, deliveries, n - 1);
      PollsAdvance(cfg, s, opening, deliveries, n - 1);
      OnePoll(cfg, PlayAll(cfg, s, opening), PlayAll(cfg, s, opening + Polls(deliveries[..n - 1])), deliveries[..n - 1],
              deliveries[n - 1]);
      assert deliveries[..n] == deliveries[..n - 1] + [deliveries[n - 1]];
    }
  }

  /** A round works on what every polled update makes due, and on what a given store held already. If the
      wave completes, every polled message is committed that carries an update, in order, after those that
      were given up; if not, none of them is. */
  lemma RoundMeans(cfg: Config, s: Session, ownStore: bool, deliveries: seq<Delivery>, outage: Option<Outage>)
    ensures var after := PlayAll(cfg, s, RoundOf(ownStore, deliveries, outage));
      var before := Session(s.books, (if ownStore then [] else s.seen) + Due(cfg.views, deliveries), s.backend);
      && after.seen == [] && after.backend == AfterWave(cfg, before, outage)
      && after.books.committed == s.books.committed + GivenUp(deliveries) +
           (if WaveCompletes(cfg, before, outage) then Updates(deliveries) else [])
  {
    OpeningPlays(cfg, s, ownStore);
    PollsMean(cfg, s, Opening(ownStore), deliveries, |deliveries|);
    assert deliveries[..|deliveries|] == deliveries;
    PlaySnoc(cfg, s, Opening(ownStore) + Polls(deliveries), Call.Flush(outage));
    hide PlayAll, Polls, Opening, WaveCompletes, AfterWave, Due, Updates, GivenUp;
    var polled := PlayAll(cfg, s, Opening(ownStore) + Polls(deliveries));
    SameWave(cfg, Session(s.books, (if ownStore then [] else s.seen) + Due(cfg.views, deliveries), s.backend), polled,
             outage);
    assert [] + Updates(deliveries) == Updates(deliveries);
  }

  /** A wave depends on the observations and the backend alone. */
  lemma SameWave(cfg: Config, a: Session, b: Session, outage: Option<Outage>)
    requires a.seen == b.seen && a.backend == b.backend
    ensures (WaveCompletes(cfg, a, outage) <==> WaveCompletes(cfg, b, outage)) &&
      AfterWave(cfg, a, outage) == AfterWave(cfg, b, outage)
  {
  }
}
