/** Commits of the propagation runner are cumulative per partition (consumer.py): which histories of
    calls commit past a message that is not finished. */
module RunnerOffsets {
  import opened Domain
  import opened Registry
  import opened Dlq
  import opened Propagation
  import opened Debounce
  import opened PropagationWorker
  import opened PropagationRunner
  import opened RunnerCalls

  /** The committed offset of the partition, where a restarted process begins: one past the message
      of the last commit. */
  function Position(b: Books): nat {
    if b.committed == [] then 0 else b.committed[|b.committed| - 1].offset + 1
  }

  /** A process polls a partition in order. */
  predicate InOrder(calls: seq<Call>) {
    forall i, j :: 0 <= i < j < |calls| && calls[i].Poll? && calls[j].Poll? ==>
      calls[i].delivery.message.offset < calls[j].delivery.message.offset
  }

  /** A restarted process would not see the message of poll `p` again, and it is not settled. */
  ghost predicate LeavesBehind(cfg: Config, start: WaveState, calls: seq<Call>, p: nat) {
    && p < |calls| && calls[p].Poll?
    && calls[p].delivery.message.offset < Position(Run(cfg, start, calls).books)
    && !Settled(cfg.views, Run(cfg, start, calls).books, calls[p].delivery.message)
  }

  ghost predicate NothingIsLeftBehind(cfg: Config, start: WaveState, calls: seq<Call>) {
    forall n, p: nat :: 0 <= n <= |calls| ==> !LeavesBehind(cfg, start, calls[..n], p)
  }

  /** The message of poll `p` has no dead letter, or has dependents that no completed wave recomputed. */
  ghost predicate Unfinished(cfg: Config, start: WaveState, calls: seq<Call>, p: nat) {
    && p < |calls| && calls[p].Poll?
    && match calls[p].delivery.message.body
       case Junk(_) => calls[p].delivery.dlq.Lost?
       case Json(u) => Wave(cfg.views, u) != [] && !IsRecomputed(cfg, start, calls, u)
  }

  /** Call `n` commits, the message of poll `q` last. */
  ghost predicate CommitsUpTo(cfg: Config, start: WaveState, calls: seq<Call>, n: nat, q: nat) {
    || (q == n < |calls| && calls[n].Poll? && calls[n].delivery.message.body.Junk? && calls[n].delivery.dlq.Acked?)
    || (Completed(cfg, start, calls, n) && IsLastHeld(cfg, start, calls[..n], q))
  }

  ghost predicate IsLastHeld(cfg: Config, start: WaveState, calls: seq<Call>, q: nat) {
    IsHeld(cfg, start, calls, q) && forall r :: q < r < |calls| ==> !IsHeld(cfg, start, calls, r)
  }

  /** Call `n` commits past a message that is still unfinished after it. */
  ghost predicate Overtakes(cfg: Config, start: WaveState, calls: seq<Call>, n: nat) {
    exists p: nat, q: nat :: PassesOver(cfg, start, calls, n, p, q)
  }

  ghost predicate PassesOver(cfg: Config, start: WaveState, calls: seq<Call>, n: nat, p: nat, q: nat) {
    n < |calls| && p <= q && CommitsUpTo(cfg, start, calls, n, q) && Unfinished(cfg, start, calls[..n + 1], p)
  }

  ghost predicate DeadLetteredAt(calls: seq<Call>, p: nat, m: Polled) {
    PolledAt(calls, p, m) && !calls[p].delivery.dlq.Lost?
  }

  lemma {:induction false} DeadLettersShow(cfg: Config, start: WaveState, calls: seq<Call>, m: Polled)
    requires m.body.Junk?
    ensures m in Run(cfg, start, calls).books.deadLetters <==>
      exists p: nat :: DeadLetteredAt(calls, p, m)
  {
    if calls != [] {
      var before, call := calls[..|calls| - 1], calls[|calls| - 1];
      assert calls == before + [call];
      DeadLettersShow(cfg, start, before, m);
      RunSnoc(cfg, start, before, call);
      hide Run, AfterWave, WaveCompletes;
      if p: nat :| DeadLetteredAt(before, p, m) {
        assert DeadLetteredAt(calls, p, m);
      }
      if p: nat :| DeadLetteredAt(calls, p, m) {
        assert p < |before| ==> DeadLetteredAt(before, p, m);
      }
      if call.Poll? && call.delivery.message == m && !call.delivery.dlq.Lost? {
        assert DeadLetteredAt(calls, |before|, m);
      }
    }
  }

  lemma FinishedIff(cfg: Config, start: WaveState, calls: seq<Call>, p: nat)
    requires InOrder(calls) && p < |calls| && calls[p].Poll?
    ensures Unfinished(cfg, start, calls, p) <==>
      !Settled(cfg.views, Run(cfg, start, calls).books, calls[p].delivery.message)
  {
    var m := calls[p].delivery.message;
    match m.body {
      case Json(u) => SettledIff(cfg, start, calls, m);
      case Junk(_) =>
        DeadLettersShow(cfg, start, calls, m);
        assert DeadLetteredAt(calls, p, m) <==> !calls[p].delivery.dlq.Lost?;
        assert forall r: nat :: DeadLetteredAt(calls, r, m) ==> r == p;
    }
  }

  /** The pending batch is in polling order: its last message is the last one held. */
  ghost predicate EndsWithLast(cfg: Config, start: WaveState, calls: seq<Call>, held: seq<Polled>) {
    if held == [] then forall p: nat :: !IsHeld(cfg, start, calls, p)
    else exists q: nat :: IsLastHeld(cfg, start, calls, q) && PolledAt(calls, q, held[|held| - 1])
  }

  lemma {:induction false} BatchEndsWithLast(cfg: Config, start: WaveState, calls: seq<Call>)
    ensures EndsWithLast(cfg, start, calls, Run(cfg, start, calls).books.held)
  {
    if calls != [] {
      var before, call := calls[..|calls| - 1], calls[|calls| - 1];
      assert calls == before + [call];
      BatchEndsWithLast(cfg, start, before);
      RunSnoc(cfg, start, before, call);
      hide Run, EndsWithLast;
      EndsWithLastSnoc(cfg, start, before, call);
    }
  }

  lemma HeldAfter(cfg: Config, s: Session, call: Call)
    ensures Play(cfg, s, call).books.held ==
      if Holds(call) then s.books.held + [call.delivery.message]
      else if call.NewBatch? || (call.Flush? && WaveCompletes(cfg, s, call.outage)) then [] else s.books.held
  {
    hide AfterWave, WaveCompletes;
  }

  lemma EndsWithLastSnoc(cfg: Config, start: WaveState, before: seq<Call>, call: Call)
    requires EndsWithLast(cfg, start, before, Run(cfg, start, before).books.held)
    ensures EndsWithLast(cfg, start, before + [call], Play(cfg, Run(cfg, start, before), call).books.held)
  {
    hide Run, Play, AfterWave, WaveCompletes, IsHeld;
    var calls, s := before + [call], Run(cfg, start, before);
    var held, held' := s.books.held, Play(cfg, s, call).books.held;
    HeldAfter(cfg, s, call);
    forall p: nat
      ensures IsHeld(cfg, start, calls, p) <==>
        || (p == |before| && Holds(call))
        || (IsHeld(cfg, start, before, p) && !call.NewBatch? &&
            !(call.Flush? && WaveCompletes(cfg, s, call.outage)))
      ensures IsHeld(cfg, start, before, p) ==> p < |before|
    {
      HeldSnoc(cfg, start, before, call, p);
      HeldIsPolled(cfg, start, before, p);
    }
    if Holds(call) {
      assert IsLastHeld(cfg, start, calls, |before|);
    } else if held' != [] {
      var q: nat :| IsLastHeld(cfg, start, before, q) && PolledAt(before, q, held[|held| - 1]);
      assert IsLastHeld(cfg, start, calls, q);
    }
  }

  lemma LastHeldIsUnique(cfg: Config, start: WaveState, calls: seq<Call>, q: nat, r: nat)
    requires IsLastHeld(cfg, start, calls, q) && IsLastHeld(cfg, start, calls, r)
    ensures q == r < |calls|
  {
  }

  /** The call commits up to the message of poll `q`, which moves the position there. */
  lemma CommitMoves(cfg: Config, start: WaveState, before: seq<Call>, call: Call, q: nat)
    requires CommitsUpTo(cfg, start, before + [call], |before|, q)
    ensures q <= |before| && (before + [call])[q].Poll?
    ensures Position(Run(cfg, start, before + [call]).books) == (before + [call])[q].delivery.message.offset + 1
  {
    var calls, n := before + [call], |before|;
    assert calls[..n] == before;
    RunSnoc(cfg, start, before, call);
    CompletedSnoc(cfg, start, before, call, n);
    hide Run, AfterWave, WaveCompletes, IsHeld, Completed;
    if call.Flush? {
      BatchEndsWithLast(cfg, start, before);
      HeldIsPolled(cfg, start, before, q);
      var held := Run(cfg, start, before).books.held;
      assert IsHeld(cfg, start, before, q);
      var r: nat :| IsLastHeld(cfg, start, before, r) && PolledAt(before, r, held[|held| - 1]);
      HeldIsPolled(cfg, start, before, r);
      LastHeldIsUnique(cfg, start, before, q, r);
      assert calls[q] == before[q];
    }
  }

  /** Any other call leaves the commits as they are. */
  lemma CallCommitsOrNot(cfg: Config, start: WaveState, before: seq<Call>, call: Call)
    ensures Run(cfg, start, before + [call]).books.committed == Run(cfg, start, before).books.committed
         || exists q: nat :: CommitsUpTo(cfg, start, before + [call], |before|, q)
  {
    var calls, n := before + [call], |before|;
    assert calls[..n] == before;
    RunSnoc(cfg, start, before, call);
    CompletedSnoc(cfg, start, before, call, n);
    hide Run, AfterWave, WaveCompletes, IsHeld, Completed;
    if call.Poll? {
      assert call.delivery.message.body.Junk? && call.delivery.dlq.Acked? ==> CommitsUpTo(cfg, start, calls, n, n);
    } else if call.Flush? && WaveCompletes(cfg, Run(cfg, start, before), call.outage) {
      BatchEndsWithLast(cfg, start, before);
      var held := Run(cfg, start, before).books.held;
      if held != [] {
        var q: nat :| IsLastHeld(cfg, start, before, q) && PolledAt(before, q, held[|held| - 1]);
        assert CommitsUpTo(cfg, start, calls, n, q);
      }
    }
  }

  ghost predicate WasPolled(calls: seq<Call>, m: Polled) { exists p: nat :: PolledAt(calls, p, m) }

  lemma {:induction false} BooksArePolled(cfg: Config, start: WaveState, calls: seq<Call>, m: Polled)
    requires m in Run(cfg, start, calls).books.held || m in Run(cfg, start, calls).books.committed
    ensures WasPolled(calls, m)
  {
    if calls != [] {
      var before, call := calls[..|calls| - 1], calls[|calls| - 1];
      assert calls == before + [call];
      RunSnoc(cfg, start, before, call);
      var s := Run(cfg, start, before);
      hide Run, AfterWave, WaveCompletes;
      if m in s.books.held || m in s.books.committed {
        BooksArePolled(cfg, start, before, m);
        var p: nat :| PolledAt(before, p, m);
        assert PolledAt(calls, p, m);
      } else {
        assert PolledAt(calls, |before|, m);
      }
    }
  }

  lemma BooksGrow(cfg: Config, s: Session, call: Call, m: Polled)
    requires Settled(cfg.views, s.books, m)
    ensures Settled(cfg.views, Play(cfg, s, call).books, m)
  {
    hide AfterWave, WaveCompletes;
    var after := Play(cfg, s, call).books;
    assert s.books.completed <= after.completed && s.books.deadLetters <= after.deadLetters;
    hide Play;
    SettledStays(cfg.views, s.books, after, m);
  }

  /** A message that is polled now lies at or beyond the position. */
  lemma PolledIsAhead(cfg: Config, start: WaveState, before: seq<Call>, call: Call)
    requires call.Poll? && InOrder(before + [call])
    ensures Position(Run(cfg, start, before).books) <= call.delivery.message.offset
  {
    var b, calls := Run(cfg, start, before).books, before + [call];
    hide Run;
    if b.committed != [] {
      var m := b.committed[|b.committed| - 1];
      BooksArePolled(cfg, start, before, m);
      var p: nat :| PolledAt(before, p, m);
      assert calls[p] == before[p] && calls[|before|] == call;
    }
  }

  lemma EarlierIffLower(calls: seq<Call>, p: nat, q: nat)
    requires InOrder(calls) && p < |calls| && q < |calls| && calls[p].Poll? && calls[q].Poll?
    ensures p <= q <==> calls[p].delivery.message.offset <= calls[q].delivery.message.offset
  {
  }

  lemma LeftBehindIsPassed(cfg: Config, start: WaveState, before: seq<Call>, call: Call, p: nat, q: nat)
    requires InOrder(before + [call]) && CommitsUpTo(cfg, start, before + [call], |before|, q)
    ensures LeavesBehind(cfg, start, before + [call], p) <==>
      PassesOver(cfg, start, before + [call], |before|, p, q)
  {
    hide Run, Settled, IsRecomputed, CommitsUpTo, Position, InOrder;
    var calls, n := before + [call], |before|;
    assert calls[..n + 1] == calls;
    CommitMoves(cfg, start, before, call, q);
    if p < |calls| && calls[p].Poll? {
      FinishedIff(cfg, start, calls, p);
      hide Unfinished;
      EarlierIffLower(calls, p, q);
    }
  }

  lemma CommitOvertakesIff(cfg: Config, start: WaveState, before: seq<Call>, call: Call, q: nat)
    requires InOrder(before + [call]) && CommitsUpTo(cfg, start, before + [call], |before|, q)
    ensures (forall p: nat :: !LeavesBehind(cfg, start, before + [call], p)) <==>
      !Overtakes(cfg, start, before + [call], |before|)
  {
    var calls, n := before + [call], |before|;
    forall p: nat, r: nat | PassesOver(cfg, start, calls, n, p, r)
      ensures LeavesBehind(cfg, start, calls, p)
    {
      LeftBehindIsPassed(cfg, start, before, call, p, r);
    }
    hide Run, CommitsUpTo, PassesOver;
    forall p: nat | LeavesBehind(cfg, start, calls, p)
      ensures PassesOver(cfg, start, calls, n, p, q)
    {
      LeftBehindIsPassed(cfg, start, before, call, p, q);
    }
  }

  lemma LastCallOvertakesIff(cfg: Config, start: WaveState, before: seq<Call>, call: Call)
    requires InOrder(before + [call]) && forall p: nat :: !LeavesBehind(cfg, start, before, p)
    ensures (forall p: nat :: !LeavesBehind(cfg, start, before + [call], p)) <==>
      !Overtakes(cfg, start, before + [call], |before|)
  {
    var calls, n := before + [call], |before|;
    if q: nat :| CommitsUpTo(cfg, start, calls, n, q) {
      CommitOvertakesIff(cfg, start, before, call, q);
    } else {
      CallCommitsOrNot(cfg, start, before, call);
      RunSnoc(cfg, start, before, call);
      hide Run, Settled, CommitsUpTo, Unfinished, Play;
      if call.Poll? {
        PolledIsAhead(cfg, start, before, call);
      }
      forall p: nat
        ensures !LeavesBehind(cfg, start, calls, p)
      {
        if p < n && calls[p].Poll? && Settled(cfg.views, Run(cfg, start, before).books, before[p].delivery.message) {
          BooksGrow(cfg, Run(cfg, start, before), call, before[p].delivery.message);
        }
        assert !LeavesBehind(cfg, start, before, p);
      }
    }
  }

  lemma OvertakesInFront(cfg: Config, start: WaveState, before: seq<Call>, call: Call, n: nat)
    ensures n < |before| ==> (Overtakes(cfg, start, before + [call], n) <==> Overtakes(cfg, start, before, n))
    ensures n > |before| ==> !Overtakes(cfg, start, before + [call], n)
    ensures n >= |before| ==> !Overtakes(cfg, start, before, n)
  {
    var calls := before + [call];
    if n < |before| {
      assert calls[..n] == before[..n] && calls[..n + 1] == before[..n + 1];
      CompletedSnoc(cfg, start, before, call, n);
      forall p: nat, q: nat
        ensures PassesOver(cfg, start, calls, n, p, q) <==> PassesOver(cfg, start, before, n, p, q)
      {
        hide Completed, IsLastHeld, Unfinished;
      }
    }
  }

  /** Within a process, commits never pass over an unfinished message if and only if no call commits
      while the message of an earlier poll has neither a dead letter nor all its dependents recomputed. */
  lemma {:induction false} NothingIsLeftBehindIff(cfg: Config, start: WaveState, calls: seq<Call>)
    requires InOrder(calls)
    ensures NothingIsLeftBehind(cfg, start, calls) <==> forall n: nat :: !Overtakes(cfg, start, calls, n)
  {
    if calls == [] {
      assert calls[..0] == [];
    } else {
      var before, call := calls[..|calls| - 1], calls[|calls| - 1];
      assert calls == before + [call];
      NothingIsLeftBehindIff(cfg, start, before);
      if forall p: nat :: !LeavesBehind(cfg, start, before, p) {
        LastCallOvertakesIff(cfg, start, before, call);
      }
      hide Run, LeavesBehind, Overtakes;
      assert forall n :: 0 <= n <= |before| ==> calls[..n] == before[..n];
      assert calls[..|calls|] == calls && before[..|before|] == before;
      forall n: nat
        ensures n != |before| ==> (Overtakes(cfg, start, calls, n) <==> Overtakes(cfg, start, before, n))
        ensures n == |before| ==> !Overtakes(cfg, start, before, n)
      {
        OvertakesInFront(cfg, start, before, call, n);
        OvertakesInFront(cfg, start, before[..|before|], call, n);
      }
    }
  }

  // ---------------------------------------------------------------------------------------
  // Failing runs
  // ---------------------------------------------------------------------------------------

  /** A message whose dead letter is acknowledged is committed at once, past the updates that are held
      back for the next wave. */
  lemma DeadLetterOvertakes(cfg: Config, start: WaveState, d: Delivery, bad: Delivery)
    requires d.message.body.Json? && Wave(cfg.views, d.message.body.event) != []
    requires bad.message.body.Junk? && bad.dlq.Acked? && d.message.offset < bad.message.offset
    ensures var calls := [Poll(d)] + [Poll(bad)];
      && InOrder(calls) && LeavesBehind(cfg, start, calls, 0)
  {
    var calls := [Poll(d)] + [Poll(bad)];
    assert [] + [Poll(d)] == [Poll(d)];
    RunSnoc(cfg, start, [], Poll(d));
    RunSnoc(cfg, start, [Poll(d)], Poll(bad));
    assert Run(cfg, start, []) == Session(NO_BOOKS, [], start);
    assert Wave(cfg.views, d.message.body.event)[0] in Wave(cfg.views, d.message.body.event);
  }

  function TwoRounds(d: Delivery, e: Delivery): seq<Call> {
    [Poll(d), Flush(Some(Outage(0, BeforeAppend)))] + [NewBatch] + [Poll(e)] + [Flush(None)]
  }

  /** A later round of the same process does not poll the messages of a failed round again: it commits
      past them. Every commit is justified all the same. */
  lemma NextRoundOvertakes(cfg: Config, start: WaveState, d: Delivery, e: Delivery)
    requires d.message.body.Json? && Wave(cfg.views, d.message.body.event) != []
    requires e.message.body.Json? && Wave(cfg.views, e.message.body.event) == []
    requires d.message.offset < e.message.offset
    ensures InOrder(TwoRounds(d, e)) && SettledThrough(cfg, start, TwoRounds(d, e))
    ensures LeavesBehind(cfg, start, TwoRounds(d, e), 0)
  {
    NothingLostHere(cfg, start, d, e);
    BooksOfTwoRounds(cfg, start, d, e);
    assert TwoRounds(d, e)[0] == Poll(d);
    hide Run, SettledThrough;
    assert Wave(cfg.views, d.message.body.event)[0] in Wave(cfg.views, d.message.body.event);
  }

  lemma BooksOfTwoRounds(cfg: Config, start: WaveState, d: Delivery, e: Delivery)
    requires d.message.body.Json? && Wave(cfg.views, d.message.body.event) != []
    requires e.message.body.Json? && Wave(cfg.views, e.message.body.event) == []
    ensures Run(cfg, start, TwoRounds(d, e)).books == Books([], [e.message], [], [])
  {
    var failed := [Poll(d), Flush(Some(Outage(0, BeforeAppend)))];
    var renewed := failed + [NewBatch];
    var polled := renewed + [Poll(e)];
    FailedRound(cfg, start, d);
    hide Run, WaveCompletes, AfterWave;
    RunSnoc(cfg, start, failed, NewBatch);
    RunSnoc(cfg, start, renewed, Poll(e));
    RunSnoc(cfg, start, polled, Flush(None));
    NothingToFlush(cfg, Run(cfg, start, polled));
  }

  lemma FailedRound(cfg: Config, start: WaveState, d: Delivery)
    requires d.message.body.Json? && Wave(cfg.views, d.message.body.event) != []
    ensures var failed := Run(cfg, start, [Poll(d), Flush(Some(Outage(0, BeforeAppend)))]);
      failed.books == Hold(NO_BOOKS, d.message) && failed.seen == []
  {
    var outage := Some(Outage(0, BeforeAppend));
    ReflushCommits(cfg, start, d);
    assert [Poll(d)] + [Flush(outage)] == [Poll(d), Flush(outage)];
    RunSnoc(cfg, start, [Poll(d)], Flush(outage));
  }

  lemma NothingLostHere(cfg: Config, start: WaveState, d: Delivery, e: Delivery)
    ensures SettledThrough(cfg, start, TwoRounds(d, e))
  {
    var calls := TwoRounds(d, e);
    assert calls[2].NewBatch? && HasNewBatch(calls, 1, 4);
    assert forall i, f :: 0 <= i < f < |calls| && Drains(calls[i]) && calls[f].Flush? ==> i == 1 && f == 4;
    hide HasNewBatch, Completed;
    assert RenewsBatches(cfg, start, calls);
    forall n: nat
      ensures !LosesWork(cfg, start, calls, n)
    {
      FreshBatchesLoseNothing(cfg, start, calls, n);
    }
    hide LosesWork, SettledThrough;
    CommitsStaySettledIff(cfg, start, calls);
  }
}
