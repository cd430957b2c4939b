/** One partition of a topic and the consumer that owns it (consumer.py): a commit is cumulative, it
    covers every earlier offset, and a process that starts again begins at the committed position. */
module Partition {

  /** A poll handles the next offset. It may leave the message covered, it may commit, and the process
      may die with it; a restart can also come between two polls. */
  datatype Move = Poll(landed: bool, committed: bool, crashed: bool) | Restart

  /** The next offset to poll, the committed position, and the offsets that are covered. */
  datatype Consumer = Consumer(fetch: nat, position: nat, landed: set<nat>)

  const START := Consumer(0, 0, {})

  function Step(c: Consumer, m: Move): Consumer {
    match m
    case Restart => c.(fetch := c.position)
    case Poll(landed, committed, crashed) =>
      var position := if committed then c.fetch + 1 else c.position;
      Consumer(if crashed then position else c.fetch + 1, position, if landed then c.landed + {c.fetch} else c.landed)
  }

  function Run(moves: seq<Move>): (c: Consumer)
    ensures c.position <= c.fetch
  {
    if moves == [] then START else Step(Run(moves[..|moves| - 1]), moves[|moves| - 1])
  }

  lemma RunSnoc(before: seq<Move>, m: Move)
    ensures Run(before + [m]) == Step(Run(before), m)
  {
    assert (before + [m])[..|before|] == before;
  }

  /** The position has passed the offset, so it is never polled again, and nothing covers it. */
  predicate Lost(c: Consumer, o: nat) { o < c.position && o !in c.landed }

  /** Only what is covered is committed. */
  predicate Honest(moves: seq<Move>) { forall m :: m in moves && m.Poll? && m.committed ==> m.landed }

  predicate Resets(m: Move) { m.Restart? || m.crashed }

  function OffsetAt(moves: seq<Move>, n: nat): nat
    requires n <= |moves|
  {
    Run(moves[..n]).fetch
  }

  /** Some poll of the offset has left it covered. */
  ghost predicate LandedIn(moves: seq<Move>, o: nat) { exists j: nat :: LandsAt(moves, j, o) }

  predicate LandsAt(moves: seq<Move>, j: nat, o: nat) {
    j < |moves| && moves[j].Poll? && moves[j].landed && OffsetAt(moves, j) == o
  }

  /** Move `k` polled and the process has been running since. */
  predicate PolledSince(moves: seq<Move>, k: nat) {
    k < |moves| && moves[k].Poll? && forall j :: k <= j < |moves| ==> !Resets(moves[j])
  }

  /** The running process has polled the offset. */
  ghost predicate PolledIn(moves: seq<Move>, o: nat) { exists k: nat :: PollsAt(moves, k, o) }

  predicate PollsAt(moves: seq<Move>, k: nat, o: nat) { PolledSince(moves, k) && OffsetAt(moves, k) == o }

  /** Move `n` commits although the same process has polled an offset that no poll has covered. */
  ghost predicate Skips(moves: seq<Move>, n: nat) {
    && n < |moves| && moves[n].Poll? && moves[n].committed
    && exists o: nat :: PolledIn(moves[..n], o) && !LandedIn(moves[..n], o)
  }

  lemma OffsetInFront(before: seq<Move>, m: Move, n: nat)
    requires n <= |before|
    ensures OffsetAt(before + [m], n) == OffsetAt(before, n)
  {
    assert (before + [m])[..n] == before[..n];
  }

  lemma LandedSnoc(before: seq<Move>, m: Move, o: nat)
    ensures LandedIn(before + [m], o) <==> LandedIn(before, o) || (m.Poll? && m.landed && Run(before).fetch == o)
  {
    var moves := before + [m];
    assert before[..|before|] == before;
    forall j: nat | j <= |before|
      ensures OffsetAt(moves, j) == OffsetAt(before, j)
    {
      OffsetInFront(before, m, j);
    }
    if LandedIn(before, o) {
      var j: nat :| LandsAt(before, j, o);
      assert LandsAt(moves, j, o);
    }
    if m.Poll? && m.landed && Run(before).fetch == o {
      assert LandsAt(moves, |before|, o);
    }
    if LandedIn(moves, o) {
      var j: nat :| LandsAt(moves, j, o);
      assert j < |before| ==> LandsAt(before, j, o);
    }
  }

  lemma {:induction false} LandedShows(moves: seq<Move>, o: nat)
    ensures o in Run(moves).landed <==> LandedIn(moves, o)
  {
    if moves != [] {
      var before, m := moves[..|moves| - 1], moves[|moves| - 1];
      assert moves == before + [m];
      LandedShows(before, o);
      LandedSnoc(before, m, o);
    }
  }

  /** What lies between the position and the next offset was polled by the running process, and what
      the running process has polled lies before the next offset. */
  lemma {:induction false} PollsShow(moves: seq<Move>, o: nat)
    ensures Run(moves).position <= o < Run(moves).fetch ==> PolledIn(moves, o)
    ensures PolledIn(moves, o) ==> o < Run(moves).fetch
  {
    if moves != [] {
      var before, m := moves[..|moves| - 1], moves[|moves| - 1];
      assert moves == before + [m];
      PollsShow(before, o);
      PollsSnoc(before, m, o);
    }
  }

  lemma PollsAtSnoc(before: seq<Move>, m: Move, k: nat, o: nat)
    ensures PollsAt(before + [m], k, o) <==>
      !Resets(m) && (PollsAt(before, k, o) || (m.Poll? && k == |before| && Run(before).fetch == o))
  {
    var moves := before + [m];
    if k <= |before| {
      OffsetInFront(before, m, k);
      assert before[..|before|] == before;
    }
    assert moves[|before|] == m && forall j :: 0 <= j < |before| ==> moves[j] == before[j];
  }

  lemma PollsSnoc(before: seq<Move>, m: Move, o: nat)
    ensures PolledIn(before + [m], o) <==> !Resets(m) && (PolledIn(before, o) || Run(before).fetch == o)
  {
    hide PollsAt, Run;
    forall k: nat
      ensures PollsAt(before + [m], k, o) <==>
        !Resets(m) && (PollsAt(before, k, o) || (m.Poll? && k == |before| && Run(before).fetch == o))
    {
      PollsAtSnoc(before, m, k, o);
    }
    if !Resets(m) && Run(before).fetch == o {
      assert PollsAt(before + [m], |before|, o);
    }
  }

  // ---------------------------------------------------------------------------------------
  // When nothing is lost
  // ---------------------------------------------------------------------------------------

  /** What is lost stays lost, whatever is polled or restarted afterwards. */
  lemma {:induction false} LostForGood(moves: seq<Move>, more: seq<Move>, o: nat)
    requires Lost(Run(moves), o)
    ensures Lost(Run(moves + more), o)
  {
    if more == [] {
      assert moves + more == moves;
    } else {
      var front, m := more[..|more| - 1], more[|more| - 1];
      LostForGood(moves, front, o);
      assert moves + more == (moves + front) + [m];
      RunSnoc(moves + front, m);
    }
  }

  lemma LossIsSkip(before: seq<Move>, m: Move, o: nat)
    requires m.Poll? && m.committed ==> m.landed
    requires !Lost(Run(before), o)
    ensures Lost(Run(before + [m]), o) <==> m.Poll? && m.committed && PolledIn(before, o) && !LandedIn(before, o)
  {
    hide Run, LandedIn, PolledIn;
    RunSnoc(before, m);
    PollsShow(before, o);
    LandedShows(before, o);
  }

  ghost predicate NothingIsLost(moves: seq<Move>) { forall o: nat :: !Lost(Run(moves), o) }

  ghost predicate NothingIsSkipped(moves: seq<Move>) { forall n: nat :: !Skips(moves, n) }

  lemma SkipsSnoc(before: seq<Move>, m: Move)
    ensures NothingIsSkipped(before + [m]) <==> NothingIsSkipped(before) && !Skips(before + [m], |before|)
  {
    hide PolledIn, LandedIn;
    assert forall n: nat :: n <= |before| ==> (before + [m])[..n] == before[..n];
    assert forall n: nat :: n < |before| ==> (before + [m])[n] == before[n];
    assert forall n: nat :: n < |before| ==> (Skips(before + [m], n) <==> Skips(before, n));
  }

  lemma SkipsLast(before: seq<Move>, m: Move)
    ensures Skips(before + [m], |before|) <==>
      m.Poll? && m.committed && exists o: nat :: PolledIn(before, o) && !LandedIn(before, o)
  {
    hide PolledIn, LandedIn;
    assert (before + [m])[..|before|] == before;
  }

  /** The move loses an offset exactly if it skips one. */
  lemma LastMoveSkipsIff(before: seq<Move>, m: Move)
    requires (m.Poll? && m.committed ==> m.landed) && NothingIsLost(before)
    ensures NothingIsLost(before + [m]) <==> !Skips(before + [m], |before|)
  {
    SkipsLast(before, m);
    hide Skips, LandedIn, PolledIn, Run;
    forall o: nat
      ensures Lost(Run(before + [m]), o) <==> m.Poll? && m.committed && PolledIn(before, o) && !LandedIn(before, o)
    {
      LossIsSkip(before, m, o);
    }
  }

  /** Nothing is ever lost if and only if no poll commits after the same process has polled an offset
      that no poll has covered. */
  lemma {:induction false} NothingIsLostIff(moves: seq<Move>)
    requires Honest(moves)
    ensures NothingIsLost(moves) <==> NothingIsSkipped(moves)
  {
    if moves != [] {
      var before, m := moves[..|moves| - 1], moves[|moves| - 1];
      assert moves == before + [m];
      assert forall x :: x in before ==> x in moves;
      NothingIsLostIff(before);
      SkipsSnoc(before, m);
      if NothingIsLost(before) {
        LastMoveSkipsIff(before, m);
      } else {
        var o: nat :| Lost(Run(before), o);
        LostForGood(before, [m], o);
      }
    }
  }

  /** A process that stops whenever a poll did not cover its message loses nothing. */
  lemma StoppingLosesNothing(moves: seq<Move>)
    requires Honest(moves) && forall m :: m in moves && m.Poll? ==> m.landed || m.crashed
    ensures NothingIsLost(moves)
  {
    forall n: nat, o: nat | n <= |moves| && PolledIn(moves[..n], o)
      ensures LandedIn(moves[..n], o)
    {
      var k: nat :| PollsAt(moves[..n], k, o);
      assert moves[..n][k] == moves[k] && moves[k] in moves;
      assert LandsAt(moves[..n], k, o);
    }
    NothingIsLostIff(moves);
  }
}
