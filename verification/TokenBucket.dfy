/** The non-blocking token bucket (batch_controls.py), over exact rationals. */
module TokenBucket {
  import opened Domain

  datatype Limits = Limits(rate: real, burst: real)

  predicate ValidLimits(l: Limits) { l.rate >= 0.0 && l.burst >= 0.0 }

  datatype State = State(tokens: real, last: real)

  datatype Call = Call(n: int, now: real)

  function MinReal(a: real, b: real): real { if a < b then a else b }

  function Refilled(l: Limits, s: State, now: real): State {
    var elapsed := if now - s.last > 0.0 then now - s.last else 0.0;
    State(MinReal(l.burst, s.tokens + elapsed * l.rate), now)
  }

  function GrantedBy(l: Limits, s: State, c: Call): nat
    requires s.tokens >= 0.0 && ValidLimits(l)
  {
    if c.n <= 0 then 0 else Min(c.n, Refilled(l, s, c.now).tokens.Floor)
  }

  function StateAfter(l: Limits, s: State, c: Call): State
    requires s.tokens >= 0.0 && ValidLimits(l)
  {
    if c.n <= 0 then s
    else
      var r := Refilled(l, s, c.now);
      r.(tokens := r.tokens - GrantedBy(l, s, c) as real)
  }

  class TokenBucketRateLimiter {
    const limits: Limits
    var tokens: real
    var last: real

    ghost predicate Valid()
      reads this
    {
      ValidLimits(limits) && 0.0 <= tokens <= limits.burst
    }

    constructor (limits: Limits, now: real)
      requires ValidLimits(limits)
      ensures Valid() && this.limits == limits && tokens == limits.burst && last == now
    {
      this.limits, tokens, last := limits, limits.burst, now;
    }

    method Refill(now: real)
      requires Valid()
      modifies this
      ensures Valid() && State(tokens, last) == Refilled(limits, State(old(tokens), old(last)), now)
    {
      var elapsed := if now - last > 0.0 then now - last else 0.0;
      last := now;
      tokens := MinReal(limits.burst, tokens + elapsed * limits.rate);
    }

    /** Grants as much of `n` as there are whole tokens: either all of it, or less than one token
        is left over. */
    method TryAcquire(n: int, now: real) returns (granted: nat)
      requires Valid()
      modifies this
      ensures Valid()
      ensures granted == GrantedBy(limits, State(old(tokens), old(last)), Call(n, now))
      ensures State(tokens, last) == StateAfter(limits, State(old(tokens), old(last)), Call(n, now))
      ensures n > 0 ==> granted == n || (granted < n && tokens < 1.0)
      ensures n <= 0 ==> granted == 0 && tokens == old(tokens) && last == old(last)
      ensures n > 0 ==> last == now
      ensures n > 0 ==>
        var full := old(tokens) + (if now > old(last) then now - old(last) else 0.0) * limits.rate;
        tokens + granted as real == if full < limits.burst then full else limits.burst
    {
      if n <= 0 {
        return 0;
      }
      Refill(now);
      granted := Min(n, tokens.Floor);
      tokens := tokens - granted as real;
    }
  }

  // ---------------------------------------------------------------------------------------
  // Any sequence of calls
  // ---------------------------------------------------------------------------------------

  /** The state after a sequence of calls and the total granted by them. */
  function Run(l: Limits, s: State, calls: seq<Call>): (r: (State, nat))
    requires 0.0 <= s.tokens <= l.burst && ValidLimits(l)
    ensures 0.0 <= r.0.tokens <= l.burst
  {
    if calls == [] then (s, 0)
    else
      var before, last := Run(l, s, calls[..|calls| - 1]), calls[|calls| - 1];
      (StateAfter(l, before.0, last), before.1 + GrantedBy(l, before.0, last))
  }

  /** A clock that does not go back, from `from` to `until`. */
  ghost predicate Nondecreasing(from: real, calls: seq<Call>, until: real) {
    && from <= until
    && (forall i :: 0 <= i < |calls| ==> from <= calls[i].now <= until)
    && forall i, j :: 0 <= i < j < |calls| ==> calls[i].now <= calls[j].now
  }

  /** The tokens a state could pay out up to an instant, were there no burst limit. */
  function Balance(l: Limits, s: State, until: real): real { s.tokens + l.rate * (until - s.last) }

  lemma Distribute(r: real, a: real, b: real, c: real)
    ensures r * (c - a) == r * (c - b) + r * (b - a)
  {
  }

  lemma StepIsPaidFor(l: Limits, s: State, c: Call, until: real)
    requires ValidLimits(l) && 0.0 <= s.tokens <= l.burst && s.last <= c.now <= until
    ensures Balance(l, StateAfter(l, s, c), until) + GrantedBy(l, s, c) as real <= Balance(l, s, until)
    ensures s.last <= StateAfter(l, s, c).last <= c.now
  {
    assert (c.now - s.last) * l.rate == l.rate * (c.now - s.last);
    Distribute(l.rate, s.last, c.now, until);
  }

  /** Conservation: with a clock that does not go back, what is granted and what is left were
      there at the start or have flowed in since. */
  lemma {:induction false} TokensAreConserved(l: Limits, s: State, calls: seq<Call>, until: real)
    requires ValidLimits(l) && 0.0 <= s.tokens <= l.burst && Nondecreasing(s.last, calls, until)
    ensures var (end, total) := Run(l, s, calls);
      && Balance(l, end, until) + total as real <= Balance(l, s, until)
      && s.last <= end.last <= until
  {
    if calls != [] {
      var front, last := calls[..|calls| - 1], calls[|calls| - 1];
      TokensAreConserved(l, s, front, until);
      TokensAreConserved(l, s, front, last.now);
      StepIsPaidFor(l, Run(l, s, front).0, last, until);
    }
  }

  lemma {:induction false} RunSplits(l: Limits, s: State, first: seq<Call>, second: seq<Call>)
    requires ValidLimits(l) && 0.0 <= s.tokens <= l.burst
    ensures Run(l, s, first + second).0 == Run(l, Run(l, s, first).0, second).0
    ensures Run(l, s, first + second).1 == Run(l, s, first).1 + Run(l, Run(l, s, first).0, second).1
  {
    if second == [] {
      assert first + second == first;
    } else {
      assert (first + second)[..|first + second| - 1] == first + second[..|second| - 1];
      RunSplits(l, s, first, second[..|second| - 1]);
    }
  }

  lemma NonNegative(a: real, b: real)
    requires a >= 0.0 && b >= 0.0
    ensures a * b >= 0.0
  {
  }

  /** What a full bucket can pay out in an interval. */
  function Allowance(l: Limits, from: real, until: real): real { Balance(l, State(l.burst, from), until) }

  lemma AllowanceIs(l: Limits, from: real, until: real)
    ensures Allowance(l, from, until) == l.burst + l.rate * (until - from)
  {
  }

  // ---------------------------------------------------------------------------------------
  // Any clock
  // ---------------------------------------------------------------------------------------

  function Rise(a: real, b: real): real { if a < b then b - a else 0.0 }

  /** How far a clock moved forward between its first and its last reading, all rises added up. */
  function Risen(readings: seq<real>): real {
    if |readings| <= 1 then 0.0
    else Risen(readings[..|readings| - 1]) + Rise(readings[|readings| - 2], readings[|readings| - 1])
  }

  /** One call for each reading of the clock. */
  ghost predicate Reads(calls: seq<Call>, readings: seq<real>) {
    |calls| == |readings| && forall i :: 0 <= i < |calls| ==> calls[i].now == readings[i]
  }

  lemma Scale(rate: real, a: real, b: real)
    requires rate >= 0.0 && a <= b
    ensures rate * a <= rate * b
  {
  }

  lemma SplitRate(rate: real, a: real, b: real)
    ensures rate * (a + b) == rate * a + rate * b
  {
  }

  /** Whether some call has looked at the clock: a call for nothing does not. */
  predicate Started(calls: seq<Call>) { exists c :: c in calls && c.n > 0 }

  lemma RisenSnoc(readings: seq<real>, c: real)
    requires readings != []
    ensures Risen(readings + [c]) == Risen(readings) + Rise(readings[|readings| - 1], c)
  {
    hide Rise;
    var all := readings + [c];
    assert all[..|readings|] == readings && all[|readings|] == c && all[|readings| - 1] == readings[|readings| - 1];
  }

  lemma {:induction false} RisenIsPositive(readings: seq<real>)
    ensures Risen(readings) >= 0.0
  {
    if |readings| > 1 {
      RisenIsPositive(readings[..|readings| - 1]);
    }
  }

  lemma StepGives(l: Limits, s: State, c: Call)
    requires ValidLimits(l) && 0.0 <= s.tokens <= l.burst && c.n > 0
    ensures var s' := StateAfter(l, s, c); var paid := s'.tokens + GrantedBy(l, s, c) as real;
      && s'.last == c.now && paid <= l.burst && paid <= s.tokens + l.rate * Rise(s.last, c.now)
  {
    assert (c.now - s.last) * l.rate == l.rate * (c.now - s.last);
    assert 0.0 * l.rate == l.rate * 0.0;
  }

  /** What is still owed to a bucket at one reading covers what is owed to it at the next. */
  lemma CarryOver(rate: real, burst: real, had: real, last: real, c: real, c': real, risen: real)
    requires rate >= 0.0 && had + rate * Rise(last, c) <= burst + rate * risen
    ensures had + rate * Rise(last, c') <= burst + rate * (risen + Rise(c, c'))
  {
    Scale(rate, Rise(last, c'), Rise(last, c) + Rise(c, c'));
    SplitRate(rate, Rise(last, c), Rise(c, c'));
    SplitRate(rate, risen, Rise(c, c'));
  }

  ghost predicate PaidFor(l: Limits, end: State, total: nat, c: real, risen: real) {
    end.tokens + total as real + l.rate * Rise(end.last, c) <= l.burst + l.rate * risen
  }

  lemma PaidAfterStep(l: Limits, s: State, total: nat, c: Call, risen: real)
    requires ValidLimits(l) && 0.0 <= s.tokens <= l.burst && c.n > 0 && PaidFor(l, s, total, c.now, risen)
    ensures PaidFor(l, StateAfter(l, s, c), total + GrantedBy(l, s, c), c.now, risen)
  {
    StepGives(l, s, c);
    hide StateAfter, GrantedBy;
    assert l.rate * Rise(c.now, c.now) == 0.0;
  }

  lemma PaidAfterFirst(l: Limits, s: State, c: Call, risen: real)
    requires ValidLimits(l) && 0.0 <= s.tokens <= l.burst && c.n > 0 && risen >= 0.0
    ensures PaidFor(l, StateAfter(l, s, c), GrantedBy(l, s, c), c.now, risen)
  {
    StepGives(l, s, c);
    hide StateAfter, GrantedBy;
    NonNegative(l.rate, risen);
    assert l.rate * Rise(c.now, c.now) == 0.0;
  }

  /** What the calls so far amount to, the last one at reading `c`, after the clock has risen by `risen`. */
  ghost predicate Accounts(l: Limits, s: State, started: bool, end: State, total: nat, c: real, risen: real) {
    if started then PaidFor(l, end, total, c, risen) else end == s && total == 0
  }

  lemma AccountsStep(l: Limits, s: State, started: bool, s': State, total: nat, c: real, risen: real, last: Call)
    requires ValidLimits(l) && 0.0 <= s'.tokens <= l.burst && risen >= 0.0
    requires Accounts(l, s, started, s', total, c, risen)
    ensures Accounts(l, s, started || last.n > 0, StateAfter(l, s', last), total + GrantedBy(l, s', last), last.now,
                     risen + Rise(c, last.now))
  {
    hide PaidFor, StateAfter, GrantedBy;
    if started {
      PaidLater(l, s', total, c, last.now, risen);
      if last.n > 0 {
        PaidAfterStep(l, s', total, last, risen + Rise(c, last.now));
      } else {
        NothingForNothing(l, s', last);
      }
    } else if last.n > 0 {
      PaidAfterFirst(l, s', last, risen + Rise(c, last.now));
    } else {
      NothingForNothing(l, s', last);
    }
  }

  lemma AccountsFirst(l: Limits, s: State, first: Call)
    requires ValidLimits(l) && 0.0 <= s.tokens <= l.burst
    ensures Accounts(l, s, first.n > 0, StateAfter(l, s, first), GrantedBy(l, s, first), first.now, 0.0)
  {
    hide PaidFor, StateAfter, GrantedBy;
    if first.n > 0 {
      PaidAfterFirst(l, s, first, 0.0);
    } else {
      NothingForNothing(l, s, first);
    }
  }

  lemma ReadsSnoc(calls: seq<Call>, readings: seq<real>)
    requires calls != [] && Reads(calls, readings)
    ensures var front, last := calls[..|calls| - 1], calls[|calls| - 1];
      && Reads(front, readings[..|readings| - 1]) && readings == readings[..|readings| - 1] + [last.now]
      && (Started(calls) <==> Started(front) || last.n > 0)
  {
    assert calls == calls[..|calls| - 1] + [calls[|calls| - 1]];
  }

  lemma RisenOfOne(reading: real)
    ensures Risen([reading]) == 0.0
  {
  }

  /** Until the clock is looked at nothing is granted; from then on everything granted and left is
      paid for by the burst and by the rises of the clock since its first reading. */
  lemma {:induction false} RisesPayForGrants(l: Limits, s: State, calls: seq<Call>, readings: seq<real>)
    requires ValidLimits(l) && 0.0 <= s.tokens <= l.burst && Reads(calls, readings)
    ensures var (end, total) := Run(l, s, calls);
      if Started(calls) then PaidFor(l, end, total, readings[|readings| - 1], Risen(readings))
      else end == s && total == 0
  {
    hide PaidFor, StateAfter, GrantedBy, Risen, Rise;
    if calls != [] {
      var front, last := calls[..|calls| - 1], calls[|calls| - 1];
      var before := readings[..|readings| - 1];
      ReadsSnoc(calls, readings);
      hide Started;
      RisesPayForGrants(l, s, front, before);
      var (s', total) := Run(l, s, front);
      if front == [] {
        AccountsFirst(l, s, last);
        RisenOfOne(last.now);
        NothingStarted();
      } else {
        RisenIsPositive(before);
        RisenSnoc(before, last.now);
        AccountsStep(l, s, Started(front), s', total, before[|before| - 1], Risen(before), last);
      }
    }
  }

  lemma NothingStarted()
    ensures !Started([])
  {
  }

  lemma NothingForNothing(l: Limits, s: State, c: Call)
    requires ValidLimits(l) && 0.0 <= s.tokens && c.n <= 0
    ensures StateAfter(l, s, c) == s && GrantedBy(l, s, c) == 0
  {
  }

  lemma PaidLater(l: Limits, s: State, total: nat, c: real, c': real, risen: real)
    requires ValidLimits(l) && PaidFor(l, s, total, c, risen)
    ensures PaidFor(l, s, total, c', risen + Rise(c, c'))
  {
    CarryOver(l.rate, l.burst, s.tokens + total as real, s.last, c, c', risen);
  }

  /** Whatever the clock does, the grants stay within the burst plus the rate times the rises of
      the clock since its first reading. */
  lemma EveryClockIsLimited(l: Limits, s: State, calls: seq<Call>, readings: seq<real>)
    requires ValidLimits(l) && 0.0 <= s.tokens <= l.burst && Reads(calls, readings)
    ensures Run(l, s, calls).1 as real <= l.burst + l.rate * Risen(readings)
  {
    hide PaidFor, Run, Risen, Rise;
    var r := Run(l, s, calls);
    RisesPayForGrants(l, s, calls, readings);
    if Started(calls) {
      PaidIsBounded(l, r.0, r.1, readings[|readings| - 1], Risen(readings));
    } else {
      RisenIsPositive(readings);
      NothingIsBounded(l, Risen(readings));
    }
  }

  lemma NothingIsBounded(l: Limits, risen: real)
    requires ValidLimits(l) && risen >= 0.0
    ensures 0.0 <= l.burst + l.rate * risen
  {
    NonNegative(l.rate, risen);
  }

  lemma PaidIsBounded(l: Limits, end: State, total: nat, c: real, risen: real)
    requires ValidLimits(l) && 0.0 <= end.tokens && PaidFor(l, end, total, c, risen)
    ensures total as real <= l.burst + l.rate * risen
  {
    NonNegative(l.rate, Rise(end.last, c));
  }

  /** On a clock that does not go back the rises are the elapsed time. */
  lemma {:induction false} RisesOfAForwardClock(readings: seq<real>)
    requires readings != [] && forall i, j :: 0 <= i < j < |readings| ==> readings[i] <= readings[j]
    ensures Risen(readings) == readings[|readings| - 1] - readings[0]
  {
    if |readings| > 1 {
      RisesOfAForwardClock(readings[..|readings| - 1]);
    }
  }

  function Readings(calls: seq<Call>): seq<real> {
    seq(|calls|, i requires 0 <= i < |calls| => calls[i].now)
  }

  lemma ForwardClockRises(from: real, calls: seq<Call>, until: real)
    requires Nondecreasing(from, calls, until)
    ensures Reads(calls, Readings(calls)) && Risen(Readings(calls)) <= until - from
  {
    if calls != [] {
      RisesOfAForwardClock(Readings(calls));
    }
  }

  /** From any reachable state and with a clock that does not go back, the total granted up to an
      instant is at most the burst plus what the rate allows for the elapsed time. */
  lemma GrantsAreLimited(l: Limits, s: State, window: seq<Call>, until: real)
    requires ValidLimits(l) && 0.0 <= s.tokens <= l.burst && Nondecreasing(s.last, window, until)
    ensures Run(l, s, window).1 as real <= Allowance(l, s.last, until)
  {
    hide Run, Allowance, Risen, Nondecreasing, Reads, Readings;
    ForwardClockRises(s.last, window, until);
    EveryClockIsLimited(l, s, window, Readings(window));
    Scale(l.rate, Risen(Readings(window)), until - s.last);
    AllowanceIs(l, s.last, until);
  }

  /** The rate limit: over any window of any sequence of calls on a bucket, the grants of the
      window stay within the burst plus the rate times the time since the last call before it. */
  lemma WindowIsLimited(l: Limits, s: State, before: seq<Call>, window: seq<Call>, until: real)
    requires ValidLimits(l) && 0.0 <= s.tokens <= l.burst && Nondecreasing(s.last, before + window, until)
    ensures var from := Run(l, s, before).0.last;
      (Run(l, s, before + window).1 - Run(l, s, before).1) as real <= Allowance(l, from, until)
  {
    var s' := Run(l, s, before).0;
    RunSplits(l, s, before, window);
    assert forall i :: 0 <= i < |before| ==> (before + window)[i] == before[i];
    assert forall i :: 0 <= i < |window| ==> (before + window)[|before| + i] == window[i];
    forall i | 0 <= i < |window|
      ensures s'.last <= window[i].now
    {
      TokensAreConserved(l, s, before, window[i].now);
    }
    TokensAreConserved(l, s, before, until);
    GrantsAreLimited(l, s', window, until);
  }

  /** The limit of an interval, over every bucket, every fill level and every list of requests. */
  ghost predicate KeepsLimit(from: real, readings: seq<real>, until: real) {
    forall l, tokens, calls :: ValidLimits(l) && 0.0 <= tokens <= l.burst && Reads(calls, readings) ==>
      Run(l, State(tokens, from), calls).1 as real <= Allowance(l, from, until)
  }

  /** A request for every whole token of a bucket, at each reading. */
  function Greedy(readings: seq<real>, n: int): seq<Call> {
    seq(|readings|, i requires 0 <= i < |readings| => Call(n, readings[i]))
  }

  /** Everything that the burst and the rises have paid in was granted, but for a fraction of a token. */
  ghost predicate Collected(l: Limits, end: State, total: nat, c: real, risen: real) {
    end.last == c && 0.0 <= end.tokens < 1.0 && end.tokens + total as real == l.burst + l.rate * risen
  }

  /** A bucket whose burst is never in the way. */
  ghost predicate Roomy(l: Limits, n: int, risen: real) {
    ValidLimits(l) && l.burst == l.burst.Floor as real && n as real > l.burst && l.rate * risen + 1.0 <= l.burst
  }

  lemma {:induction false} GreedyGetsAll(l: Limits, from: real, readings: seq<real>, n: int)
    requires readings != [] && Roomy(l, n, Risen(readings))
    ensures var (end, total) := Run(l, State(l.burst, from), Greedy(readings, n));
      Collected(l, end, total, readings[|readings| - 1], Risen(readings))
  {
    var s, calls := State(l.burst, from), Greedy(readings, n);
    var front, c := readings[..|readings| - 1], readings[|readings| - 1];
    assert calls[..|calls| - 1] == Greedy(front, n);
    if front == [] {
      assert Run(l, s, Greedy(front, n)) == (s, 0);
      FirstIsCollected(l, s, calls[0]);
    } else {
      assert readings == front + [c];
      RisenSnoc(front, c);
      RisenIsPositive(front);
      RoomyBefore(l, n, Risen(front), Rise(front[|front| - 1], c));
      GreedyGetsAll(l, from, front, n);
      var (s', total) := Run(l, s, Greedy(front, n));
      NextIsCollected(l, s', total, calls[|calls| - 1], front[|front| - 1], Risen(front));
    }
  }

  lemma RoomyBefore(l: Limits, n: int, risen: real, rise: real)
    requires Roomy(l, n, risen + rise) && risen >= 0.0 && rise >= 0.0
    ensures Roomy(l, n, risen)
  {
    BurstCovers(l.rate, l.burst, risen, rise);
  }

  lemma FirstIsCollected(l: Limits, s: State, c: Call)
    requires Roomy(l, c.n, 0.0) && s.tokens == l.burst
    ensures Collected(l, StateAfter(l, s, c), GrantedBy(l, s, c), c.now, 0.0)
  {
    StepFromFull(l, s, c);
    assert l.rate * 0.0 == 0.0;
  }

  lemma NextIsCollected(l: Limits, s: State, total: nat, c: Call, before: real, risen: real)
    requires Collected(l, s, total, before, risen) && risen >= 0.0 && Roomy(l, c.n, risen + Rise(before, c.now))
    ensures Collected(l, StateAfter(l, s, c), total + GrantedBy(l, s, c), c.now, risen + Rise(before, c.now))
  {
    BurstCovers(l.rate, l.burst, risen, Rise(before, c.now));
    UncappedFits(l, s, Rise(before, c.now));
    StepUncapped(l, s, c);
    hide StateAfter, GrantedBy, Rise;
  }

  lemma UncappedFits(l: Limits, s: State, rise: real)
    requires s.tokens < 1.0 && l.rate * rise + 1.0 <= l.burst
    ensures s.tokens + l.rate * rise <= l.burst
  {
  }

  lemma BurstCovers(rate: real, burst: real, risen: real, rise: real)
    requires rate >= 0.0 && rise >= 0.0 && rate * (risen + rise) + 1.0 <= burst && risen >= 0.0
    ensures rate * risen + 1.0 <= burst && rate * rise + 1.0 <= burst
    ensures rate * (risen + rise) == rate * risen + rate * rise
  {
    SplitRate(rate, risen, rise);
    NonNegative(rate, risen);
    NonNegative(rate, rise);
  }

  lemma StepFromFull(l: Limits, s: State, c: Call)
    requires ValidLimits(l) && s.tokens == l.burst && l.burst == l.burst.Floor as real && c.n as real > l.burst
    ensures StateAfter(l, s, c) == State(0.0, c.now) && GrantedBy(l, s, c) as real == l.burst
  {
    NonNegative(if c.now - s.last > 0.0 then c.now - s.last else 0.0, l.rate);
  }

  lemma StepUncapped(l: Limits, s: State, c: Call)
    requires ValidLimits(l) && 0.0 <= s.tokens < 1.0 && c.n as real > l.burst
    requires s.tokens + l.rate * Rise(s.last, c.now) <= l.burst
    ensures var s' := StateAfter(l, s, c);
      && s'.last == c.now && 0.0 <= s'.tokens < 1.0
      && s'.tokens + GrantedBy(l, s, c) as real == s.tokens + l.rate * Rise(s.last, c.now)
  {
    assert (c.now - s.last) * l.rate == l.rate * (c.now - s.last);
    assert 0.0 * l.rate == l.rate * 0.0;
  }

  /** The rate limit of an interval holds for every bucket and all requests if and only if the
      clock does not rise, all rises added up, by more than the length of the interval. */
  lemma LimitHoldsIff(from: real, readings: seq<real>, until: real)
    requires readings != [] && from <= until
    ensures KeepsLimit(from, readings, until) <==> Risen(readings) <= until - from
  {
    if Risen(readings) <= until - from {
      forall l, tokens, calls | ValidLimits(l) && 0.0 <= tokens <= l.burst && Reads(calls, readings)
        ensures Run(l, State(tokens, from), calls).1 as real <= Allowance(l, from, until)
      {
        StaysWithin(l, tokens, from, until, calls, readings);
      }
    } else {
      var l, n := LimitIsBroken(from, readings, until);
      assert Reads(Greedy(readings, n), readings);
    }
  }

  lemma StaysWithin(l: Limits, tokens: real, from: real, until: real, calls: seq<Call>, readings: seq<real>)
    requires ValidLimits(l) && 0.0 <= tokens <= l.burst && Reads(calls, readings) && Risen(readings) <= until - from
    ensures Run(l, State(tokens, from), calls).1 as real <= Allowance(l, from, until)
  {
    hide Run, Risen, Reads, Allowance;
    EveryClockIsLimited(l, State(tokens, from), calls, readings);
    AllowanceCovers(l, Run(l, State(tokens, from), calls).1 as real, Risen(readings), from, until);
  }

  lemma AllowanceCovers(l: Limits, total: real, risen: real, from: real, until: real)
    requires ValidLimits(l) && risen <= until - from && total <= l.burst + l.rate * risen
    ensures total <= Allowance(l, from, until)
  {
    Scale(l.rate, risen, until - from);
  }

  /** A bucket whose rate pays two tokens for the rises beyond `length`, and whose burst is roomy. */
  lemma ChooseBucket(risen: real, length: real) returns (l: Limits, n: int)
    requires 0.0 <= length < risen
    ensures Roomy(l, n, risen) && ValidLimits(l) && l.rate * (risen - length) == 2.0
  {
    var gap := risen - length;
    var rate := 2.0 / gap;
    NonNegative(rate, risen);
    var burst := (rate * risen).Floor + 2;
    l, n := Limits(rate, burst as real), burst + 1;
  }

  lemma CollectedExceeds(l: Limits, end: State, total: nat, c: real, risen: real, from: real, until: real)
    requires Collected(l, end, total, c, risen) && l.rate * (risen - (until - from)) == 2.0
    ensures total as real > Allowance(l, from, until)
  {
    AllowanceIs(l, from, until);
    hide Allowance;
    SplitRate(l.rate, until - from, risen - (until - from));
    assert until - from + (risen - (until - from)) == risen;
  }

  /** A bucket and requests that exceed the limit of the interval. */
  lemma LimitIsBroken(from: real, readings: seq<real>, until: real) returns (l: Limits, n: int)
    requires readings != [] && from <= until && Risen(readings) > until - from
    ensures ValidLimits(l)
    ensures Run(l, State(l.burst, from), Greedy(readings, n)).1 as real > Allowance(l, from, until)
  {
    hide Run, Risen, Greedy, Allowance, Collected, Roomy;
    l, n := ChooseBucket(Risen(readings), until - from);
    GreedyGetsAll(l, from, readings, n);
    var r := Run(l, State(l.burst, from), Greedy(readings, n));
    CollectedExceeds(l, r.0, r.1, readings[|readings| - 1], Risen(readings), from, until);
  }

  /** A clock that goes back and forth between two instants breaks the limit: a full bucket of one
      token grants three in an interval that allows two. */
  lemma BackwardClockBreaksTheLimit()
    ensures var l, calls := Limits(1.0, 1.0), Greedy([0.0, 1.0, 0.0, 1.0], 1);
      Run(l, State(1.0, 0.0), calls).1 == 3 && Run(l, State(1.0, 0.0), calls).1 as real > Allowance(l, 0.0, 1.0)
  {
    var l, s := Limits(1.0, 1.0), State(1.0, 0.0);
    var calls := Greedy([0.0, 1.0, 0.0, 1.0], 1);
    assert calls[..1] == [Call(1, 0.0)] && calls[..1][..0] == [];
    assert calls[..2][..1] == calls[..1] && calls[..3][..2] == calls[..2] && calls == calls[..4];
    assert Run(l, s, calls[..1]) == (State(0.0, 0.0), 1);
    assert Run(l, s, calls[..2]) == (State(0.0, 1.0), 2);
    assert Run(l, s, calls[..3]) == (State(0.0, 0.0), 2);
  }
}
