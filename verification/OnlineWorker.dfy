/** The online worker (online_worker.py) and its runner (online_worker_runner.py): the order of
    the effects of one delivery, and any number of workers under crashes and redelivery. */
module OnlineWorker {
  import opened Domain
  import opened Registry
  import opened Dlq
  import opened WriteGuard

  datatype Event =
    | Event(requestId: string, entity: EntityKey, view: ViewRef, features: seq<string>, expiresAt: Option<Time>)

  type Request = Message<Event>

  /** What the compute core answers: values, a deterministic error, or an exception of another kind. */
  datatype Computation = Computed(results: seq<FeatureResult>) | ComputeError | UnexpectedException

  /** The outcome of every fallible step of one delivery. */
  datatype Environment = Environment(
    now: Time, computation: Computation, onlineFailsAfter: Option<nat>,
    offline: Publish, completion: Publish, resultStore: Publish, retry: Publish, dlq: Publish, statusUp: bool)

  type Outcomes = map<FeatureRef, Decision>

  datatype Completion = DeadlineExpired | Finished(written: set<FeatureRef>, onlineStatus: Decision)

  datatype RequestStatus = Running | Completed(completion: Completion) | Failed

  datatype Effect =
    | WroteOnline(view: ViewRef, result: FeatureResult)
    | PublishedOffline(event: Event, results: seq<FeatureResult>)
    | PublishedCompletion(event: Event, completion: Completion)
    | StoredResult(event: Event, results: seq<FeatureResult>)
    | Republished(copy: Request)
    | DeadLettered(body: Body<Event>, attempts: Option<int>)
    | Committed
    | SetStatus(requestId: string, status: RequestStatus)

  datatype Status =
    | Ok | Expired | DeserializationFailed | ResultStoreFailed | RetryRepublished | RetryPublishFailed
    | DeadLetter | DlqPublishFailed | ComputeFailed | UnexpectedError | OnlineWriteFailed | PublishFailed

  // ---------------------------------------------------------------------------------------
  // The effects of one delivery, in order
  // ---------------------------------------------------------------------------------------

  predicate PastDeadline(e: Event, now: Time) { e.expiresAt.Some? && now >= e.expiresAt.value }

  function FinishedWith(outcomes: Outcomes): Completion {
    Finished((set ref | ref in outcomes && Stores(outcomes[ref])), AggregateOnlineStatus(outcomes.Values))
  }

  function Landed(p: Publish, e: Effect): seq<Effect> { if p.Lost? then [] else [e] }

  function OnlineWrites(view: ViewRef, results: seq<FeatureResult>): seq<Effect> {
    seq(|results|, i requires 0 <= i < |results| => WroteOnline(view, results[i]))
  }

  /** The results that reach the online store before it fails, if it fails. */
  function Reached(f: Environment, results: seq<FeatureResult>): seq<FeatureResult> {
    if f.onlineFailsAfter.Some? && f.onlineFailsAfter.value < |results| then results[..f.onlineFailsAfter.value]
      else results
  }

  function HandlerStatus(e: Event, f: Environment): Status {
    if PastDeadline(e, f.now) then (if f.completion.Acked? then Expired else PublishFailed)
    else match f.computation
      case ComputeError => ComputeFailed
      case UnexpectedException => UnexpectedError
      case Computed(results) =>
        if f.onlineFailsAfter.Some? then OnlineWriteFailed
        else if f.offline.Acked? && f.completion.Acked? then Ok else PublishFailed
  }

  function HandlerTrace(e: Event, f: Environment, outcomes: Outcomes): seq<Effect> {
    if PastDeadline(e, f.now) then Landed(f.completion, PublishedCompletion(e, DeadlineExpired))
    else if !f.computation.Computed? then []
    else
      var results := f.computation.results;
      OnlineWrites(e.view, Reached(f, results)) +
      if f.onlineFailsAfter.Some? then []
      else Landed(f.offline, PublishedOffline(e, results)) +
           if f.offline.Acked? then Landed(f.completion, PublishedCompletion(e, FinishedWith(outcomes))) else []
  }

  function StatusUpdate(f: Environment, e: Event, status: RequestStatus): seq<Effect> {
    if f.statusUp then [SetStatus(e.requestId, status)] else []
  }

  /** Commit only what was acknowledged. */
  function CommitIf(p: Publish): seq<Effect> { if p.Acked? then [Committed] else [] }

  function RetryTrace(m: Request, e: Event, maxAttempts: int, f: Environment): seq<Effect> {
    if MayRetry(m, maxAttempts) then
      Landed(f.retry, Republished(RetryCopy(m))) + CommitIf(f.retry) +
      if f.retry.Acked? then StatusUpdate(f, e, Running) else []
    else
      Landed(f.dlq, DeadLettered(m.body, Some(NextAttempt(m.headers)))) + CommitIf(f.dlq) +
      if f.dlq.Acked? then StatusUpdate(f, e, Failed) else []
  }

  function ConclusionTrace(m: Request, e: Event, maxAttempts: int, f: Environment, outcomes: Outcomes): seq<Effect> {
    match HandlerStatus(e, f)
    case Ok =>
      Landed(f.resultStore, StoredResult(e, if f.computation.Computed? then f.computation.results else [])) +
      CommitIf(f.resultStore) +
      if f.resultStore.Acked? then StatusUpdate(f, e, Completed(FinishedWith(outcomes))) else []
    case Expired => [Committed] + StatusUpdate(f, e, Completed(DeadlineExpired))
    case ComputeFailed => RetryTrace(m, e, maxAttempts, f)
    case UnexpectedError => RetryTrace(m, e, maxAttempts, f)
    case _ => []
  }

  /** Everything one uninterrupted delivery of `m` does; `outcomes` is what the write guard answered. */
  function Trace(m: Request, maxAttempts: int, f: Environment, outcomes: Outcomes): seq<Effect> {
    match m.body
    case Junk(_) => Landed(f.dlq, DeadLettered(m.body, None)) + CommitIf(f.dlq)
    case Json(e) => EventTrace(m, e, maxAttempts, f, outcomes)
  }

  function EventTrace(m: Request, e: Event, maxAttempts: int, f: Environment, outcomes: Outcomes): seq<Effect> {
    StatusUpdate(f, e, Running) + HandlerTrace(e, f, outcomes) + ConclusionTrace(m, e, maxAttempts, f, outcomes)
  }

  // ---------------------------------------------------------------------------------------
  // The worker
  // ---------------------------------------------------------------------------------------

  /** The guard's answers when the computed results are written to `latest`. */
  function Answers(latest: Latest, m: Request, f: Environment): Outcomes {
    if m.body.Json? then HandlerAnswers(latest, m.body.event, f) else map[]
  }

  function HandlerAnswers(latest: Latest, e: Event, f: Environment): Outcomes {
    if f.computation.Computed? then OutcomesOf(latest, e.view, f.computation.results) else map[]
  }

  /** The latest values after one delivery. */
  function LatestAfter(latest: Latest, m: Request, f: Environment): Latest {
    if m.body.Json? then LatestAfterHandler(latest, m.body.event, f) else latest
  }

  function LatestAfterHandler(latest: Latest, e: Event, f: Environment): Latest {
    if !PastDeadline(e, f.now) && f.computation.Computed?
    then WriteAll(latest, e.view, Reached(f, f.computation.results)) else latest
  }

  class Worker {
    const online: OnlineStore
    const maxAttempts: int
    var log: seq<Effect>

    constructor (online: OnlineStore, maxAttempts: int)
      ensures this.online == online && this.maxAttempts == maxAttempts && log == []
    {
      this.online, this.maxAttempts, log := online, maxAttempts, [];
    }

    method Record(effects: seq<Effect>)
      modifies this
      ensures log == old(log) + effects
    {
      log := log + effects;
    }

    /** Publish or store something outside; the caller learns only whether it was acknowledged. */
    method Emit(p: Publish, e: Effect) returns (acked: bool)
      modifies this
      ensures log == old(log) + Landed(p, e) && (acked <==> p.Acked?)
    {
      Record(Landed(p, e));
      return p.Acked?;
    }

    method SafeUpdate(f: Environment, e: Event, status: RequestStatus)
      modifies this
      ensures log == old(log) + StatusUpdate(f, e, status)
    {
      Record(StatusUpdate(f, e, status));
    }

    /** Compute, write online first, then the values-bearing offline event, then the completion. */
    method Handle(e: Event, f: Environment) returns (status: Status, outcomes: Outcomes)
      modifies this, online
      ensures status == HandlerStatus(e, f)
      ensures status.Ok? ==> outcomes == HandlerAnswers(old(online.values), e, f)
      ensures log == old(log) + HandlerTrace(e, f, HandlerAnswers(old(online.values), e, f))
      ensures online.values == LatestAfterHandler(old(online.values), e, f)
    {
      outcomes := map[];
      if PastDeadline(e, f.now) {
        var acked := Emit(f.completion, PublishedCompletion(e, DeadlineExpired));
        return if acked then Expired else PublishFailed, outcomes;
      }
      match f.computation {
        case ComputeError => return ComputeFailed, outcomes;
        case UnexpectedException => return UnexpectedError, outcomes;
        case Computed(results) =>
          outcomes := online.WriteMany(e.view, Reached(f, results));
          Record(OnlineWrites(e.view, Reached(f, results)));
          if f.onlineFailsAfter.Some? {
            return OnlineWriteFailed, outcomes;
          }
          var acked := Emit(f.offline, PublishedOffline(e, results));
          if !acked {
            return PublishFailed, outcomes;
          }
          acked := Emit(f.completion, PublishedCompletion(e, FinishedWith(outcomes)));
          return if acked then Ok else PublishFailed, outcomes;
      }
    }

    /** Publish the message to the dead-letter topic; commit only if that was acknowledged. */
    method DeadLetterMessage(m: Request, attempts: Option<int>, f: Environment) returns (status: Status)
      modifies this
      ensures log == old(log) + Landed(f.dlq, DeadLettered(m.body, attempts)) + CommitIf(f.dlq)
      ensures status == if f.dlq.Acked? then DeadLetter else DlqPublishFailed
    {
      var acked := Emit(f.dlq, DeadLettered(m.body, attempts));
      if !acked {
        return DlqPublishFailed;
      }
      Record([Committed]);
      return DeadLetter;
    }

    method RetryOrDlq(m: Request, e: Event, f: Environment) returns (status: Status)
      modifies this
      ensures log == old(log) + RetryTrace(m, e, maxAttempts, f)
      ensures status == RetryStatus(m, maxAttempts, f)
    {
      if MayRetry(m, maxAttempts) {
        var acked := Emit(f.retry, Republished(RetryCopy(m)));
        if !acked {
          return RetryPublishFailed;
        }
        Record([Committed]);
        SafeUpdate(f, e, Running);
        return RetryRepublished;
      }
      status := DeadLetterMessage(m, Some(NextAttempt(m.headers)), f);
      if status.DeadLetter? {
        SafeUpdate(f, e, Failed);
      }
    }

    /** Store the request-scoped result first, commit, and only then report the request complete. */
    method Conclude(m: Request, e: Event, handled: Status, outcomes: Outcomes, f: Environment) returns (status: Status)
      requires handled == HandlerStatus(e, f)
      modifies this
      ensures log == old(log) + ConclusionTrace(m, e, maxAttempts, f, outcomes)
      ensures status == ConclusionStatus(m, e, maxAttempts, f)
    {
      match handled {
        case Ok =>
          var acked := Emit(f.resultStore, StoredResult(e, f.computation.results));
          if !acked {
            return ResultStoreFailed;
          }
          Record([Committed]);
          SafeUpdate(f, e, Completed(FinishedWith(outcomes)));
          return Ok;
        case Expired =>
          Record([Committed]);
          SafeUpdate(f, e, Completed(DeadlineExpired));
          return Expired;
        case ComputeFailed => status := RetryOrDlq(m, e, f);
        case UnexpectedError => status := RetryOrDlq(m, e, f);
        case _ => return handled;
      }
    }

    method ProcessEvent(m: Request, e: Event, f: Environment) returns (status: Status)
      modifies this, online
      ensures log == old(log) + EventTrace(m, e, maxAttempts, f, HandlerAnswers(old(online.values), e, f))
      ensures online.values == LatestAfterHandler(old(online.values), e, f)
      ensures status == ConclusionStatus(m, e, maxAttempts, f)
    {
      ghost var answers := HandlerAnswers(online.values, e, f);
      SafeUpdate(f, e, Running);
      var handled, outcomes := Handle(e, f);
      status := Conclude(m, e, handled, outcomes, f);
      OnlyOkUsesOutcomes(m, e, maxAttempts, f, outcomes, answers);
      ghost var start, middle, end := StatusUpdate(f, e, Running), HandlerTrace(e, f, answers),
        ConclusionTrace(m, e, maxAttempts, f, answers);
      Associate(old(log), start, middle, end);
    }

    /** One polled message, to the end. */
    method ProcessNext(m: Request, f: Environment) returns (status: Status)
      modifies this, online
      ensures log == old(log) + Trace(m, maxAttempts, f, Answers(old(online.values), m, f))
      ensures online.values == LatestAfter(old(online.values), m, f)
      ensures status == FinalStatus(m, maxAttempts, f)
    {
      match m.body {
        case Junk(_) => status := DeadLetterMessage(m, None, f);
        case Json(e) => status := ProcessEvent(m, e, f);
      }
    }
  }

  lemma Associate<T>(a: seq<T>, b: seq<T>, c: seq<T>, d: seq<T>)
    ensures a + b + c + d == a + (b + c + d)
  {
  }

  function ConclusionStatus(m: Request, e: Event, maxAttempts: int, f: Environment): Status {
    match HandlerStatus(e, f)
    case Ok => if f.resultStore.Acked? then Ok else ResultStoreFailed
    case ComputeFailed => RetryStatus(m, maxAttempts, f)
    case UnexpectedError => RetryStatus(m, maxAttempts, f)
    case handled => handled
  }

  function RetryStatus(m: Request, maxAttempts: int, f: Environment): Status {
    if MayRetry(m, maxAttempts) then (if f.retry.Acked? then RetryRepublished else RetryPublishFailed)
    else if f.dlq.Acked? then DeadLetter else DlqPublishFailed
  }

  function FinalStatus(m: Request, maxAttempts: int, f: Environment): Status {
    match m.body
    case Junk(_) => if f.dlq.Acked? then DeadLetter else DlqPublishFailed
    case Json(e) => ConclusionStatus(m, e, maxAttempts, f)
  }

  lemma OnlyOkUsesOutcomes(m: Request, e: Event, maxAttempts: int, f: Environment, a: Outcomes, b: Outcomes)
    requires HandlerStatus(e, f).Ok? ==> a == b
    ensures ConclusionTrace(m, e, maxAttempts, f, a) == ConclusionTrace(m, e, maxAttempts, f, b)
  {
  }

  /** The source offset is committed exactly for the four statuses that settle a message. */
  lemma CommitDecides(m: Request, maxAttempts: int, f: Environment, outcomes: Outcomes)
    ensures Committed in Trace(m, maxAttempts, f, outcomes) <==>
      FinalStatus(m, maxAttempts, f) in {Ok, Expired, RetryRepublished, DeadLetter}
  {
    if m.body.Json? {
      CommitsInConclusion(m, m.body.event, maxAttempts, f, outcomes);
    }
  }

  /** Nothing before the conclusion commits. */
  lemma CommitsInConclusion(m: Request, e: Event, maxAttempts: int, f: Environment, outcomes: Outcomes)
    requires m.body == Json(e)
    ensures Committed in Trace(m, maxAttempts, f, outcomes) <==>
      Committed in ConclusionTrace(m, e, maxAttempts, f, outcomes)
  {
    assert Committed !in StatusUpdate(f, e, Running);
    assert Committed !in HandlerTrace(e, f, outcomes);
  }
}
