/** The offline writer (offline_writer.py, offline_writer_runner.py): append the new results, then
    announce them, then commit. A delivery may stop anywhere and be repeated. */
module OfflineWriter {
  import opened Domain
  import opened Registry
  import opened Dlq
  import opened Pit
  import opened Dedup
  import opened Propagation

  /** An event that deserialises; the write set of one that is not well formed cannot be read. */
  datatype WriteEvent = WriteEvent(
    entityType: string, view: ViewRef, results: seq<FeatureResult>, wellFormed: bool)

  /** What goes to the dead-letter topic at once. */
  predicate Poison(body: Body<WriteEvent>) { body.Junk? || !body.event.wellFormed }

  type Write = Message<WriteEvent>

  /** How far one delivery gets. A crash and a failing step leave the same state behind. */
  datatype Reach =
    | StopsAppending(rows: nat)
    | StopsPublishing(updates: nat)
    | StopsBeforeCommit
    | Commits
    | RaisesUnexpectedly(retry: Publish, dlq: Publish)

  /** An update with the message it was published for and the length of the history at that time. */
  datatype Announcement = Announcement(offset: nat, update: Update, rowsThen: nat)

  datatype State = State(
    topic: seq<Write>, history: History, published: seq<Announcement>, deadLetters: set<nat>,
    committed: set<nat>, appended: set<nat>, copied: set<nat>)

  datatype Action = Produce(message: Write) | AppendElsewhere(rows: History) | Deliver(offset: nat, reach: Reach)

  function UpdatesOf(views: seq<ViewDef>, e: WriteEvent, firstId: nat): seq<Update> {
    var view := FindView(views, e.view);
    if view.None? then [] else UpdatesFor(view.value, e.entityType, e.results, firstId)
  }

  function Announce(s: State, offset: nat, updates: seq<Update>): State {
    s.(published := s.published +
      seq(|updates|, i requires 0 <= i < |updates| => Announcement(offset, updates[i], |s.history|)))
  }

  ghost function AppendAll(s: State, offset: nat, e: WriteEvent): State {
    s.(history := Appended(s.history, e.view, e.results), appended := s.appended + {offset})
  }

  /** What becomes of the dead letter of a poison message. */
  function DlqOf(reach: Reach): Publish { if reach.RaisesUnexpectedly? then reach.dlq else Acked }

  function DeadLetterAt(s: State, offset: nat, dlq: Publish): State {
    var landed := if dlq.Lost? then s else s.(deadLetters := s.deadLetters + {offset});
    if dlq.Acked? then landed.(committed := landed.committed + {offset}) else landed
  }

  function RetryOrDlq(s: State, offset: nat, maxAttempts: int, retry: Publish, dlq: Publish): State
    requires offset < |s.topic|
  {
    if MayRetry(s.topic[offset], maxAttempts) then
      var landed := if retry.Lost? then s
        else s.(topic := s.topic + [RetryCopy(s.topic[offset])], copied := s.copied + {offset});
      if retry.Acked? then landed.(committed := landed.committed + {offset}) else landed
    else DeadLetterAt(s, offset, dlq)
  }

  /** What the handler has done when it returns or stops. */
  ghost function AfterHandle(views: seq<ViewDef>, s: State, offset: nat, e: WriteEvent, reach: Reach): State {
    var kept := NewResults(s.history, e.view, e.results);
    var updates := UpdatesOf(views, e, |s.published|);
    match reach
    case StopsAppending(rows) => s.(history := s.history + Records(e.view, kept[..Min(rows, |kept|)]))
    case StopsPublishing(n) => Announce(AppendAll(s, offset, e), offset, updates[..Min(n, |updates|)])
    case StopsBeforeCommit => Announce(AppendAll(s, offset, e), offset, updates)
    case Commits => Announce(AppendAll(s, offset, e), offset, updates)
    case RaisesUnexpectedly(_, _) => s
  }

  ghost function DeliverEvent(views: seq<ViewDef>, s: State, offset: nat, e: WriteEvent, maxAttempts: int,
                              reach: Reach): State
    requires offset < |s.topic|
  {
    if reach.RaisesUnexpectedly? then RetryOrDlq(s, offset, maxAttempts, reach.retry, reach.dlq)
    else
      var handled := AfterHandle(views, s, offset, e, reach);
      if reach.Commits? then handled.(committed := handled.committed + {offset}) else handled
  }

  ghost function Play(views: seq<ViewDef>, s: State, a: Action, maxAttempts: int): State {
    match a
    case Produce(message) => s.(topic := s.topic + [message])
    case AppendElsewhere(rows) => s.(history := s.history + rows)
    case Deliver(o, reach) =>
      if o >= |s.topic| then s
      else if Poison(s.topic[o].body) then DeadLetterAt(s, o, DlqOf(reach))
      else DeliverEvent(views, s, o, s.topic[o].body.event, maxAttempts, reach)
  }

  ghost function Run(views: seq<ViewDef>, actions: seq<Action>, maxAttempts: int): State {
    if actions == [] then State([], [], [], {}, {}, {}, {})
    else Play(views, Run(views, actions[..|actions| - 1], maxAttempts), actions[|actions| - 1], maxAttempts)
  }

  /** Every message that was produced is on the topic, and stays there. */
  lemma {:induction false} ProducedIsOnTopic(views: seq<ViewDef>, actions: seq<Action>, maxAttempts: int,
                                             message: Write)
    requires Produce(message) in actions
    ensures message in Run(views, actions, maxAttempts).topic
  {
    var front, last := actions[..|actions| - 1], actions[|actions| - 1];
    assert actions == front + [last];
    hide AppendAll, NewResults, UpdatesOf;
    if last != Produce(message) {
      ProducedIsOnTopic(views, front, maxAttempts, message);
    }
  }

  // ---------------------------------------------------------------------------------------
  // The writer
  // ---------------------------------------------------------------------------------------

  datatype Status =
    | Ok | InvalidEvent | AppendFailed | PropagationPublishFailed | UnexpectedError | StoppedBeforeCommit
    | RetryRepublished | RetryPublishFailed | DeadLettered | DlqPublishFailed

  /** The statuses after which the message is committed. */
  predicate Settles(status: Status) { status.Ok? || status.RetryRepublished? || status.DeadLettered? }

  function DlqStatus(dlq: Dlq.Publish): Status { if dlq.Acked? then DeadLettered else DlqPublishFailed }

  /** A message that may be retried is retried, any other is dead-lettered. */
  function RetryStatus(m: Write, maxAttempts: int, retry: Dlq.Publish, dlq: Dlq.Publish): Status {
    if !MayRetry(m, maxAttempts) then DlqStatus(dlq)
    else if retry.Acked? then RetryRepublished else RetryPublishFailed
  }

  function StatusOf(m: Write, maxAttempts: int, reach: Reach): Status {
    if Poison(m.body) then DlqStatus(DlqOf(reach))
    else
      match reach
      case StopsAppending(_) => AppendFailed
      case StopsPublishing(_) => PropagationPublishFailed
      case StopsBeforeCommit => StoppedBeforeCommit
      case Commits => Ok
      case RaisesUnexpectedly(retry, dlq) => RetryStatus(m, maxAttempts, retry, dlq)
  }

  class Writer {
    const views: seq<ViewDef>
    const maxAttempts: int
    const offline: OfflineStore
    var topic: seq<Write>
    var published: seq<Update>
    var deadLetters: set<nat>
    var committed: set<nat>
    /** Why each update was published, which events have been appended completely, and which messages
        a retry copy carries on. */
    ghost var announcements: seq<Announcement>
    ghost var appended: set<nat>
    ghost var copied: set<nat>

    ghost predicate Valid()
      reads this
    {
      |published| == |announcements| && forall i :: 0 <= i < |published| ==> announcements[i].update == published[i]
    }

    ghost function Snapshot(): State
      reads this, offline
    {
      State(topic, offline.history, announcements, deadLetters, committed, appended, copied)
    }

    constructor (views: seq<ViewDef>, maxAttempts: int, offline: OfflineStore)
      ensures this.views == views && this.offline == offline && Valid()
    {
      this.views, this.maxAttempts, this.offline := views, maxAttempts, offline;
      topic, published, deadLetters, committed, announcements, appended, copied := [], [], {}, {}, [], {}, {};
    }

    method Publish(offset: nat, updates: seq<Update>)
      requires Valid()
      modifies `published, `announcements
      ensures Valid() && Snapshot() == Announce(old(Snapshot()), offset, updates)
    {
      announcements := Announce(Snapshot(), offset, updates).published;
      published := published + updates;
    }

    /** Append idempotently, then announce every result of the event, new or not. */
    method Handle(offset: nat, e: WriteEvent, reach: Reach) returns (status: Status)
      requires Valid()
      modifies this, offline
      ensures Valid() && (!e.wellFormed ==> Snapshot() == old(Snapshot()) && status == InvalidEvent)
      ensures e.wellFormed ==> Snapshot() == AfterHandle(views, old(Snapshot()), offset, e, reach)
      ensures committed == old(committed) && topic == old(topic)
      ensures reach.RaisesUnexpectedly? ==> Snapshot() == old(Snapshot())
      ensures e.wellFormed ==>
        status == match reach
                  case StopsAppending(_) => AppendFailed
                  case StopsPublishing(_) => PropagationPublishFailed
                  case StopsBeforeCommit => StoppedBeforeCommit
                  case Commits => Ok
                  case RaisesUnexpectedly(_, _) => UnexpectedError
    {
      if !e.wellFormed {
        return InvalidEvent;
      }
      if reach.RaisesUnexpectedly? {
        return UnexpectedError;
      }
      var kept, _ := PartitionNewResults(offline, e.view, e.results);
      if reach.StopsAppending? {
        offline.AppendMany(e.view, kept[..Min(reach.rows, |kept|)]);
        return AppendFailed;
      }
      offline.AppendMany(e.view, kept);
      appended := appended + {offset};
      var updates := [];
      var view := FindView(views, e.view);
      if view.Some? {
        updates := BuildFeatureUpdatedEvents(view.value, e.entityType, e.results, |published|);
      }
      if reach.StopsPublishing? {
        Publish(offset, updates[..Min(reach.updates, |updates|)]);
        return PropagationPublishFailed;
      }
      Publish(offset, updates);
      return if reach.Commits? then Ok else StoppedBeforeCommit;
    }

    method DeadLetterMessage(offset: nat, dlq: Dlq.Publish) returns (status: Status)
      requires Valid()
      modifies `deadLetters, `committed
      ensures Valid() && Snapshot() == DeadLetterAt(old(Snapshot()), offset, dlq)
      ensures status == DlqStatus(dlq) && committed == old(committed) + if Settles(status) then {offset} else {}
    {
      if !dlq.Lost? {
        deadLetters := deadLetters + {offset};
      }
      if !dlq.Acked? {
        return DlqPublishFailed;
      }
      committed := committed + {offset};
      return DeadLettered;
    }

    method RetryOrDeadLetter(offset: nat, retry: Dlq.Publish, dlq: Dlq.Publish) returns (status: Status)
      requires Valid() && offset < |topic|
      modifies `topic, `deadLetters, `committed, `copied
      ensures Valid() && Snapshot() == RetryOrDlq(old(Snapshot()), offset, maxAttempts, retry, dlq)
      ensures status == RetryStatus(old(topic[offset]), maxAttempts, retry, dlq)
      ensures committed == old(committed) + if Settles(status) then {offset} else {}
    {
      if !MayRetry(topic[offset], maxAttempts) {
        status := DeadLetterMessage(offset, dlq);
        return;
      }
      if !retry.Lost? {
        topic := topic + [RetryCopy(topic[offset])];
        copied := copied + {offset};
      }
      if !retry.Acked? {
        return RetryPublishFailed;
      }
      committed := committed + {offset};
      return RetryRepublished;
    }

    /** One polled message: commit after a complete handling, a retry copy or a dead letter. */
    method ProcessNext(offset: nat, reach: Reach) returns (status: Status)
      requires Valid() && offset < |topic|
      modifies this, offline
      ensures Valid() && Snapshot() == Play(views, old(Snapshot()), Deliver(offset, reach), maxAttempts)
      ensures status == StatusOf(old(topic[offset]), maxAttempts, reach)
      ensures committed == old(committed) + if Settles(status) then {offset} else {}
    {
      hide AfterHandle, DeadLetterAt, RetryOrDlq;
      match topic[offset].body {
        case Junk(_) => status := DeadLetterMessage(offset, DlqOf(reach));
        case Json(e) =>
          status := Handle(offset, e, reach);
          if status.UnexpectedError? {
            status := RetryOrDeadLetter(offset, reach.retry, reach.dlq);
          } else if status.InvalidEvent? {
            status := DeadLetterMessage(offset, DlqOf(reach));
          } else if status.Ok? {
            committed := committed + {offset};
          }
      }
    }
  }

  // ---------------------------------------------------------------------------------------
  // The invariant of every run
  // ---------------------------------------------------------------------------------------

  ghost predicate AllRepresented(h: History, e: WriteEvent) { forall r :: r in e.results ==> Represented(h, e.view, r) }

  ghost predicate EventAt(s: State, o: nat) { o < |s.topic| && !Poison(s.topic[o].body) }

  /** The update was published only after every result of its event was stored. */
  ghost predicate Grounded(s: State, a: Announcement) {
    EventAt(s, a.offset) && a.rowsThen <= |s.history| &&
      AllRepresented(s.history[..a.rowsThen], s.topic[a.offset].body.event)
  }

  ghost predicate Announced(views: seq<ViewDef>, s: State, o: nat, r: FeatureResult)
    requires EventAt(s, o)
  {
    var e := s.topic[o].body.event;
    exists a :: a in s.published && a.offset == o && a.update == UpdateOf(e.view, e.entityType, r, a.update.id)
  }

  /** A commit after complete handling: stored, and announced where something reacts to it. */
  ghost predicate Served(views: seq<ViewDef>, s: State, o: nat) {
    && EventAt(s, o) && o in s.appended
    && var e := s.topic[o].body.event;
       var view := FindView(views, e.view);
       view.Some? ==>
         forall r :: r in e.results && HasReactiveDependents(view.value.features, r.ref.name) ==>
           Announced(views, s, o, r)
  }

  ghost predicate Covered(views: seq<ViewDef>, s: State, o: nat, maxAttempts: int) {
    || Served(views, s, o) || o in s.deadLetters
    || (o in s.copied && CopyExists(s, o, maxAttempts))
  }

  predicate CopyExists(s: State, o: nat, maxAttempts: int) {
    o < |s.topic| && MayRetry(s.topic[o], maxAttempts) && RetryCopy(s.topic[o]) in s.topic
  }

  ghost predicate Invariant(views: seq<ViewDef>, s: State, maxAttempts: int) {
    && (forall o :: o in s.appended ==> EventAt(s, o) && AllRepresented(s.history, s.topic[o].body.event))
    && (forall a :: a in s.published ==> Grounded(s, a))
    && (forall o :: o in s.committed ==> Covered(views, s, o, maxAttempts))
    && (forall o :: o in s.copied ==> CopyExists(s, o, maxAttempts))
  }

  ghost predicate Grows(s: State, s': State) {
    && s.topic <= s'.topic && s.history <= s'.history && s.published <= s'.published
    && s.deadLetters <= s'.deadLetters && s.appended <= s'.appended && s.copied <= s'.copied
  }

  lemma RepresentedInLonger(h: History, h': History, e: WriteEvent)
    requires h <= h' && AllRepresented(h, e)
    ensures AllRepresented(h', e)
  {
    forall r | r in e.results
      ensures Represented(h', e.view, r)
    {
      RepresentedForGood(h, h'[|h|..], e.view, r);
    }
  }

  lemma InPrefix<T>(a: seq<T>, b: seq<T>, x: T)
    requires a <= b && x in a
    ensures x in b
  {
    var i :| 0 <= i < |a| && a[i] == x;
    assert b[i] == x;
  }

  lemma CoveredStays(views: seq<ViewDef>, s: State, s': State, o: nat, maxAttempts: int)
    requires Grows(s, s') && Covered(views, s, o, maxAttempts)
    ensures Covered(views, s', o, maxAttempts)
  {
    if Served(views, s, o) {
      ServedStays(views, s, s', o);
    } else if o !in s.deadLetters {
      InPrefix(s.topic, s'.topic, RetryCopy(s.topic[o]));
    }
  }

  lemma ServedStays(views: seq<ViewDef>, s: State, s': State, o: nat)
    requires Grows(s, s') && Served(views, s, o)
    ensures Served(views, s', o)
  {
    var e, view := s.topic[o].body.event, FindView(views, s.topic[o].body.event.view);
    if view.Some? {
      forall r | r in e.results && HasReactiveDependents(view.value.features, r.ref.name)
        ensures Announced(views, s', o, r)
      {
        assert Announced(views, s, o, r);
        var a :| a in s.published && a.offset == o && a.update == UpdateOf(e.view, e.entityType, r, a.update.id);
        InPrefix(s.published, s'.published, a);
      }
    }
  }

  lemma GroundedStays(s: State, s': State, a: Announcement)
    requires Grows(s, s') && Grounded(s, a)
    ensures Grounded(s', a)
  {
    assert s'.history[..a.rowsThen] == s.history[..a.rowsThen];
  }

  /** A growing state keeps the invariant if what is new in it keeps its promise. */
  lemma GrowthKeepsInvariant(views: seq<ViewDef>, s: State, s': State, maxAttempts: int)
    requires Invariant(views, s, maxAttempts) && Grows(s, s')
    requires forall o :: o in s'.appended ==>
      o in s.appended || (EventAt(s', o) && AllRepresented(s'.history, s'.topic[o].body.event))
    requires forall a :: a in s'.published ==> a in s.published || Grounded(s', a)
    requires forall o :: o in s'.committed ==> o in s.committed || Covered(views, s', o, maxAttempts)
    requires forall o :: o in s'.copied ==> o in s.copied || CopyExists(s', o, maxAttempts)
    ensures Invariant(views, s', maxAttempts)
  {
    forall o | o in s'.appended
      ensures EventAt(s', o) && AllRepresented(s'.history, s'.topic[o].body.event)
    {
      if o in s.appended {
        RepresentedInLonger(s.history, s'.history, s.topic[o].body.event);
      }
    }
    forall a | a in s'.published
      ensures Grounded(s', a)
    {
      if a in s.published {
        GroundedStays(s, s', a);
      }
    }
    forall o | o in s'.committed
      ensures Covered(views, s', o, maxAttempts)
    {
      if o in s.committed {
        CoveredStays(views, s, s', o, maxAttempts);
      }
    }
    forall o | o in s'.copied
      ensures CopyExists(s', o, maxAttempts)
    {
      if o in s.copied {
        InPrefix(s.topic, s'.topic, RetryCopy(s.topic[o]));
      }
    }
  }

  lemma AppendIsComplete(s: State, offset: nat, e: WriteEvent)
    ensures AllRepresented(AppendAll(s, offset, e).history, e) && Grows(s, AppendAll(s, offset, e))
  {
    forall r | r in e.results
      ensures Represented(Appended(s.history, e.view, e.results), e.view, r)
    {
      AppendRepresentsAll(s.history, e.view, e.results, r);
    }
  }

  lemma AnnouncedAreGrounded(s: State, offset: nat, e: WriteEvent, updates: seq<Update>)
    requires EventAt(s, offset) && s.topic[offset].body == Json(e) && AllRepresented(s.history, e)
    ensures forall a :: a in Announce(s, offset, updates).published ==>
      a in s.published || Grounded(Announce(s, offset, updates), a)
    ensures Grows(s, Announce(s, offset, updates))
  {
    assert s.history[..|s.history|] == s.history;
  }

  lemma FullAnnouncementServes(views: seq<ViewDef>, s: State, offset: nat, e: WriteEvent)
    requires EventAt(s, offset) && s.topic[offset].body == Json(e) && offset in s.appended
    ensures Served(views, Announce(s, offset, UpdatesOf(views, e, |s.published|)), offset)
  {
    var updates := UpdatesOf(views, e, |s.published|);
    var s', view := Announce(s, offset, updates), FindView(views, e.view);
    if view.Some? {
      FoundViewHasRef(views, e.view);
      forall r | r in e.results && HasReactiveDependents(view.value.features, r.ref.name)
        ensures Announced(views, s', offset, r)
      {
        var id := UpdatesAnnounce(view.value, e.entityType, e.results, |s.published|, r);
        var i :| 0 <= i < |updates| && updates[i] == UpdateOf(e.view, e.entityType, r, id);
        assert s'.published[|s.published| + i] == Announcement(offset, updates[i], |s.history|);
      }
    }
  }

  lemma HandleKeepsInvariant(views: seq<ViewDef>, s: State, offset: nat, e: WriteEvent, maxAttempts: int, reach: Reach)
    requires Invariant(views, s, maxAttempts) && EventAt(s, offset) && s.topic[offset].body == Json(e)
    requires !reach.RaisesUnexpectedly?
    ensures Invariant(views, DeliverEvent(views, s, offset, e, maxAttempts, reach), maxAttempts)
  {
    var s' := DeliverEvent(views, s, offset, e, maxAttempts, reach);
    if reach.StopsAppending? {
      GrowthKeepsInvariant(views, s, s', maxAttempts);
    } else {
      var stored := AppendAll(s, offset, e);
      AppendIsComplete(s, offset, e);
      GrowthKeepsInvariant(views, s, stored, maxAttempts);
      var all := UpdatesOf(views, e, |s.published|);
      var updates := if reach.StopsPublishing? then all[..Min(reach.updates, |all|)] else all;
      var announced := Announce(stored, offset, updates);
      AnnouncedAreGrounded(stored, offset, e, updates);
      GrowthKeepsInvariant(views, stored, announced, maxAttempts);
      if reach.Commits? {
        FullAnnouncementServes(views, stored, offset, e);
        ServedStays(views, announced, s', offset);
        GrowthKeepsInvariant(views, announced, s', maxAttempts);
      }
    }
  }

  lemma DeadLetterKeepsInvariant(views: seq<ViewDef>, s: State, offset: nat, dlq: Dlq.Publish, maxAttempts: int)
    requires Invariant(views, s, maxAttempts)
    ensures Invariant(views, DeadLetterAt(s, offset, dlq), maxAttempts)
  {
    GrowthKeepsInvariant(views, s, DeadLetterAt(s, offset, dlq), maxAttempts);
  }

  lemma RetryKeepsInvariant(views: seq<ViewDef>, s: State, offset: nat, retry: Dlq.Publish, dlq: Dlq.Publish,
                            maxAttempts: int)
    requires Invariant(views, s, maxAttempts) && offset < |s.topic|
    ensures Invariant(views, RetryOrDlq(s, offset, maxAttempts, retry, dlq), maxAttempts)
  {
    if MayRetry(s.topic[offset], maxAttempts) {
      var s' := RetryOrDlq(s, offset, maxAttempts, retry, dlq);
      assert !retry.Lost? ==> s'.topic[|s.topic|] == RetryCopy(s.topic[offset]);
      assert s'.topic[offset] == s.topic[offset];
      GrowthKeepsInvariant(views, s, s', maxAttempts);
    } else {
      DeadLetterKeepsInvariant(views, s, offset, dlq, maxAttempts);
    }
  }

  lemma PlayKeepsInvariant(views: seq<ViewDef>, s: State, a: Action, maxAttempts: int)
    requires Invariant(views, s, maxAttempts)
    ensures Invariant(views, Play(views, s, a, maxAttempts), maxAttempts)
  {
    match a {
      case Produce(message) => GrowthKeepsInvariant(views, s, Play(views, s, a, maxAttempts), maxAttempts);
      case AppendElsewhere(rows) => GrowthKeepsInvariant(views, s, Play(views, s, a, maxAttempts), maxAttempts);
      case Deliver(o, reach) =>
        if o < |s.topic| {
          if Poison(s.topic[o].body) {
            DeadLetterKeepsInvariant(views, s, o, DlqOf(reach), maxAttempts);
          } else if reach.RaisesUnexpectedly? {
            RetryKeepsInvariant(views, s, o, reach.retry, reach.dlq, maxAttempts);
          } else {
            HandleKeepsInvariant(views, s, o, s.topic[o].body.event, maxAttempts, reach);
          }
        }
    }
  }

  lemma {:induction false} RunKeepsInvariant(views: seq<ViewDef>, actions: seq<Action>, maxAttempts: int)
    ensures Invariant(views, Run(views, actions, maxAttempts), maxAttempts)
  {
    if actions != [] {
      RunKeepsInvariant(views, actions[..|actions| - 1], maxAttempts);
      PlayKeepsInvariant(views, Run(views, actions[..|actions| - 1], maxAttempts), actions[|actions| - 1], maxAttempts);
    }
  }

  /** Once an event's append has succeeded, no later delivery of it appends a row, whatever was
      appended in between and wherever the delivery stops. */
  lemma RedeliveryAppendsNothing(views: seq<ViewDef>, actions: seq<Action>, maxAttempts: int, o: nat, reach: Reach)
    requires o in Run(views, actions, maxAttempts).appended
    ensures Run(views, actions + [Deliver(o, reach)], maxAttempts).history == Run(views, actions, maxAttempts).history
  {
    var s := Run(views, actions, maxAttempts);
    RunKeepsInvariant(views, actions, maxAttempts);
    assert (actions + [Deliver(o, reach)])[..|actions|] == actions;
    var e := s.topic[o].body.event;
    NothingNew(s.history, e.view, e.results);
    assert s.history + Records(e.view, []) == s.history;
  }

  // ---------------------------------------------------------------------------------------
  // Exactly once: partial appends and repetitions amount to one append
  // ---------------------------------------------------------------------------------------

  lemma {:induction false} KeptIsPrefix(h: History, view: ViewRef, front: seq<FeatureResult>, last: FeatureResult)
    ensures NewResults(h, view, front) <= NewResults(h, view, front + [last])
  {
    assert (front + [last])[..|front|] == front;
  }

  /** What is still new after the first `k` new rows were stored: the others, if none collide. */
  lemma {:induction false} RestIsStillNew(h: History, view: ViewRef, results: seq<FeatureResult>,
                                          all: seq<FeatureResult>, k: nat)
    requires NewResults(h, view, results) <= all && k <= |all| && CollisionFree(view, all)
    ensures var kept := NewResults(h, view, results);
      NewResults(h + Records(view, all[..k]), view, results) == kept[Min(k, |kept|)..]
  {
    if results != [] {
      var front, last := results[..|results| - 1], results[|results| - 1];
      assert results == front + [last];
      KeptIsPrefix(h, view, front, last);
      RestIsStillNew(h, view, front, all, k);
      RestOfOne(h, view, front, last, all, k);
    }
  }

  /** What a bulk append skipped, it skips as well after a part of it has been stored. */
  lemma SkippedStaysSkipped(h: History, view: ViewRef, before: seq<FeatureResult>, last: FeatureResult,
                            stored: seq<FeatureResult>, k: nat)
    requires Represented(h, view, last) || exists t :: t in before && SignatureOf(t) == SignatureOf(last)
    requires |stored| == k && forall i :: 0 <= i < k && i < |before| ==> stored[i] == before[i]
    ensures Represented(h + Records(view, stored), view, last)
      || exists t :: t in before[Min(k, |before|)..] && SignatureOf(t) == SignatureOf(last)
  {
    if Represented(h, view, last) {
      RepresentedForGood(h, Records(view, stored), view, last);
    } else {
      var t :| 0 <= t < |before| && SignatureOf(before[t]) == SignatureOf(last);
      if t < k {
        StoredTwin(h, view, stored, t, last);
      } else {
        assert before[Min(k, |before|)..][t - k] == before[t];
      }
    }
  }

  /** What it kept beyond the stored part is new still. */
  lemma KeptStaysNew(h: History, view: ViewRef, before: seq<FeatureResult>, last: FeatureResult,
                     all: seq<FeatureResult>, k: nat)
    requires !Represented(h, view, last) && !exists t :: t in before && SignatureOf(t) == SignatureOf(last)
    requires CollisionFree(view, all) && k <= |before| < |all| && all[|before|] == last
    ensures !Represented(h + Records(view, all[..k]), view, last)
    ensures !exists t :: t in before[k..] && SignatureOf(t) == SignatureOf(last)
  {
    RepresentedInExtension(h, view, all[..k], last);
    NoStoredRowCollides(h, view, all, k, |before|);
    assert forall t :: t in before[k..] ==> t in before;
  }

  lemma RestOfOne(h: History, view: ViewRef, front: seq<FeatureResult>, last: FeatureResult, all: seq<FeatureResult>,
                  k: nat)
    requires NewResults(h, view, front + [last]) <= all && k <= |all| && CollisionFree(view, all)
    requires var before := NewResults(h, view, front);
      NewResults(h + Records(view, all[..k]), view, front) == before[Min(k, |before|)..]
    ensures var kept := NewResults(h, view, front + [last]);
      NewResults(h + Records(view, all[..k]), view, front + [last]) == kept[Min(k, |kept|)..]
  {
    var before, kept := NewResults(h, view, front), NewResults(h, view, front + [last]);
    NewSnoc(h, view, front, last);
    NewSnoc(h + Records(view, all[..k]), view, front, last);
    SkipsAfterwards(h, view, before, last, all, k);
    RestGrows(before, last, k, Skips(h, view, before, last));
  }

  /** A result is skipped after a partial append exactly if it was skipped before or is stored by now. */
  lemma SkipsAfterwards(h: History, view: ViewRef, before: seq<FeatureResult>, last: FeatureResult,
                        all: seq<FeatureResult>, k: nat)
    requires k <= |all| && CollisionFree(view, all) && before <= all
    requires !Skips(h, view, before, last) ==> before + [last] <= all
    ensures Skips(h + Records(view, all[..k]), view, before[Min(k, |before|)..], last) <==>
      Skips(h, view, before, last) || |before| < k
  {
    if Skips(h, view, before, last) {
      SkippedStaysSkipped(h, view, before, last, all[..k], k);
    } else {
      assert all[|before|] == (before + [last])[|before|];
      if |before| < k {
        StoredTwin(h, view, all[..k], |before|, last);
      } else {
        KeptStaysNew(h, view, before, last, all, k);
      }
    }
  }

  lemma RestGrows(before: seq<FeatureResult>, last: FeatureResult, k: nat, skips: bool)
    ensures var kept, rest := if skips then before else before + [last], before[Min(k, |before|)..];
      kept[Min(k, |kept|)..] == if skips || |before| < k then rest else rest + [last]
  {
  }

  lemma StoredTwin(h: History, view: ViewRef, stored: seq<FeatureResult>, t: nat, r: FeatureResult)
    requires t < |stored| && SignatureOf(stored[t]) == SignatureOf(r)
    ensures Represented(h + Records(view, stored), view, r)
  {
    RepresentsItself(h, view, stored, stored[t]);
    RepresentedByTwin(h + Records(view, stored), view, r, stored[t]);
  }

  lemma NoStoredRowCollides(h: History, view: ViewRef, all: seq<FeatureResult>, k: nat, n: nat)
    requires CollisionFree(view, all) && k <= n < |all|
    ensures forall i :: 0 <= i < k ==> !(Matches(QueryFor(view, all[n]), Record(view, all[i])) &&
                                         SameState(all[i], all[n]))
  {
    forall i | 0 <= i < k
      ensures !(Matches(QueryFor(view, all[n]), Record(view, all[i])) && SameState(all[i], all[n]))
    {
      assert !Collides(view, all, i, n);
    }
  }

  /** One attempt to append an event's results: complete, or stopped after some rows. */
  ghost function Attempt(h: History, e: WriteEvent, stopsAfter: Option<nat>): History {
    var kept := NewResults(h, e.view, e.results);
    h + Records(e.view, if stopsAfter.None? then kept else kept[..Min(stopsAfter.value, |kept|)])
  }

  ghost function Attempts(h: History, e: WriteEvent, attempts: seq<Option<nat>>): History {
    if attempts == [] then h else Attempt(Attempts(h, e, attempts[..|attempts| - 1]), e, attempts[|attempts| - 1])
  }

  lemma AttemptGoesOn(h: History, e: WriteEvent, all: seq<FeatureResult>, j: nat, stopsAfter: Option<nat>)
    returns (k: nat)
    requires j <= |all| && NewResults(h + Records(e.view, all[..j]), e.view, e.results) == all[j..]
    ensures j <= k <= |all| && (stopsAfter.None? ==> k == |all|)
    ensures Attempt(h + Records(e.view, all[..j]), e, stopsAfter) == h + Records(e.view, all[..k])
  {
    hide NewResults;
    k := if stopsAfter.None? then |all| else j + Min(stopsAfter.value, |all| - j);
    assert all[j..][..k - j] == all[j..k] && all[..k] == all[..j] + all[j..k];
    assert Records(e.view, all[..k]) == Records(e.view, all[..j]) + Records(e.view, all[j..k]);
  }

  /** However many attempts it takes and wherever they stop: the history holds a part of the new
      rows in order, and once one attempt was complete, exactly all of them. */
  lemma {:induction false} AttemptsGoOn(h: History, e: WriteEvent, attempts: seq<Option<nat>>) returns (k: nat)
    requires CollisionFree(e.view, NewResults(h, e.view, e.results))
    ensures k <= |NewResults(h, e.view, e.results)|
    ensures Attempts(h, e, attempts) == h + Records(e.view, NewResults(h, e.view, e.results)[..k])
    ensures None in attempts ==> Attempts(h, e, attempts) == Appended(h, e.view, e.results)
    ensures None in attempts ==> k == |NewResults(h, e.view, e.results)|
  {
    var all := NewResults(h, e.view, e.results);
    assert all[..|all|] == all;
    if attempts == [] {
      k := 0;
      assert h + Records(e.view, all[..0]) == h;
    } else {
      var front, last := attempts[..|attempts| - 1], attempts[|attempts| - 1];
      assert attempts == front + [last];
      var j := AttemptsGoOn(h, e, front);
      RestIsStillNew(h, e.view, e.results, all, j);
      k := AttemptGoesOn(h, e, all, j, last);
    }
  }

  /** A complete attempt keeps nothing that is stored already. */
  lemma {:induction false} NewIsNotStored(h: History, view: ViewRef, results: seq<FeatureResult>, r: FeatureResult)
    requires r in NewResults(h, view, results)
    ensures !Represented(h, view, r)
  {
    var front, last := results[..|results| - 1], results[|results| - 1];
    assert results == front + [last];
    NewSnoc(h, view, front, last);
    if r in NewResults(h, view, front) {
      NewIsNotStored(h, view, front, r);
    }
  }

  /** An event with two colliding new rows: if the first attempt stops between them, completing it
      afterwards takes the later one for a duplicate and stores fewer rows. */
  lemma CollidingRowIsLost(h: History, e: WriteEvent, i: nat, j: nat)
    requires Collides(e.view, NewResults(h, e.view, e.results), i, j)
    ensures Attempts(h, e, [Some(j), None]) != Appended(h, e.view, e.results)
  {
    var all := NewResults(h, e.view, e.results);
    var stored := all[..j];
    var first := h + Records(e.view, stored);
    assert [Some(j), None][..1] == [Some(j)] && [Some(j)][..0] == [];
    assert Attempts(h, e, []) == h;
    assert Attempts(h, e, [Some(j)]) == first;
    assert StoredIn(e.view, stored, all[j]) by {
      assert stored[i] == all[i];
    }
    RepresentedInExtension(h, e.view, stored, all[j]);
    var rest := NewResults(first, e.view, e.results);
    if first + Records(e.view, rest) == h + Records(e.view, all) {
      RestIsTheTail(h, e.view, all, j, rest);
      assert all[j] in rest;
      NewIsNotStored(first, e.view, e.results, all[j]);
    }
  }

  lemma RestIsTheTail(h: History, view: ViewRef, all: seq<FeatureResult>, j: nat, rest: seq<FeatureResult>)
    requires j < |all| && h + Records(view, all[..j]) + Records(view, rest) == h + Records(view, all)
    ensures rest != [] && rest[0] == all[j]
  {
    var whole := h + Records(view, all);
    assert |h + Records(view, all[..j])| == |h| + j;
    assert whole[|h| + j] == Record(view, all[j]);
    assert (h + Records(view, all[..j]) + Records(view, rest))[|h| + j] == Records(view, rest)[0];
  }

  /** Deliveries that were interrupted and repeated amount to a single append, however they were
      interrupted, if and only if no two new rows of the event collide. */
  lemma EffectivelyOnceIff(h: History, e: WriteEvent)
    ensures CollisionFree(e.view, NewResults(h, e.view, e.results)) <==>
      forall attempts :: None in attempts ==> Attempts(h, e, attempts) == Appended(h, e.view, e.results)
  {
    var all := NewResults(h, e.view, e.results);
    if CollisionFree(e.view, all) {
      forall attempts | None in attempts
        ensures Attempts(h, e, attempts) == Appended(h, e.view, e.results)
      {
        var _ := AttemptsGoOn(h, e, attempts);
      }
    } else {
      var i: nat, j: nat :| Collides(e.view, all, i, j);
      CollidingRowIsLost(h, e, i, j);
      assert [Some(j), None][1] == None;
    }
  }

  // ---------------------------------------------------------------------------------------
  // Attempts are what the deliveries of a run make
  // ---------------------------------------------------------------------------------------

  /** Nothing but this event is written: other events and other writers stay away. */
  ghost predicate Concerns(s: State, e: WriteEvent, a: Action) {
    match a
    case Produce(_) => true
    case AppendElsewhere(_) => false
    case Deliver(o, _) => o < |s.topic| && !Poison(s.topic[o].body) ==> s.topic[o].body.event == e
  }

  /** The append that an action makes; some make none. */
  ghost function AttemptOf(s: State, a: Action): Option<nat> {
    if a.Deliver? && a.offset < |s.topic| && !Poison(s.topic[a.offset].body) then
      match a.reach
      case StopsAppending(rows) => Some(rows)
      case RaisesUnexpectedly(_, _) => Some(0)
      case _ => None
    else Some(0)
  }

  lemma AttemptOfNothing(h: History, e: WriteEvent)
    ensures Attempt(h, e, Some(0)) == h
  {
    assert NewResults(h, e.view, e.results)[..0] == [];
    assert h + Records(e.view, []) == h;
  }

  lemma PlayIsAnAttempt(views: seq<ViewDef>, s: State, e: WriteEvent, a: Action, maxAttempts: int)
    requires Concerns(s, e, a)
    ensures Play(views, s, a, maxAttempts).history == Attempt(s.history, e, AttemptOf(s, a))
    ensures Play(views, s, a, maxAttempts).appended != s.appended ==> AttemptOf(s, a) == None
  {
    AttemptOfNothing(s.history, e);
  }

  ghost function AttemptsOf(views: seq<ViewDef>, before: seq<Action>, actions: seq<Action>,
                            maxAttempts: int): seq<Option<nat>> {
    if actions == [] then []
    else
      var front := actions[..|actions| - 1];
      AttemptsOf(views, before, front, maxAttempts)
      + [AttemptOf(Run(views, before + front, maxAttempts), actions[|actions| - 1])]
  }

  /** A stretch of a run in which only one event is written. */
  ghost predicate Alone(views: seq<ViewDef>, before: seq<Action>, actions: seq<Action>, maxAttempts: int,
                        e: WriteEvent) {
    actions == []
    || var front := actions[..|actions| - 1];
       Alone(views, before, front, maxAttempts, e)
       && Concerns(Run(views, before + front, maxAttempts), e, actions[|actions| - 1])
  }

  lemma RunSnoc(views: seq<ViewDef>, before: seq<Action>, actions: seq<Action>, maxAttempts: int)
    requires actions != []
    ensures Run(views, before + actions, maxAttempts)
         == Play(views, Run(views, before + actions[..|actions| - 1], maxAttempts), actions[|actions| - 1], maxAttempts)
  {
    assert (before + actions)[..|before + actions| - 1] == before + actions[..|actions| - 1];
  }

  /** In such a stretch the deliveries of the event, and those of its retry copies, are attempts. */
  lemma {:induction false} DeliveriesAreAttempts(views: seq<ViewDef>, before: seq<Action>, actions: seq<Action>,
                                                 maxAttempts: int, e: WriteEvent)
    requires Alone(views, before, actions, maxAttempts, e)
    ensures var s, s' := Run(views, before, maxAttempts), Run(views, before + actions, maxAttempts);
      var attempts := AttemptsOf(views, before, actions, maxAttempts);
      && s'.history == Attempts(s.history, e, attempts)
      && (s'.appended != s.appended ==> None in attempts)
  {
    if actions == [] {
      assert before + actions == before;
    } else {
      var front, last := actions[..|actions| - 1], actions[|actions| - 1];
      var s' := Run(views, before + front, maxAttempts);
      DeliveriesAreAttempts(views, before, front, maxAttempts, e);
      RunSnoc(views, before, actions, maxAttempts);
      PlayIsAnAttempt(views, s', e, last, maxAttempts);
      hide Run, Play, Attempt, AttemptOf, Concerns;
      var fewer := AttemptsOf(views, before, front, maxAttempts);
      assert (fewer + [AttemptOf(s', last)])[..|fewer|] == fewer;
    }
  }

  /** Exactly once: if in such a stretch an append of the event was completed and no two of its new
      rows collide, the history holds exactly the rows of a single append. */
  lemma EventIsStoredOnce(views: seq<ViewDef>, before: seq<Action>, actions: seq<Action>, maxAttempts: int,
                          e: WriteEvent)
    requires Alone(views, before, actions, maxAttempts, e)
    requires Run(views, before + actions, maxAttempts).appended != Run(views, before, maxAttempts).appended
    requires CollisionFree(e.view, NewResults(Run(views, before, maxAttempts).history, e.view, e.results))
    ensures Run(views, before + actions, maxAttempts).history
         == Appended(Run(views, before, maxAttempts).history, e.view, e.results)
  {
    DeliveriesAreAttempts(views, before, actions, maxAttempts, e);
    var _ := AttemptsGoOn(Run(views, before, maxAttempts).history, e, AttemptsOf(views, before, actions, maxAttempts));
  }

  /** The results of a write set: one per feature, each under a reference of its own. */
  ghost predicate DistinctRefs(results: seq<FeatureResult>) {
    forall i, j :: 0 <= i < j < |results| ==> results[i].ref != results[j].ref
  }

  lemma {:induction false} NewResultsAreDistinct(h: History, view: ViewRef, results: seq<FeatureResult>)
    requires DistinctRefs(results)
    ensures DistinctRefs(NewResults(h, view, results))
    ensures forall r :: r in NewResults(h, view, results) ==> r in results
  {
    if results != [] {
      var front, last := results[..|results| - 1], results[|results| - 1];
      assert results == front + [last];
      NewResultsAreDistinct(h, view, front);
      assert forall r :: r in front ==> r.ref != last.ref;
    }
  }

  /** An event built from a write set never collides, whatever is in the history. */
  lemma DistinctRefsNeverCollide(h: History, e: WriteEvent)
    requires DistinctRefs(e.results)
    ensures CollisionFree(e.view, NewResults(h, e.view, e.results))
  {
    NewResultsAreDistinct(h, e.view, e.results);
  }

  /** So such an event is stored exactly once, without any condition on its rows. */
  lemma WriteSetIsStoredOnce(views: seq<ViewDef>, before: seq<Action>, actions: seq<Action>, maxAttempts: int,
                             e: WriteEvent)
    requires DistinctRefs(e.results) && Alone(views, before, actions, maxAttempts, e)
    requires Run(views, before + actions, maxAttempts).appended != Run(views, before, maxAttempts).appended
    ensures Run(views, before + actions, maxAttempts).history
         == Appended(Run(views, before, maxAttempts).history, e.view, e.results)
  {
    DistinctRefsNeverCollide(Run(views, before, maxAttempts).history, e);
    EventIsStoredOnce(views, before, actions, maxAttempts, e);
  }

  // ---------------------------------------------------------------------------------------
  // Nothing is lost
  // ---------------------------------------------------------------------------------------

  /** Message `p` carries message `o` on: a chain of bounded retry copies leads from one to the other. */
  ghost predicate Carries(s: State, o: nat, p: nat, chain: seq<Write>, maxAttempts: int) {
    && o < |s.topic| && p < |s.topic| && RetryChain(chain, maxAttempts)
    && chain[0] == s.topic[o] && chain[|chain| - 1] == s.topic[p]
  }

  /** In every run, whatever was produced is still waiting for delivery, stored and announced, or
      dead-lettered, possibly as a retry copy of itself. */
  lemma {:induction false} NotLost(views: seq<ViewDef>, s: State, o: nat, maxAttempts: int)
    returns (p: nat, chain: seq<Write>)
    requires Invariant(views, s, maxAttempts) && o < |s.topic|
    ensures Carries(s, o, p, chain, maxAttempts)
    ensures p !in s.committed || Served(views, s, p) || p in s.deadLetters
    decreases Max(0, maxAttempts - GetAttempt(s.topic[o].headers))
  {
    p, chain := o, [s.topic[o]];
    if o in s.committed && !Served(views, s, o) && o !in s.deadLetters {
      assert Covered(views, s, o, maxAttempts);
      var copy := RetryCopy(s.topic[o]);
      var o' :| 0 <= o' < |s.topic| && s.topic[o'] == copy;
      var rest;
      p, rest := NotLost(views, s, o', maxAttempts);
      ChainGrows(s.topic[o], rest, maxAttempts);
      chain := [s.topic[o]] + rest;
    }
  }

  /** Once every offset is committed, every event is stored and announced, or dead-lettered. */
  lemma DrainedIsSettled(views: seq<ViewDef>, actions: seq<Action>, maxAttempts: int, o: nat) returns (p: nat)
    requires o < |Run(views, actions, maxAttempts).topic|
    requires forall q :: 0 <= q < |Run(views, actions, maxAttempts).topic| ==>
      q in Run(views, actions, maxAttempts).committed
    ensures var s := Run(views, actions, maxAttempts);
      p < |s.topic| && s.topic[p].body == s.topic[o].body && (Served(views, s, p) || p in s.deadLetters)
  {
    RunKeepsInvariant(views, actions, maxAttempts);
    var chain;
    p, chain := NotLost(views, Run(views, actions, maxAttempts), o, maxAttempts);
    ChainsAreShort(chain, maxAttempts);
  }
}
