/** The debounce store (propagation.py): many updates for one entity and dependent become one unit
    of work that carries the newest input watermark. */
module Debounce {
  import opened Domain
  import opened Registry
  import opened Propagation

  datatype Key = Key(entityType: string, entity: EntityKey, view: ViewRef, dependent: string, dependentVersion: nat)

  function KeyOf(c: Candidate): Key { Key(c.entityType, c.entity, c.view, c.dependent, c.dependentVersion) }

  datatype Entry = Entry(
    candidate: Candidate, latestUpdate: nat, latestDataTs: Time, latestCalcTs: Time,
    firstSeenAt: Time, updatedAt: Time, count: nat, triggers: seq<nat>)

  /** One call of `observe`. */
  datatype Observation = Observation(candidate: Candidate, update: Update, now: Time)

  function First(o: Observation): Entry {
    Entry(o.candidate, o.update.id, o.update.dataTs, o.update.calcTs, o.now, o.now, 1, [o.update.id])
  }

  function Coalesce(e: Entry, o: Observation): Entry {
    var counted := e.(count := e.count + 1, updatedAt := o.now, triggers := e.triggers + [o.update.id]);
    if o.update.dataTs >= e.latestDataTs
    then counted.(latestUpdate := o.update.id, latestDataTs := o.update.dataTs, latestCalcTs := o.update.calcTs)
    else counted
  }

  // ---------------------------------------------------------------------------------------
  // The store as a digest of what was observed since the last drain
  // ---------------------------------------------------------------------------------------

  function Keys(seen: seq<Observation>): seq<Key> {
    seq(|seen|, i requires 0 <= i < |seen| => KeyOf(seen[i].candidate))
  }

  /** The observations of one key, in order. */
  function Of(seen: seq<Observation>, k: Key): seq<Observation> {
    if seen == [] then []
    else Of(seen[..|seen| - 1], k) + if KeyOf(seen[|seen| - 1].candidate) == k then [seen[|seen| - 1]] else []
  }

  function Digest(observed: seq<Observation>): Entry
    requires observed != []
  {
    if |observed| == 1 then First(observed[0])
      else Coalesce(Digest(observed[..|observed| - 1]), observed[|observed| - 1])
  }

  ghost predicate Digests(order: seq<Key>, entries: map<Key, Entry>, seen: seq<Observation>) {
    && order == Dedupe(Keys(seen)) && (forall k :: k in order <==> k in entries)
    && forall k :: k in entries ==> Of(seen, k) != [] && entries[k] == Digest(Of(seen, k))
  }

  lemma OfSnoc(seen: seq<Observation>, o: Observation, k: Key)
    ensures Of(seen + [o], k) == if KeyOf(o.candidate) == k then Of(seen, k) + [o] else Of(seen, k)
  {
    assert (seen + [o])[..|seen|] == seen;
  }

  lemma DigestSnoc(observed: seq<Observation>, o: Observation)
    ensures Digest(observed + [o]) == if observed == [] then First(o) else Coalesce(Digest(observed), o)
  {
    assert (observed + [o])[..|observed|] == observed;
  }

  lemma OrderSnoc(seen: seq<Observation>, o: Observation)
    ensures var order, k := Dedupe(Keys(seen)), KeyOf(o.candidate);
      Dedupe(Keys(seen + [o])) == if k in order then order else order + [k]
  {
    assert Keys(seen + [o]) == Keys(seen) + [KeyOf(o.candidate)];
    DedupeSnoc(Keys(seen), KeyOf(o.candidate));
  }

  /** What the entry of `k` becomes when `o` is observed. */
  function Next(entries: map<Key, Entry>, o: Observation): map<Key, Entry> {
    var k := KeyOf(o.candidate);
    entries[k := if k in entries then Coalesce(entries[k], o) else First(o)]
  }

  lemma ObserveKeepsDigest(order: seq<Key>, entries: map<Key, Entry>, seen: seq<Observation>, o: Observation)
    requires Digests(order, entries, seen)
    ensures Digests(if KeyOf(o.candidate) in entries then order else order + [KeyOf(o.candidate)], Next(entries, o),
                    seen + [o])
  {
    var key := KeyOf(o.candidate);
    OrderSnoc(seen, o);
    forall k | k in Next(entries, o)
      ensures Of(seen + [o], k) != [] && Next(entries, o)[k] == Digest(Of(seen + [o], k))
    {
      OfSnoc(seen, o, k);
      if k == key {
        DigestSnoc(Of(seen, k), o);
        OfIsEmpty(seen, k);
        assert k in order <==> k in Keys(seen);
      }
    }
  }

  lemma {:induction false} OfIsEmpty(seen: seq<Observation>, k: Key)
    ensures Of(seen, k) == [] <==> k !in Keys(seen)
  {
    if seen != [] {
      OfIsEmpty(seen[..|seen| - 1], k);
      assert Keys(seen) == Keys(seen[..|seen| - 1]) + [KeyOf(seen[|seen| - 1].candidate)];
    }
  }

  lemma EntriesAreSeen(order: seq<Key>, entries: map<Key, Entry>, seen: seq<Observation>, k: Key)
    requires Digests(order, entries, seen)
    ensures k in entries <==> exists o :: o in seen && KeyOf(o.candidate) == k
  {
    assert k in entries <==> k in Keys(seen);
    if o :| o in seen && KeyOf(o.candidate) == k {
      var i :| 0 <= i < |seen| && seen[i] == o;
      assert Keys(seen)[i] == k;
    }
  }

  class DebounceStore {
    var order: seq<Key>
    var entries: map<Key, Entry>
    /** Everything observed since the last drain. */
    ghost var seen: seq<Observation>

    ghost predicate Valid()
      reads this
    {
      Digests(order, entries, seen)
    }

    constructor ()
      ensures Valid() && seen == []
    {
      order, entries, seen := [], map[], [];
    }

    method Observe(c: Candidate, u: Update, now: Time) returns (created: bool)
      requires Valid()
      modifies this
      ensures Valid() && seen == old(seen) + [Observation(c, u, now)]
      ensures created <==> forall o :: o in old(seen) ==> KeyOf(o.candidate) != KeyOf(c)
    {
      var key, o := KeyOf(c), Observation(c, u, now);
      ObserveKeepsDigest(order, entries, seen, o);
      EntriesAreSeen(order, entries, seen, key);
      created := key !in entries;
      if created {
        order := order + [key];
        entries := entries[key := First(o)];
      } else {
        entries := entries[key := Coalesce(entries[key], o)];
      }
      seen := seen + [o];
    }

    method Pending() returns (units: seq<Entry>)
      requires Valid()
      ensures units == Units(seen)
    {
      units := [];
      for i := 0 to |order|
        invariant |units| == i
        invariant forall j :: 0 <= j < i ==> units[j] == entries[order[j]]
      {
        assert order[i] in order;
        units := units + [entries[order[i]]];
      }
      forall k | k in Dedupe(Keys(seen)) ensures Of(seen, k) != [] {
        OfIsEmpty(seen, k);
      }
      forall j | 0 <= j < |order| ensures units[j] == Units(seen)[j] {
        assert order[j] in entries;
      }
    }

    method Drain() returns (units: seq<Entry>)
      requires Valid()
      modifies this
      ensures Valid() && seen == []
      ensures units == Units(old(seen))
    {
      units := Pending();
      order, entries, seen := [], map[], [];
    }
  }

  /** The units of work that the observations amount to: one per key, in first-seen order. */
  function Units(seen: seq<Observation>): (units: seq<Entry>)
    ensures |units| == |Dedupe(Keys(seen))|
    ensures forall i :: 0 <= i < |units| ==>
      Of(seen, Dedupe(Keys(seen))[i]) != [] && units[i] == Digest(Of(seen, Dedupe(Keys(seen))[i]))
  {
    var keys := Dedupe(Keys(seen));
    assert forall k :: k in keys ==> Of(seen, k) != [] by {
      forall k | k in keys ensures Of(seen, k) != [] {
        OfIsEmpty(seen, k);
      }
    }
    seq(|keys|, i requires 0 <= i < |keys| => Digest(Of(seen, keys[i])))
  }

  // ---------------------------------------------------------------------------------------
  // Conservation
  // ---------------------------------------------------------------------------------------

  function UpdateIds(observed: seq<Observation>): seq<nat> {
    seq(|observed|, i requires 0 <= i < |observed| => observed[i].update.id)
  }

  /** Observation `i` carries the newest data time; among equals it is the last one. */
  ghost predicate Newest(observed: seq<Observation>, i: nat) {
    && i < |observed|
    && forall j :: 0 <= j < |observed| ==>
         observed[j].update.dataTs <= observed[i].update.dataTs &&
           (i < j ==> observed[j].update.dataTs < observed[i].update.dataTs)
  }

  /** A unit lists every update that was coalesced into it, and its watermark is the newest data
      time among them, with the id of the last update that attains it. */
  lemma {:induction false} DigestKeepsEverything(observed: seq<Observation>) returns (i: nat)
    requires observed != []
    ensures var e := Digest(observed);
      && e.triggers == UpdateIds(observed) && e.count == |observed| == |e.triggers|
      && e.candidate == observed[0].candidate && e.firstSeenAt == observed[0].now &&
        e.updatedAt == observed[|observed| - 1].now
      && Newest(observed, i) && e.latestUpdate == observed[i].update.id
      && e.latestDataTs == observed[i].update.dataTs && e.latestCalcTs == observed[i].update.calcTs
  {
    if |observed| == 1 {
      i := 0;
    } else {
      var front, last := observed[..|observed| - 1], observed[|observed| - 1];
      var before := DigestKeepsEverything(front);
      i := if last.update.dataTs >= front[before].update.dataTs then |front| else before;
      assert UpdateIds(observed) == UpdateIds(front) + [last.update.id];
      assert forall j :: 0 <= j < |front| ==> front[j] == observed[j];
    }
  }

  lemma {:induction false} OfIsItsKey(seen: seq<Observation>, k: Key, o: Observation)
    ensures o in Of(seen, k) <==> o in seen && KeyOf(o.candidate) == k
  {
    if seen != [] {
      OfIsItsKey(seen[..|seen| - 1], k, o);
      assert seen == seen[..|seen| - 1] + [seen[|seen| - 1]];
    }
  }

  /** The observations of some keys, counted. */
  function CountOf(seen: seq<Observation>, keys: seq<Key>): nat {
    if keys == [] then 0 else CountOf(seen, keys[..|keys| - 1]) + |Of(seen, keys[|keys| - 1])|
  }

  lemma {:induction false} CountSnoc(seen: seq<Observation>, o: Observation, keys: seq<Key>)
    requires NoDup(keys)
    ensures CountOf(seen + [o], keys) == CountOf(seen, keys) + if KeyOf(o.candidate) in keys then 1 else 0
  {
    assert (seen + [o])[..|seen|] == seen;
    if keys != [] {
      CountSnoc(seen, o, keys[..|keys| - 1]);
      assert keys == keys[..|keys| - 1] + [keys[|keys| - 1]];
    }
  }

  lemma {:induction false} CountsAddUp(seen: seq<Observation>)
    ensures CountOf(seen, Dedupe(Keys(seen))) == |seen|
  {
    if seen != [] {
      var front, o := seen[..|seen| - 1], seen[|seen| - 1];
      var k, keys := KeyOf(o.candidate), Dedupe(Keys(front));
      CountsAddUp(front);
      assert seen == front + [o];
      OrderSnoc(front, o);
      CountSnoc(front, o, Dedupe(Keys(seen)));
      OfIsEmpty(front, k);
      hide CountOf, Of, Keys;
      if k !in keys {
        CountIgnoresOthers(front, keys, k);
      }
    }
  }

  lemma CountIgnoresOthers(seen: seq<Observation>, keys: seq<Key>, k: Key)
    requires Of(seen, k) == []
    ensures CountOf(seen, keys + [k]) == CountOf(seen, keys)
  {
    assert (keys + [k])[..|keys|] == keys;
  }

  function TotalCount(units: seq<Entry>): nat {
    if units == [] then 0 else TotalCount(units[..|units| - 1]) + units[|units| - 1].count
  }

  lemma {:induction false} TotalIsCount(units: seq<Entry>, seen: seq<Observation>, keys: seq<Key>)
    requires |units| == |keys|
    requires forall i :: 0 <= i < |units| ==> Of(seen, keys[i]) != [] && units[i] == Digest(Of(seen, keys[i]))
    ensures TotalCount(units) == CountOf(seen, keys)
  {
    if units != [] {
      TotalIsCount(units[..|units| - 1], seen, keys[..|keys| - 1]);
      var _ := DigestKeepsEverything(Of(seen, keys[|keys| - 1]));
    }
  }

  /** The unit of its key lists the observation among its triggers. */
  ghost predicate Triggers(units: seq<Entry>, o: Observation) {
    exists i :: 0 <= i < |units| && KeyOf(units[i].candidate) == KeyOf(o.candidate) && o.update.id in units[i].triggers
  }

  /** Nothing observed is dropped or counted twice: the counts of the units add up to the number
      of observations, one unit per distinct key. */
  lemma DebounceConserves(seen: seq<Observation>)
    ensures TotalCount(Units(seen)) == |seen|
    ensures forall i, j :: 0 <= i < j < |Units(seen)| ==>
      KeyOf(Units(seen)[i].candidate) != KeyOf(Units(seen)[j].candidate)
    ensures forall o :: o in seen ==> Triggers(Units(seen), o)
  {
    var units, keys := Units(seen), Dedupe(Keys(seen));
    TotalIsCount(units, seen, keys);
    CountsAddUp(seen);
    forall i | 0 <= i < |units|
      ensures KeyOf(units[i].candidate) == keys[i]
    {
      UnitHasItsKey(seen, keys[i]);
    }
    forall o | o in seen
      ensures Triggers(units, o)
    {
      var n :| 0 <= n < |seen| && seen[n] == o;
      assert Keys(seen)[n] == KeyOf(o.candidate);
      assert KeyOf(o.candidate) in keys;
      var i :| 0 <= i < |keys| && keys[i] == KeyOf(o.candidate);
      TriggerIsListed(seen, keys[i], o);
      assert units[i] == Digest(Of(seen, keys[i]));
    }
  }

  lemma UnitHasItsKey(seen: seq<Observation>, k: Key)
    requires Of(seen, k) != []
    ensures KeyOf(Digest(Of(seen, k)).candidate) == k
  {
    var _ := DigestKeepsEverything(Of(seen, k));
    OfIsItsKey(seen, k, Of(seen, k)[0]);
  }

  lemma TriggerIsListed(seen: seq<Observation>, k: Key, o: Observation)
    requires o in seen && KeyOf(o.candidate) == k
    ensures Of(seen, k) != [] && o.update.id in Digest(Of(seen, k)).triggers
  {
    OfIsItsKey(seen, k, o);
    var i :| 0 <= i < |Of(seen, k)| && Of(seen, k)[i] == o;
    var _ := DigestKeepsEverything(Of(seen, k));
    assert UpdateIds(Of(seen, k))[i] == o.update.id;
  }

  // ---------------------------------------------------------------------------------------
  // Which observations a unit stands for
  // ---------------------------------------------------------------------------------------

  /** Both would recompute the same version of the same dependent for the same entity. */
  predicate SameWork(a: Candidate, b: Candidate) {
    && a.entityType == b.entityType && a.entity == b.entity && a.view == b.view
    && a.dependent == b.dependent && a.dependentVersion == b.dependentVersion
  }

  /** `at` are the positions of the observations with the key, and `mine` the observations. */
  ghost predicate Selects(seen: seq<Observation>, c: Candidate, at: seq<nat>, mine: seq<Observation>) {
    && Increasing(at) && (forall i: nat :: i in at <==> i < |seen| && SameWork(seen[i].candidate, c))
    && |mine| == |at| && forall k :: 0 <= k < |at| ==> at[k] < |seen| && mine[k] == seen[at[k]]
  }

  lemma SelectsSnoc(front: seq<Observation>, last: Observation, c: Candidate, at: seq<nat>, mine: seq<Observation>)
    requires Selects(front, c, at, mine)
    ensures if SameWork(last.candidate, c) then Selects(front + [last], c, at + [|front|], mine + [last])
            else Selects(front + [last], c, at, mine)
  {
    hide SameWork;
    assert forall k :: 0 <= k < |at| ==> at[k] in at;
  }

  lemma {:induction false} OfSelects(seen: seq<Observation>, c: Candidate) returns (at: seq<nat>)
    ensures Selects(seen, c, at, Of(seen, KeyOf(c)))
  {
    at := [];
    if seen != [] {
      var front, last := seen[..|seen| - 1], seen[|seen| - 1];
      assert KeyOf(last.candidate) == KeyOf(c) <==> SameWork(last.candidate, c);
      hide Selects, SameWork, KeyOf, Of;
      assert seen == front + [last];
      OfSnoc(front, last, KeyOf(c));
      at := OfSelects(front, c);
      SelectsSnoc(front, last, c, at, Of(front, KeyOf(c)));
      at := if KeyOf(last.candidate) == KeyOf(c) then at + [|front|] else at;
    }
  }

  /** A drained unit stands for the observations at the positions `at`: all that ask for the same work.
      It carries the candidate of the first of them, lists all their updates, and its watermark is that
      of the last one with the newest data time. */
  lemma UnitMeans(seen: seq<Observation>, u: nat) returns (at: seq<nat>, newest: nat)
    requires u < |Units(seen)|
    ensures var e := Units(seen)[u];
      && Increasing(at) && at != [] && newest in at && (forall k :: 0 <= k < |at| ==> at[k] < |seen|)
      && (forall i: nat :: i in at <==> i < |seen| && SameWork(seen[i].candidate, e.candidate))
      && e.candidate == seen[at[0]].candidate && e.firstSeenAt == seen[at[0]].now
      && e.updatedAt == seen[at[|at| - 1]].now && e.count == |at| == |e.triggers|
      && (forall k :: 0 <= k < |at| ==> e.triggers[k] == seen[at[k]].update.id)
      && (forall i :: i in at ==>
            seen[i].update.dataTs < e.latestDataTs || (seen[i].update.dataTs == e.latestDataTs && i <= newest))
      && e.latestUpdate == seen[newest].update.id && e.latestDataTs == seen[newest].update.dataTs
      && e.latestCalcTs == seen[newest].update.calcTs
  {
    var key := Dedupe(Keys(seen))[u];
    var mine := Of(seen, key);
    var e := Units(seen)[u];
    UnitHasItsKey(seen, key);
    var i := DigestKeepsEverything(mine);
    at := OfSelects(seen, e.candidate);
    hide Units, Of, Digest, SameWork, KeyOf, Keys;
    newest := at[i];
    assert forall k :: 0 <= k < |at| ==> at[k] in at;
    forall j | j in at
      ensures seen[j].update.dataTs < e.latestDataTs || (seen[j].update.dataTs == e.latestDataTs && j <= newest)
    {
      var k :| 0 <= k < |at| && at[k] == j;
    }
  }
}
