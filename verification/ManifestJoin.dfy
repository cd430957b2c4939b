/** The multi-manifest join of a batch request (app.py): landed items are joined by their complete
    canonical entity key, ambiguous bindings fail closed, and the result is chunked. */
module ManifestJoin {
  import opened Domain
  import opened Sorting
  import opened KeyCodec

  datatype ItemStatus = WrittenItem | DuplicateItem | RejectedItem

  /** One landed item. An empty reference or key stands for an absent one. */
  datatype LandedItem = LandedItem(
    status: ItemStatus, reportRef: string, entityKey: map<string, string>, sourceName: string)

  datatype BatchItem = BatchItem(entityKey: map<string, string>, sourceRefs: map<string, string>)

  predicate Considered(item: LandedItem) {
    item.status != RejectedItem && item.reportRef != "" && item.entityKey != map[]
  }

  datatype JoinError = MalformedKey | AmbiguousBinding(count: nat, sources: set<string>)

  datatype JoinResult = Joined(items: seq<BatchItem>) | Rejected(error: JoinError)

  // ---------------------------------------------------------------------------------------
  // What the join means
  // ---------------------------------------------------------------------------------------

  /** What a well-keyed item says: the entity with this canonical key has this report for this source. */
  datatype Binding = Binding(encoded: string, parts: map<string, string>, source: string, ref: string)

  ghost predicate WellKeyed(keyFields: seq<string>, items: seq<LandedItem>) {
    forall i :: i in items && Considered(i) ==> Canonical(keyFields, i.entityKey).Some?
  }

  ghost function BindingOf(keyFields: seq<string>, item: LandedItem): Binding
    requires Canonical(keyFields, item.entityKey).Some?
  {
    Binding(Canonical(keyFields, item.entityKey).value, Restrict(keyFields, item.entityKey), item.sourceName,
            item.reportRef)
  }

  /** The bindings that the items state, as a set: the order of the items is irrelevant. */
  ghost function Bindings(keyFields: seq<string>, items: seq<LandedItem>): set<Binding> {
    set i | i in items && Considered(i) && Canonical(keyFields, i.entityKey).Some? :: BindingOf(keyFields, i)
  }

  /** Which bindings are stated: by an item that landed or repeated a landed one, with a report and with
      a key that can be encoded; other fields of the key are left out. */
  lemma BindingsMean(keyFields: seq<string>, items: seq<LandedItem>, b: Binding)
    ensures b in Bindings(keyFields, items) <==>
      exists i :: i in items && (i.status == WrittenItem || i.status == DuplicateItem) && i.reportRef == b.ref != "" &&
        i.sourceName == b.source && (exists n :: n in i.entityKey) &&
        Canonical(keyFields, i.entityKey) == Some(b.encoded) &&
        (forall f :: f in b.parts <==> f in keyFields) &&
        forall f :: f in b.parts ==> f in i.entityKey && b.parts[f] == i.entityKey[f]
  {
    assert forall i: LandedItem :: Considered(i) <==>
      i.status != RejectedItem && i.reportRef != "" && exists n :: n in i.entityKey;
    hide Considered, Encode;
    forall i | i in items && Considered(i) && Canonical(keyFields, i.entityKey) == Some(b.encoded)
      ensures Restrict(keyFields, i.entityKey) == b.parts <==>
        (forall f :: f in b.parts <==> f in keyFields) &&
        forall f :: f in b.parts ==> f in i.entityKey && b.parts[f] == i.entityKey[f]
    {
    }
  }

  /** (canonical key, source) determines the report. */
  ghost predicate Functional(stream: set<Binding>) {
    forall a, b :: a in stream && b in stream && a.encoded == b.encoded && a.source == b.source ==> a.ref == b.ref
  }

  /** The canonical key determines the entity. */
  ghost predicate Coherent(stream: set<Binding>) {
    forall a, b :: a in stream && b in stream && a.encoded == b.encoded ==> a.parts == b.parts
  }

  /** `item` collects exactly the bindings of the entity with the encoded key `enc`. */
  ghost predicate Collects(stream: set<Binding>, enc: string, item: BatchItem) {
    && item.sourceRefs != map[]
    && (forall b :: b in stream && b.encoded == enc ==> b.source in item.sourceRefs)
    && (forall s :: s in item.sourceRefs ==> Binding(enc, item.entityKey, s, item.sourceRefs[s]) in stream)
  }

  /** One item per entity, in strictly increasing order of the encoded keys. */
  ghost predicate IsJoin(stream: set<Binding>, items: seq<BatchItem>, encs: seq<string>) {
    && |items| == |encs| && StrictlyIncreasing(encs)
    && (forall b :: b in stream ==> b.encoded in encs)
    && forall k :: 0 <= k < |encs| ==> Collects(stream, encs[k], items[k])
  }

  /** The join of a stream is unique: it does not depend on the order of the items. */
  lemma JoinIsUnique(stream: set<Binding>, items: seq<BatchItem>, encs: seq<string>, items': seq<BatchItem>,
                     encs': seq<string>)
    requires Coherent(stream) && Functional(stream)
    requires IsJoin(stream, items, encs) && IsJoin(stream, items', encs')
    ensures items == items' && encs == encs'
  {
    EncsCover(stream, items, encs, encs');
    EncsCover(stream, items', encs', encs);
    IncreasingIsUnique(encs, encs');
    forall k | 0 <= k < |encs|
      ensures items[k] == items'[k]
    {
      CollectsIsUnique(stream, encs[k], items[k], items'[k]);
    }
  }

  lemma EncsCover(stream: set<Binding>, items: seq<BatchItem>, encs: seq<string>, encs': seq<string>)
    requires IsJoin(stream, items, encs)
    requires forall b :: b in stream ==> b.encoded in encs'
    ensures forall e :: e in encs ==> e in encs'
  {
    forall e | e in encs
      ensures e in encs'
    {
      var k :| 0 <= k < |encs| && encs[k] == e;
      assert Collects(stream, encs[k], items[k]);
      var s :| s in items[k].sourceRefs;
      assert Binding(e, items[k].entityKey, s, items[k].sourceRefs[s]) in stream;
    }
  }

  lemma CollectsIsUnique(stream: set<Binding>, enc: string, x: BatchItem, y: BatchItem)
    requires Coherent(stream) && Functional(stream)
    requires Collects(stream, enc, x) && Collects(stream, enc, y)
    ensures x == y
  {
    forall s | s in x.sourceRefs
      ensures s in y.sourceRefs && x.sourceRefs[s] == y.sourceRefs[s] && x.entityKey == y.entityKey
    {
      var b := Binding(enc, x.entityKey, s, x.sourceRefs[s]);
      assert b in stream && b.source in y.sourceRefs;
      assert Binding(enc, y.entityKey, s, y.sourceRefs[s]) in stream;
    }
    forall s | s in y.sourceRefs
      ensures s in x.sourceRefs
    {
      assert Binding(enc, y.entityKey, s, y.sourceRefs[s]) in stream;
    }
    var s :| s in x.sourceRefs;
  }

  /** Bindings whose canonical keys are equal are about the same entity, because the encoding is injective. */
  lemma BindingsAreCoherent(keyFields: seq<string>, items: seq<LandedItem>)
    requires NoDup(keyFields)
    ensures Coherent(Bindings(keyFields, items))
  {
    var stream := Bindings(keyFields, items);
    forall a, b | a in stream && b in stream && a.encoded == b.encoded
      ensures a.parts == b.parts
    {
      var i :| i in items && Considered(i) && Canonical(keyFields, i.entityKey).Some? && a == BindingOf(keyFields, i);
      var j :| j in items && Considered(j) && Canonical(keyFields, j.entityKey).Some? && b == BindingOf(keyFields, j);
      CanonicalIsInjective(keyFields, i.entityKey, j.entityKey);
    }
  }

  // ---------------------------------------------------------------------------------------
  // The join loop
  // ---------------------------------------------------------------------------------------

  /** The dictionaries that the loop fills, with the keys of `join` in insertion order. */
  datatype Tables = Tables(
    order: seq<string>, join: map<string, map<string, string>>, keyParts: map<string, map<string, string>>,
    ambiguous: nat, ambiguousSources: set<string>)

  const NO_ITEMS: Tables := Tables([], map[], map[], 0, {})

  function AddItem(t: Tables, b: Binding): Tables {
    var bindings := if b.encoded in t.join then t.join[b.encoded] else map[];
    var order := if b.encoded in t.join then t.order else t.order + [b.encoded];
    if b.source !in bindings then
      t.(order := order, join := t.join[b.encoded := bindings[b.source := b.ref]],
         keyParts := t.keyParts[b.encoded := b.parts])
    else if bindings[b.source] != b.ref then
      t.(ambiguous := t.ambiguous + 1, ambiguousSources := t.ambiguousSources + {b.source})
    else t
  }

  ghost predicate Tidy(t: Tables) {
    && NoDup(t.order) && (forall e :: e in t.order <==> e in t.join) && t.keyParts.Keys == t.join.Keys
    && forall e :: e in t.join ==> t.join[e] != map[]
  }

  /** Every stored binding comes from the stream. */
  ghost predicate Sourced(t: Tables, stream: set<Binding>) {
    forall e, s :: e in t.join && e in t.keyParts && s in t.join[e] ==>
      Binding(e, t.keyParts[e], s, t.join[e][s]) in stream
  }

  /** Binding `b` has left its trace. */
  ghost predicate Filed(t: Tables, b: Binding) {
    && b.encoded in t.join && b.encoded in t.keyParts && t.keyParts[b.encoded] == b.parts
    && b.source in t.join[b.encoded] && (t.ambiguous == 0 ==> t.join[b.encoded][b.source] == b.ref)
  }

  ghost predicate Holds(t: Tables, stream: set<Binding>) {
    && Tidy(t) && Sourced(t, stream) && (forall b :: b in stream ==> Filed(t, b))
    && (t.ambiguous > 0 ==> !Functional(stream))
  }

  /** The stored parts of an entity are those of every binding with its key. */
  lemma StoredParts(t: Tables, b: Binding, stream: set<Binding>)
    requires Coherent(stream + {b}) && Tidy(t) && Sourced(t, stream) && b.encoded in t.join
    ensures b.encoded in t.keyParts && t.keyParts[b.encoded] == b.parts
  {
    var s :| s in t.join[b.encoded];
    assert Binding(b.encoded, t.keyParts[b.encoded], s, t.join[b.encoded][s]) in stream + {b};
    assert b in stream + {b};
  }

  lemma AddKeepsSourced(t: Tables, b: Binding, stream: set<Binding>)
    requires Tidy(t) && Sourced(t, stream) && (b.encoded in t.join ==> t.keyParts[b.encoded] == b.parts)
    ensures Sourced(AddItem(t, b), stream + {b})
  {
    var t' := AddItem(t, b);
    forall e, s | e in t'.join && e in t'.keyParts && s in t'.join[e]
      ensures Binding(e, t'.keyParts[e], s, t'.join[e][s]) in stream + {b}
    {
      if e in t.join && s in t.join[e] {
        assert t'.keyParts[e] == t.keyParts[e] && t'.join[e][s] == t.join[e][s];
        assert Binding(e, t.keyParts[e], s, t.join[e][s]) in stream;
      } else {
        assert Binding(e, t'.keyParts[e], s, t'.join[e][s]) == b;
      }
    }
  }

  lemma AddKeepsFiled(t: Tables, b: Binding, c: Binding)
    requires Tidy(t) && (b.encoded in t.join ==> t.keyParts[b.encoded] == b.parts)
    requires Filed(t, c)
    ensures Filed(AddItem(t, b), c)
  {
  }

  lemma AddFiles(t: Tables, b: Binding)
    requires Tidy(t) && (b.encoded in t.join ==> t.keyParts[b.encoded] == b.parts)
    ensures Filed(AddItem(t, b), b)
  {
  }

  lemma AddKeepsTidy(t: Tables, b: Binding)
    requires Tidy(t)
    ensures Tidy(AddItem(t, b))
  {
    var bindings := if b.encoded in t.join then t.join[b.encoded] else map[];
    hide Tidy;
    if b.source !in bindings {
      TidyStep(t, b.encoded, bindings[b.source := b.ref], b.parts);
    } else {
      SameTables(t, AddItem(t, b));
    }
  }

  lemma SameTables(t: Tables, t': Tables)
    requires Tidy(t) && t'.order == t.order && t'.join == t.join && t'.keyParts == t.keyParts
    ensures Tidy(t')
  {
  }

  lemma TidyStep(t: Tables, e: string, bindings: map<string, string>, parts: map<string, string>)
    requires Tidy(t) && bindings != map[]
    ensures Tidy(t.(order := if e in t.join then t.order else t.order + [e], join := t.join[e := bindings],
                    keyParts := t.keyParts[e := parts]))
  {
    AddKeepsOrder(t.order, e);
    assert t.join[e := bindings].Keys == t.join.Keys + {e} && t.keyParts[e := parts].Keys == t.keyParts.Keys + {e};
  }

  lemma AddKeepsOrder(order: seq<string>, e: string)
    requires NoDup(order)
    ensures var order' := if e in order then order else order + [e];
      NoDup(order') && forall x :: x in order' <==> x in order || x == e
  {
  }

  /** An ambiguity is counted only if two bindings of the stream clash. */
  lemma AmbiguityIsReal(t: Tables, b: Binding, stream: set<Binding>)
    requires Coherent(stream + {b}) && Holds(t, stream) && AddItem(t, b).ambiguous > 0
    ensures !Functional(stream + {b})
  {
    if t.ambiguous > 0 {
      var x, y :| x in stream && y in stream && x.encoded == y.encoded && x.source == y.source && x.ref != y.ref;
      assert x in stream + {b} && y in stream + {b};
    } else {
      var stored := Binding(b.encoded, t.keyParts[b.encoded], b.source, t.join[b.encoded][b.source]);
      assert stored in stream + {b} && b in stream + {b};
    }
  }

  lemma AddKeepsHolds(t: Tables, b: Binding, stream: set<Binding>)
    requires Coherent(stream + {b}) && Holds(t, stream)
    ensures Holds(AddItem(t, b), stream + {b})
  {
    if b.encoded in t.join {
      StoredParts(t, b, stream);
    }
    AddKeepsSourced(t, b, stream);
    AddFiles(t, b);
    AddKeepsTidy(t, b);
    forall c | c in stream
      ensures Filed(AddItem(t, b), c)
    {
      AddKeepsFiled(t, b, c);
    }
    if AddItem(t, b).ambiguous > 0 {
      AmbiguityIsReal(t, b, stream);
    }
  }

  lemma UnambiguousIsFunctional(t: Tables, stream: set<Binding>)
    requires Holds(t, stream) && t.ambiguous == 0
    ensures Functional(stream)
  {
    forall a, b | a in stream && b in stream && a.encoded == b.encoded && a.source == b.source
      ensures a.ref == b.ref
    {
      assert Filed(t, a) && Filed(t, b);
    }
  }

  lemma EntryCollects(t: Tables, stream: set<Binding>, e: string)
    requires Holds(t, stream) && e in t.join
    ensures e in t.keyParts && Collects(stream, e, BatchItem(t.keyParts[e], t.join[e]))
  {
    forall b | b in stream && b.encoded == e
      ensures b.source in t.join[e]
    {
      assert Filed(t, b);
    }
  }

  lemma BindingsSnoc(keyFields: seq<string>, items: seq<LandedItem>, item: LandedItem)
    ensures Bindings(keyFields, items + [item]) ==
      if Considered(item) && Canonical(keyFields, item.entityKey).Some?
      then Bindings(keyFields, items) + {BindingOf(keyFields, item)} else Bindings(keyFields, items)
  {
    var more := items + [item];
    assert forall i :: i in more <==> i in items || i == item;
    forall b
      ensures b in Bindings(keyFields, more) <==>
        b in (if Considered(item) && Canonical(keyFields, item.entityKey).Some?
              then Bindings(keyFields, items) + {BindingOf(keyFields, item)} else Bindings(keyFields, items))
    {
    }
  }

  // ---------------------------------------------------------------------------------------
  // What an ambiguity reports
  // ---------------------------------------------------------------------------------------

  /** The item states a binding of the entity `e` for the source `s`. */
  predicate States(keyFields: seq<string>, item: LandedItem, e: string, s: string) {
    Considered(item) && Canonical(keyFields, item.entityKey) == Some(e) && item.sourceName == s
  }

  /** The report of the first item about the entity and source. */
  function FirstReport(keyFields: seq<string>, items: seq<LandedItem>, e: string, s: string): Option<string> {
    if items == [] then None
    else
      var before, last := FirstReport(keyFields, items[..|items| - 1], e, s), items[|items| - 1];
      if before.Some? then before else if States(keyFields, last, e, s) then Some(last.reportRef) else None
  }

  /** The item names another report than the first item about its entity and source. */
  predicate Clashes(keyFields: seq<string>, before: seq<LandedItem>, item: LandedItem) {
    && Considered(item) && Canonical(keyFields, item.entityKey).Some?
    && var first := FirstReport(keyFields, before, Canonical(keyFields, item.entityKey).value, item.sourceName);
       first.Some? && first.value != item.reportRef
  }

  function ClashCount(keyFields: seq<string>, items: seq<LandedItem>): nat {
    if items == [] then 0
    else
      var front, last := items[..|items| - 1], items[|items| - 1];
      ClashCount(keyFields, front) + if Clashes(keyFields, front, last) then 1 else 0
  }

  function ClashSources(keyFields: seq<string>, items: seq<LandedItem>): set<string> {
    if items == [] then {}
    else
      var front, last := items[..|items| - 1], items[|items| - 1];
      ClashSources(keyFields, front) + if Clashes(keyFields, front, last) then {last.sourceName} else {}
  }

  /** Two items name different reports for one entity and source. */
  predicate Disagree(keyFields: seq<string>, a: LandedItem, b: LandedItem) {
    && Considered(a) && Canonical(keyFields, a.entityKey).Some?
    && States(keyFields, b, Canonical(keyFields, a.entityKey).value, a.sourceName) && a.reportRef != b.reportRef
  }

  /** Two of the items disagree about the report of an entity for source `s`. */
  ghost predicate Disputed(keyFields: seq<string>, items: seq<LandedItem>, s: string) {
    exists a, b :: a in items && b in items && a.sourceName == s && Disagree(keyFields, a, b)
  }

  lemma {:induction false} FirstReportIsStated(keyFields: seq<string>, items: seq<LandedItem>, e: string, s: string)
    ensures var first := FirstReport(keyFields, items, e, s);
      if first.Some? then exists i :: i in items && States(keyFields, i, e, s) && i.reportRef == first.value
      else forall i :: i in items ==> !States(keyFields, i, e, s)
  {
    if items != [] {
      var front, last := items[..|items| - 1], items[|items| - 1];
      assert items == front + [last];
      FirstReportIsStated(keyFields, front, e, s);
      hide Canonical, Considered;
    }
  }

  /** The reported sources are exactly those for which two items disagree about an entity. */
  lemma {:induction false} ClashSourcesDisagree(keyFields: seq<string>, items: seq<LandedItem>, s: string)
    ensures s in ClashSources(keyFields, items) <==> Disputed(keyFields, items, s)
    ensures ClashCount(keyFields, items) == 0 <==> ClashSources(keyFields, items) == {}
  {
    if items != [] {
      var front, last := items[..|items| - 1], items[|items| - 1];
      assert items == front + [last];
      ClashSourcesDisagree(keyFields, front, s);
      hide ClashSources, ClashCount;
      LastDisagrees(keyFields, front, last, s);
    }
  }

  lemma ClashIsDisputed(keyFields: seq<string>, front: seq<LandedItem>, last: LandedItem)
    requires Clashes(keyFields, front, last)
    ensures Disputed(keyFields, front + [last], last.sourceName)
  {
    var e := Canonical(keyFields, last.entityKey).value;
    FirstReportIsStated(keyFields, front, e, last.sourceName);
    hide Considered, FirstReport;
    var i :| i in front && States(keyFields, i, e, last.sourceName) && Some(i.reportRef)
      == FirstReport(keyFields, front, e, last.sourceName);
    assert Disagree(keyFields, last, i) && last in front + [last] && i in front + [last];
  }

  /** An item that disagrees with an earlier one clashes, unless earlier ones disagree already. */
  lemma DisagreementClashes(keyFields: seq<string>, front: seq<LandedItem>, last: LandedItem, o: LandedItem)
    requires o in front && (Disagree(keyFields, o, last) || Disagree(keyFields, last, o))
    ensures Clashes(keyFields, front, last) || Disputed(keyFields, front, o.sourceName)
  {
    var e, s := Canonical(keyFields, last.entityKey).value, last.sourceName;
    FirstReportIsStated(keyFields, front, e, s);
    hide Canonical, Considered, FirstReport;
    assert States(keyFields, o, e, s);
    var i :| i in front && States(keyFields, i, e, s) && Some(i.reportRef) == FirstReport(keyFields, front, e, s);
    if i.reportRef == last.reportRef {
      assert Disagree(keyFields, o, i);
    }
  }

  /** The last item clashes, or its source is disputed already, exactly if it disagrees with another. */
  lemma LastDisagrees(keyFields: seq<string>, front: seq<LandedItem>, last: LandedItem, s: string)
    ensures Disputed(keyFields, front + [last], s) <==>
      Disputed(keyFields, front, s) || (last.sourceName == s && Clashes(keyFields, front, last))
  {
    hide Clashes;
    if Disputed(keyFields, front, s) {
      var a, b :| a in front && b in front && a.sourceName == s && Disagree(keyFields, a, b);
      assert a in front + [last] && b in front + [last];
    }
    if last.sourceName == s && Clashes(keyFields, front, last) {
      ClashIsDisputed(keyFields, front, last);
    }
    if Disputed(keyFields, front + [last], s) && !Disputed(keyFields, front, s) {
      var a, b :| a in front + [last] && b in front + [last] && a.sourceName == s && Disagree(keyFields, a, b);
      assert a.reportRef != b.reportRef && b.sourceName == s;
      DisagreementClashes(keyFields, front, last, if a in front then a else b);
    }
  }

  /** The count is one of items, not of entities and sources: one that repeats a clashing report is
      counted again. */
  lemma RepeatedClashCountsTwice(keyFields: seq<string>, item: LandedItem)
    requires Considered(item) && Canonical(keyFields, item.entityKey).Some?
    ensures var a, b := item.(reportRef := "a"), item.(reportRef := "b"); ClashCount(keyFields, [a] + [b] + [b]) == 2
  {
    var a, b := item.(reportRef := "a"), item.(reportRef := "b");
    var e, s := Canonical(keyFields, item.entityKey).value, item.sourceName;
    assert [] + [a] == [a] && ([a] + [b])[..1] == [a] && ([a] + [b] + [b])[..2] == [a] + [b];
    FirstReportSnoc(keyFields, [], a, e, s);
    FirstReportSnoc(keyFields, [a], b, e, s);
    assert FirstReport(keyFields, [a], e, s) == Some("a") == FirstReport(keyFields, [a] + [b], e, s);
    assert FirstReport(keyFields, [], e, s) == None && !Clashes(keyFields, [], a) && ClashCount(keyFields, [a]) == 0;
    hide FirstReport, Canonical;
    var two := [a] + [b];
    assert Clashes(keyFields, [a], b);
    assert Clashes(keyFields, two, b);
    assert ClashCount(keyFields, [a] + [b]) == 1;
  }

  function Stored(t: Tables, e: string, s: string): Option<string> {
    if e in t.join && s in t.join[e] then Some(t.join[e][s]) else None
  }

  /** The dictionaries hold the first reports, and the counters the clashes with them. */
  ghost predicate Tracks(t: Tables, keyFields: seq<string>, seen: seq<LandedItem>) {
    && t.ambiguous == ClashCount(keyFields, seen) && t.ambiguousSources == ClashSources(keyFields, seen)
    && forall e, s :: Stored(t, e, s) == FirstReport(keyFields, seen, e, s)
  }

  lemma StoredAfter(t: Tables, b: Binding, e: string, s: string)
    ensures Stored(AddItem(t, b), e, s) ==
      if e == b.encoded && s == b.source && Stored(t, e, s).None? then Some(b.ref) else Stored(t, e, s)
  {
  }

  lemma FirstReportSnoc(keyFields: seq<string>, seen: seq<LandedItem>, item: LandedItem, e: string, s: string)
    ensures FirstReport(keyFields, seen + [item], e, s) ==
      if FirstReport(keyFields, seen, e, s).None? && States(keyFields, item, e, s) then Some(item.reportRef)
      else FirstReport(keyFields, seen, e, s)
  {
    assert (seen + [item])[..|seen|] == seen;
  }

  lemma AddCounts(t: Tables, keyFields: seq<string>, seen: seq<LandedItem>, item: LandedItem)
    requires Considered(item) && Canonical(keyFields, item.entityKey).Some?
    requires t.ambiguous == ClashCount(keyFields, seen) && t.ambiguousSources == ClashSources(keyFields, seen)
    requires var e := Canonical(keyFields, item.entityKey).value;
      Stored(t, e, item.sourceName) == FirstReport(keyFields, seen, e, item.sourceName)
    ensures var after := AddItem(t, BindingOf(keyFields, item));
      && after.ambiguous == ClashCount(keyFields, seen + [item])
      && after.ambiguousSources == ClashSources(keyFields, seen + [item])
  {
    hide Canonical, Considered, Restrict, FirstReport;
    assert (seen + [item])[..|seen|] == seen;
  }

  lemma AddTracks(t: Tables, keyFields: seq<string>, seen: seq<LandedItem>, item: LandedItem)
    requires Tracks(t, keyFields, seen)
    requires Considered(item) && Canonical(keyFields, item.entityKey).Some?
    ensures Tracks(AddItem(t, BindingOf(keyFields, item)), keyFields, seen + [item])
  {
    hide Canonical, Considered, Restrict, FirstReport, AddItem, Stored, ClashCount, ClashSources;
    var b := BindingOf(keyFields, item);
    AddCounts(t, keyFields, seen, item);
    forall e, s
      ensures Stored(AddItem(t, b), e, s) == FirstReport(keyFields, seen + [item], e, s)
    {
      StoredAfter(t, b, e, s);
      FirstReportSnoc(keyFields, seen, item, e, s);
      assert Stored(t, e, s) == FirstReport(keyFields, seen, e, s);
    }
  }

  lemma SkipTracks(t: Tables, keyFields: seq<string>, seen: seq<LandedItem>, item: LandedItem)
    requires Tracks(t, keyFields, seen) && !Considered(item)
    ensures Tracks(t, keyFields, seen + [item])
  {
    assert (seen + [item])[..|seen|] == seen;
    hide Canonical, FirstReport;
    forall e, s
      ensures Stored(t, e, s) == FirstReport(keyFields, seen + [item], e, s)
    {
      FirstReportSnoc(keyFields, seen, item, e, s);
      assert Stored(t, e, s) == FirstReport(keyFields, seen, e, s);
    }
  }

  lemma NothingFiled(keyFields: seq<string>)
    ensures Holds(NO_ITEMS, Bindings(keyFields, [])) && Tracks(NO_ITEMS, keyFields, [])
  {
  }

  /** One pass of the inner loop; `None` stands for the malformed item that ends the request. */
  method FileItem(tables: Tables, item: LandedItem, keyFields: seq<string>, ghost seen: seq<LandedItem>)
    returns (t: Option<Tables>)
    requires NoDup(keyFields) && Holds(tables, Bindings(keyFields, seen)) && Tracks(tables, keyFields, seen)
    ensures t.None? <==> Considered(item) && Canonical(keyFields, item.entityKey).None?
    ensures t.Some? ==>
      Holds(t.value, Bindings(keyFields, seen + [item])) && Tracks(t.value, keyFields, seen + [item])
  {
    hide Tracks, Holds, AddItem;
    BindingsSnoc(keyFields, seen, item);
    if !Considered(item) {
      SkipTracks(tables, keyFields, seen, item);
      return Some(tables);
    }
    var canonical := Canonical(keyFields, item.entityKey);
    if canonical.None? {
      return None;
    }
    BindingsAreCoherent(keyFields, seen + [item]);
    var b := Binding(canonical.value, Restrict(keyFields, item.entityKey), item.sourceName, item.reportRef);
    AddKeepsHolds(tables, b, Bindings(keyFields, seen));
    AddTracks(tables, keyFields, seen, item);
    return Some(AddItem(tables, b));
  }

  /** The two nested loops over the manifests and their items. `None` if an item is malformed. */
  method FillTables(manifests: seq<seq<LandedItem>>, keyFields: seq<string>) returns (t: Option<Tables>)
    requires NoDup(keyFields)
    ensures t.Some? <==> WellKeyed(keyFields, Flatten(manifests))
    ensures t.Some? ==> Holds(t.value, Bindings(keyFields, Flatten(manifests)))
    ensures t.Some? ==> Tracks(t.value, keyFields, Flatten(manifests))
  {
    hide Tracks, Holds, Bindings, Canonical;
    var tables := NO_ITEMS;
    ghost var seen: seq<LandedItem> := [];
    NothingFiled(keyFields);
    for m := 0 to |manifests|
      invariant seen == Flatten(manifests[..m])
      invariant WellKeyed(keyFields, seen) && Holds(tables, Bindings(keyFields, seen)) &&
        Tracks(tables, keyFields, seen)
    {
      assert manifests[..m + 1][..m] == manifests[..m];
      ghost var before := seen;
      for k := 0 to |manifests[m]|
        invariant seen == before + manifests[m][..k]
        invariant WellKeyed(keyFields, seen) && Holds(tables, Bindings(keyFields, seen)) &&
          Tracks(tables, keyFields, seen)
      {
        var filed := FileItem(tables, manifests[m][k], keyFields, seen);
        if filed.None? {
          InFlatten(manifests, m, manifests[m][k]);
          return None;
        }
        tables := filed.value;
        seen := seen + [manifests[m][k]];
        assert manifests[m][..k + 1] == manifests[m][..k] + [manifests[m][k]];
      }
      assert manifests[m][..|manifests[m]|] == manifests[m];
    }
    assert manifests[..|manifests|] == manifests;
    return Some(tables);
  }

  ghost function Flatten(manifests: seq<seq<LandedItem>>): seq<LandedItem> {
    if manifests == [] then [] else Flatten(manifests[..|manifests| - 1]) + manifests[|manifests| - 1]
  }

  lemma {:induction false} InFlatten(manifests: seq<seq<LandedItem>>, m: nat, item: LandedItem)
    requires m < |manifests| && item in manifests[m]
    ensures item in Flatten(manifests)
  {
    if m < |manifests| - 1 {
      InFlatten(manifests[..|manifests| - 1], m, item);
    }
  }

  /** The request is accepted exactly when every considered item has a well-formed key and
      (canonical key, source) determines the report; the accepted items are the join. */
  method MultiManifestBatchItems(manifests: seq<seq<LandedItem>>, keyFields: seq<string>)
    returns (r: JoinResult, ghost encs: seq<string>)
    requires NoDup(keyFields)
    ensures r.Joined? <==> (WellKeyed(keyFields, Flatten(manifests)) &&
                            Functional(Bindings(keyFields, Flatten(manifests))))
    ensures r.Joined? ==> IsJoin(Bindings(keyFields, Flatten(manifests)), r.items, encs)
    ensures r == Rejected(MalformedKey) <==> !WellKeyed(keyFields, Flatten(manifests))
    ensures r.Rejected? && WellKeyed(keyFields, Flatten(manifests)) ==>
      r.error == AmbiguousBinding(ClashCount(keyFields, Flatten(manifests)),
                                  ClashSources(keyFields, Flatten(manifests)))
  {
    encs := [];
    var filled := FillTables(manifests, keyFields);
    if filled.None? {
      return Rejected(MalformedKey), encs;
    }
    var t := filled.value;
    ghost var stream := Bindings(keyFields, Flatten(manifests));
    if t.ambiguous > 0 {
      return Rejected(AmbiguousBinding(t.ambiguous, t.ambiguousSources)), encs;
    }
    UnambiguousIsFunctional(t, stream);
    SortedNames(t.order);
    var sorted := Sort(t.order, LexLe);
    var items := [];
    for k := 0 to |sorted|
      invariant |items| == k
      invariant forall j :: 0 <= j < k ==> Collects(stream, sorted[j], items[j])
    {
      assert sorted[k] in t.order;
      EntryCollects(t, stream, sorted[k]);
      items := items + [BatchItem(t.keyParts[sorted[k]], t.join[sorted[k]])];
    }
    forall b | b in stream
      ensures b.encoded in sorted
    {
      assert Filed(t, b);
    }
    return Joined(items), sorted;
  }

  /** Neither the order of the items, nor repetitions, nor their distribution over manifests matters. */
  lemma JoinIgnoresOrder(manifests: seq<seq<LandedItem>>, manifests': seq<seq<LandedItem>>, keyFields: seq<string>,
                         items: seq<BatchItem>, encs: seq<string>, items': seq<BatchItem>, encs': seq<string>)
    requires NoDup(keyFields) && Functional(Bindings(keyFields, Flatten(manifests)))
    requires forall i :: i in Flatten(manifests) <==> i in Flatten(manifests')
    requires IsJoin(Bindings(keyFields, Flatten(manifests)), items, encs)
    requires IsJoin(Bindings(keyFields, Flatten(manifests')), items', encs')
    ensures items == items'
  {
    var a, b := Flatten(manifests), Flatten(manifests');
    assert Bindings(keyFields, a) == Bindings(keyFields, b);
    BindingsAreCoherent(keyFields, a);
    JoinIsUnique(Bindings(keyFields, a), items, encs, items', encs');
  }

  // ---------------------------------------------------------------------------------------
  // Chunking
  // ---------------------------------------------------------------------------------------

  ghost function Concat(chunks: seq<seq<BatchItem>>): seq<BatchItem> {
    if chunks == [] then [] else Concat(chunks[..|chunks| - 1]) + chunks[|chunks| - 1]
  }

  /** Chunks are full except possibly the last one, none is empty, and together they are the items. */
  method Chunk(items: seq<BatchItem>, chunkSize: nat) returns (chunks: seq<seq<BatchItem>>)
    requires chunkSize > 0
    ensures Concat(chunks) == items
    ensures forall c :: c in chunks ==> 0 < |c| <= chunkSize
    ensures forall k :: 0 <= k < |chunks| - 1 ==> |chunks[k]| == chunkSize
    ensures |chunks| == (|items| + chunkSize - 1) / chunkSize
  {
    chunks := [];
    var i := 0;
    while i < |items|
      invariant Concat(chunks) == items[..if i < |items| then i else |items|]
      invariant forall k :: 0 <= k < |chunks| ==> 0 < |chunks[k]| <= chunkSize
      invariant i == |chunks| * chunkSize
      invariant i <= |items| ==> forall k :: 0 <= k < |chunks| ==> |chunks[k]| == chunkSize
      invariant i > |items| ==> forall k :: 0 <= k < |chunks| - 1 ==> |chunks[k]| == chunkSize
      invariant |chunks| > 0 ==> (|chunks| - 1) * chunkSize < |items|
      decreases |items| - i
    {
      var end := if i + chunkSize < |items| then i + chunkSize else |items|;
      assert items[..i] + items[i..end] == items[..end];
      assert (chunks + [items[i..end]])[..|chunks|] == chunks;
      MulSucc(|chunks|, chunkSize);
      chunks := chunks + [items[i..end]];
      i := i + chunkSize;
    }
    CeilingDivision(|items|, chunkSize, |chunks|);
  }

  lemma MulSucc(a: nat, b: nat)
    ensures (a + 1) * b == a * b + b
  {
  }

  lemma CeilingDivision(n: nat, k: nat, c: nat)
    requires k > 0 && n <= c * k && (c > 0 ==> (c - 1) * k < n)
    ensures c == (n + k - 1) / k
  {
    var q := (n + k - 1) / k;
    DivisionBounds(n + k - 1, k);
    if c > 0 {
      MulSucc(c - 1, k);
    }
    MulSucc(q, k);
    MulSucc(c, k);
    MulCancels(c, q + 1, k);
    MulCancels(q, c + 1, k);
  }

  lemma DivisionBounds(a: nat, k: nat)
    requires k > 0
    ensures (a / k) * k <= a < (a / k) * k + k
  {
  }

  lemma MulCancels(a: nat, b: nat, k: nat)
    requires a * k < b * k
    ensures a < b
  {
    if b <= a {
      MulIsMonotone(b, a, k);
    }
  }

  lemma {:induction false} MulIsMonotone(a: nat, b: nat, k: nat)
    requires a <= b
    ensures a * k <= b * k
  {
    if a < b {
      MulIsMonotone(a, b - 1, k);
      MulSucc(b - 1, k);
    }
  }
}
