/** Values-free change propagation (propagation.py): which updates are announced, which dependents
    they make due, and the debounce store that coalesces them. */
module Propagation {
  import opened Domain
  import opened Registry
  import opened Graph
  import opened Sorting

  /** The announcement that a feature of an entity has a new stored row. It carries no value. */
  datatype Update = Update(
    id: nat, entityType: string, entity: EntityKey, view: ViewRef, feature: string, version: nat,
    dataTs: Time, calcTs: Time)

  /** A reactive dependency of the feature `dependent`. */
  datatype Edge = Edge(dependent: string, dep: Dependency)

  datatype Candidate = Candidate(
    entityType: string, entity: EntityKey, view: ViewRef, dependent: string, dependentVersion: nat,
    changedInput: string, changedVersion: nat)

  predicate IsReactive(d: Dependency) { d.propagation.Reactive? }

  // ---------------------------------------------------------------------------------------
  // The reverse index
  // ---------------------------------------------------------------------------------------

  function EdgesVia(dependent: string, deps: seq<Dependency>, input: string): seq<Edge> {
    if deps == [] then []
    else
      var last := deps[|deps| - 1];
      EdgesVia(dependent, deps[..|deps| - 1], input) +
      if IsReactive(last) && last.feature == input then [Edge(dependent, last)] else []
  }

  /** The reactive edges out of `input`, in declaration order. */
  function EdgesFrom(features: seq<FeatureDef>, input: string): seq<Edge> {
    if features == [] then []
    else
      var last := features[|features| - 1];
      EdgesFrom(features[..|features| - 1], input) + EdgesVia(last.name, last.deps, input)
  }

  /** Feature `to` reacts to changes of feature `from`. */
  predicate Reacts(features: seq<FeatureDef>, from: string, to: string) {
    exists f :: f in features && f.name == to && exists d :: d in f.deps && IsReactive(d) && d.feature == from
  }

  lemma {:induction false} EdgesViaMeans(dependent: string, deps: seq<Dependency>, input: string, e: Edge)
    ensures e in EdgesVia(dependent, deps, input) <==>
      e.dependent == dependent && e.dep in deps && IsReactive(e.dep) && e.dep.feature == input
  {
    if deps != [] {
      EdgesViaMeans(dependent, deps[..|deps| - 1], input, e);
      assert deps == deps[..|deps| - 1] + [deps[|deps| - 1]];
    }
  }

  lemma {:induction false} EdgesFromMeans(features: seq<FeatureDef>, input: string, e: Edge)
    ensures e in EdgesFrom(features, input) <==>
      IsReactive(e.dep) && e.dep.feature == input && exists f ::
        f in features && f.name == e.dependent && e.dep in f.deps
  {
    if features != [] {
      var front, last := features[..|features| - 1], features[|features| - 1];
      EdgesFromMeans(front, input, e);
      EdgesViaMeans(last.name, last.deps, input, e);
      assert features == front + [last];
    }
  }

  type Index = map<string, seq<Edge>>

  function EdgesAt(index: Index, input: string): seq<Edge> { if input in index then index[input] else [] }

  /** The index lists exactly the features that something reacts to, with the edges out of them. */
  ghost predicate Indexes(index: Index, features: seq<FeatureDef>) {
    forall n :: EdgesAt(index, n) == EdgesFrom(features, n) && (n in index <==> EdgesFrom(features, n) != [])
  }

  /** `index` is `before` with the edges of the dependencies `deps` of `dependent` added. */
  ghost predicate Extends(index: Index, before: Index, dependent: string, deps: seq<Dependency>) {
    forall n :: EdgesAt(index, n) == EdgesAt(before, n) + EdgesVia(dependent, deps, n) &&
      (n in index ==> EdgesAt(index, n) != [])
  }

  lemma ExtendsSnoc(index: Index, before: Index, dependent: string, deps: seq<Dependency>, d: Dependency)
    requires Extends(index, before, dependent, deps)
    ensures Extends(if IsReactive(d) then index[d.feature := EdgesAt(index, d.feature) + [Edge(dependent, d)]]
                    else index,
                    before, dependent, deps + [d])
  {
    var index' := if IsReactive(d) then index[d.feature := EdgesAt(index, d.feature) + [Edge(dependent, d)]] else index;
    forall n
      ensures EdgesAt(index', n) == EdgesAt(before, n) + EdgesVia(dependent, deps + [d], n) &&
        (n in index' ==> EdgesAt(index', n) != [])
    {
      ExtendsAt(index, EdgesAt(before, n), dependent, deps, d, n);
    }
  }

  lemma ExtendsAt(index: Index, before: seq<Edge>, dependent: string, deps: seq<Dependency>, d: Dependency, n: string)
    requires EdgesAt(index, n) == before + EdgesVia(dependent, deps, n) && (n in index ==> EdgesAt(index, n) != [])
    ensures var index' := if IsReactive(d) then index[d.feature := EdgesAt(index, d.feature) + [Edge(dependent, d)]]
      else index;
      EdgesAt(index', n) == before + EdgesVia(dependent, deps + [d], n) && (n in index' ==> EdgesAt(index', n) != [])
  {
    EdgesViaSnoc(dependent, deps, d, n);
  }

  lemma EdgesViaSnoc(dependent: string, deps: seq<Dependency>, d: Dependency, input: string)
    ensures EdgesVia(dependent, deps + [d], input) ==
      EdgesVia(dependent, deps, input) + if IsReactive(d) && d.feature == input then [Edge(dependent, d)] else []
  {
    assert (deps + [d])[..|deps|] == deps;
  }

  method AddFeature(before: Index, f: FeatureDef) returns (index: Index)
    requires forall n :: n in before ==> EdgesAt(before, n) != []
    ensures Extends(index, before, f.name, f.deps)
  {
    index := before;
    assert Extends(index, before, f.name, f.deps[..0]);
    hide Extends;
    for j := 0 to |f.deps|
      invariant Extends(index, before, f.name, f.deps[..j])
    {
      var d := f.deps[j];
      ExtendsSnoc(index, before, f.name, f.deps[..j], d);
      assert f.deps[..j + 1] == f.deps[..j] + [d];
      if IsReactive(d) {
        index := index[d.feature := EdgesAt(index, d.feature) + [Edge(f.name, d)]];
      }
    }
    assert f.deps[..|f.deps|] == f.deps;
  }

  method ReactiveDependents(features: seq<FeatureDef>) returns (index: Index)
    ensures Indexes(index, features)
  {
    index := map[];
    for i := 0 to |features|
      invariant Indexes(index, features[..i])
    {
      ghost var before := index;
      index := AddFeature(index, features[i]);
      IndexesSnoc(index, before, features[..i], features[i]);
      assert features[..i + 1] == features[..i] + [features[i]];
    }
    assert features[..|features|] == features;
  }

  lemma IndexesSnoc(index: Index, before: Index, features: seq<FeatureDef>, f: FeatureDef)
    requires Indexes(before, features) && Extends(index, before, f.name, f.deps)
    ensures Indexes(index, features + [f])
  {
    assert (features + [f])[..|features|] == features;
    forall n ensures EdgesAt(index, n) == EdgesFrom(features + [f], n)
    {
      assert EdgesAt(index, n) == EdgesAt(before, n) + EdgesVia(f.name, f.deps, n);
    }
  }

  predicate HasReactiveDependents(features: seq<FeatureDef>, input: string) { EdgesFrom(features, input) != [] }

  lemma ReactiveDependentsMeans(features: seq<FeatureDef>, input: string)
    ensures HasReactiveDependents(features, input) <==> exists to :: Reacts(features, input, to)
  {
    if HasReactiveDependents(features, input) {
      var e := EdgesFrom(features, input)[0];
      EdgesFromMeans(features, input, e);
      assert Reacts(features, input, e.dependent);
    }
    if to :| Reacts(features, input, to) {
      var f :| f in features && f.name == to && exists d :: d in f.deps && IsReactive(d) && d.feature == input;
      var d :| d in f.deps && IsReactive(d) && d.feature == input;
      EdgesFromMeans(features, input, Edge(to, d));
    }
  }

  // ---------------------------------------------------------------------------------------
  // Announcing updates
  // ---------------------------------------------------------------------------------------

  function UpdateOf(view: ViewRef, entityType: string, r: FeatureResult, id: nat): Update {
    Update(id, entityType, r.entity, view, r.ref.name, r.ref.version, r.dataTs, r.calcTs)
  }

  /** One update per result that something reacts to, in order, numbered from `firstId`. */
  function UpdatesFor(view: ViewDef, entityType: string, results: seq<FeatureResult>, firstId: nat): seq<Update> {
    if results == [] then []
    else
      var before, last := UpdatesFor(view, entityType, results[..|results| - 1], firstId), results[|results| - 1];
      if HasReactiveDependents(view.features, last.ref.name)
      then before + [UpdateOf(view.ref, entityType, last, firstId + |before|)] else before
  }

  method BuildFeatureUpdatedEvents(view: ViewDef, entityType: string, results: seq<FeatureResult>, firstId: nat)
    returns (updates: seq<Update>)
    ensures updates == UpdatesFor(view, entityType, results, firstId)
  {
    hide EdgesFrom;
    var index := ReactiveDependents(view.features);
    updates := [];
    for i := 0 to |results|
      invariant updates == UpdatesFor(view, entityType, results[..i], firstId)
    {
      assert results[..i + 1][..i] == results[..i];
      assert results[i].ref.name in index <==> EdgesFrom(view.features, results[i].ref.name) != [];
      if results[i].ref.name in index {
        updates := updates + [UpdateOf(view.ref, entityType, results[i], firstId + |updates|)];
      }
    }
    assert results[..|results|] == results;
  }

  /** Every result that something reacts to is announced, under an id of its own. */
  lemma {:induction false} UpdatesAnnounce(view: ViewDef, entityType: string, results: seq<FeatureResult>,
                                           firstId: nat, r: FeatureResult)
    returns (id: nat)
    requires r in results && HasReactiveDependents(view.features, r.ref.name)
    ensures UpdateOf(view.ref, entityType, r, id) in UpdatesFor(view, entityType, results, firstId)
  {
    var front, last := results[..|results| - 1], results[|results| - 1];
    assert results == front + [last];
    if r == last {
      id := firstId + |UpdatesFor(view, entityType, front, firstId)|;
    } else {
      id := UpdatesAnnounce(view, entityType, front, firstId, r);
    }
  }

  /** Nothing else is announced. */
  lemma {:induction false} UpdatesComeFromResults(view: ViewDef, entityType: string, results: seq<FeatureResult>,
                                                  firstId: nat, u: Update)
    returns (r: FeatureResult)
    requires u in UpdatesFor(view, entityType, results, firstId)
    ensures HasReactiveDependents(view.features, u.feature) && r in results &&
      u == UpdateOf(view.ref, entityType, r, u.id)
  {
    var front, last := results[..|results| - 1], results[|results| - 1];
    assert results == front + [last];
    if u in UpdatesFor(view, entityType, front, firstId) {
      r := UpdatesComeFromResults(view, entityType, front, firstId, u);
    } else {
      r := last;
    }
  }

  /** Some feature has a reactive edge to `name`. */
  ghost predicate Watched(features: seq<FeatureDef>, name: string) {
    exists f, d :: f in features && d in f.deps && d.feature == name && d.propagation == Reactive
  }

  /** The update says which row is new: everything about it but its value. */
  predicate Announces(u: Update, view: ViewRef, entityType: string, r: FeatureResult) {
    && u.entityType == entityType && u.entity == r.entity && u.view == view
    && u.feature == r.ref.name && u.version == r.ref.version && u.dataTs == r.dataTs && u.calcTs == r.calcTs
  }

  lemma WatchedMeans(features: seq<FeatureDef>, name: string)
    ensures Watched(features, name) <==> HasReactiveDependents(features, name)
  {
    ReactiveDependentsMeans(features, name);
    hide HasReactiveDependents;
    if to :| Reacts(features, name, to) {
      var f :| f in features && f.name == to && exists d :: d in f.deps && IsReactive(d) && d.feature == name;
    }
    forall f, d | f in features && d in f.deps && d.feature == name && d.propagation == Reactive
      ensures Reacts(features, name, f.name)
    {
      assert IsReactive(d);
    }
  }

  /** The results at the positions `at`, which are those of a watched feature, are announced one by
      one, in their order and under consecutive ids. */
  lemma {:induction false} UpdatesMean(view: ViewDef, entityType: string, results: seq<FeatureResult>, firstId: nat)
    returns (at: seq<nat>)
    ensures Increasing(at)
    ensures forall i: nat :: i in at <==> i < |results| && Watched(view.features, results[i].ref.name)
    ensures var updates := UpdatesFor(view, entityType, results, firstId);
      && |updates| == |at|
      && forall k :: 0 <= k < |at| ==>
           at[k] < |results| && Announces(updates[k], view.ref, entityType, results[at[k]]) &&
             updates[k].id == firstId + k
  {
    at := [];
    if results != [] {
      var front, last := results[..|results| - 1], results[|results| - 1];
      at := UpdatesMean(view, entityType, front, firstId);
      WatchedMeans(view.features, last.ref.name);
      hide HasReactiveDependents, Watched;
      assert forall k :: 0 <= k < |at| ==> at[k] in at;
      if Watched(view.features, last.ref.name) {
        at := at + [|front|];
      }
    }
  }

  lemma OneUpdate(view: ViewDef, entityType: string, r: FeatureResult, firstId: nat)
    ensures var updates := UpdatesFor(view, entityType, [r], firstId);
      if Watched(view.features, r.ref.name) then |updates| == 1 && Announces(updates[0], view.ref, entityType, r)
      else updates == []
  {
    WatchedMeans(view.features, r.ref.name);
    assert [r][..0] == [];
  }

  // ---------------------------------------------------------------------------------------
  // Which dependents an update makes due
  // ---------------------------------------------------------------------------------------

  predicate PinMatches(d: Dependency, version: nat) { d.version.None? || d.version.value == version }

  function CandidateOf(features: FeatureTable, u: Update, e: Edge): Candidate
    requires e.dependent in features
  {
    Candidate(u.entityType, u.entity, u.view, e.dependent, features[e.dependent].version, u.feature, u.version)
  }

  /** One candidate per reactive edge whose pin matches, before sorting. */
  function Unsorted(features: FeatureTable, u: Update, edges: seq<Edge>): seq<Candidate>
    requires forall e :: e in edges ==> e.dependent in features
  {
    if edges == [] then []
    else
      var last := edges[|edges| - 1];
      Unsorted(features, u, edges[..|edges| - 1]) + if PinMatches(last.dep, u.version)
        then [CandidateOf(features, u, last)] else []
  }

  predicate CandidateLe(a: Candidate, b: Candidate) {
    if a.dependent == b.dependent then a.dependentVersion <= b.dependentVersion else LexLe(a.dependent, b.dependent)
  }

  lemma CandidateOrder()
    ensures TotalOrder(CandidateLe)
  {
    forall a: Candidate, b: Candidate ensures CandidateLe(a, b) || CandidateLe(b, a) {
      LexTotal(a.dependent, b.dependent);
    }
    forall a: Candidate, b: Candidate, c: Candidate | CandidateLe(a, b) && CandidateLe(b, c) ensures CandidateLe(a, c) {
      if a.dependent != b.dependent && b.dependent != c.dependent {
        LexTransitive(a.dependent, b.dependent, c.dependent);
        if a.dependent == c.dependent {
          LexAntisymmetric(a.dependent, b.dependent);
        }
      }
    }
  }

  function FindView(views: seq<ViewDef>, ref: ViewRef): Option<ViewDef> {
    if views == [] then None
    else if views[0].ref == ref then Some(views[0])
    else FindView(views[1..], ref)
  }

  lemma {:induction false} FoundViewHasRef(views: seq<ViewDef>, ref: ViewRef)
    ensures FindView(views, ref).Some? ==> FindView(views, ref).value.ref == ref && FindView(views, ref).value in views
  {
    if views != [] && views[0].ref != ref {
      FoundViewHasRef(views[1..], ref);
    }
  }

  /** The first view with the reference. */
  lemma {:induction false} FoundViewIsFirst(views: seq<ViewDef>, ref: ViewRef)
    ensures match FindView(views, ref)
            case None => forall v :: v in views ==> v.ref != ref
            case Some(view) => exists i ::
              0 <= i < |views| && views[i] == view && view.ref == ref && forall j :: 0 <= j < i ==> views[j].ref != ref
  {
    if views != [] && views[0].ref != ref {
      FoundViewIsFirst(views[1..], ref);
      if FindView(views[1..], ref).Some? {
        var i :| 0 <= i < |views| - 1 && views[1..][i] == FindView(views[1..], ref).value
          && forall j :: 0 <= j < i ==> views[1..][j].ref != ref;
        assert forall j :: 0 < j < i + 1 ==> views[j] == views[1..][j - 1];
        assert views[i + 1] == FindView(views, ref).value;
      }
    }
  }

  lemma EdgesAreKnown(features: seq<FeatureDef>, input: string)
    ensures forall e :: e in EdgesFrom(features, input) ==> e.dependent in ByName(features)
  {
    ByNameHolds(features);
    forall e | e in EdgesFrom(features, input)
      ensures e.dependent in ByName(features)
    {
      EdgesFromMeans(features, input, e);
    }
  }

  /** The wave that an update calls for: its direct reactive dependents, in a fixed order. */
  function Wave(views: seq<ViewDef>, u: Update): seq<Candidate> {
    var view := FindView(views, u.view);
    if view.None? then []
    else
      EdgesAreKnown(view.value.features, u.feature);
      Sort(Unsorted(ByName(view.value.features), u, EdgesFrom(view.value.features, u.feature)), CandidateLe)
  }

  method PlanRecomputeWave(views: seq<ViewDef>, u: Update) returns (candidates: seq<Candidate>)
    ensures candidates == Wave(views, u)
  {
    var view := FindView(views, u.view);
    if view.None? {
      return [];
    }
    var index := ReactiveDependents(view.value.features);
    var features := ByName(view.value.features);
    EdgesAreKnown(view.value.features, u.feature);
    var edges := EdgesAt(index, u.feature);
    candidates := [];
    for i := 0 to |edges|
      invariant candidates == Unsorted(features, u, edges[..i])
    {
      assert edges[..i + 1][..i] == edges[..i];
      if PinMatches(edges[i].dep, u.version) {
        candidates := candidates + [CandidateOf(features, u, edges[i])];
      }
    }
    assert edges[..|edges|] == edges;
    candidates := Sort(candidates, CandidateLe);
  }

  lemma {:induction false} UnsortedStems(features: FeatureTable, u: Update, edges: seq<Edge>, c: Candidate)
    returns (e: Edge)
    requires forall e :: e in edges ==> e.dependent in features
    requires c in Unsorted(features, u, edges)
    ensures e in edges && PinMatches(e.dep, u.version) && c == CandidateOf(features, u, e)
  {
    var front, last := edges[..|edges| - 1], edges[|edges| - 1];
    if c in Unsorted(features, u, front) {
      e := UnsortedStems(features, u, front, c);
    } else {
      e := last;
    }
  }

  lemma {:induction false} UnsortedHas(features: FeatureTable, u: Update, edges: seq<Edge>, e: Edge)
    requires forall e :: e in edges ==> e.dependent in features
    requires e in edges && PinMatches(e.dep, u.version)
    ensures CandidateOf(features, u, e) in Unsorted(features, u, edges)
  {
    var front, last := edges[..|edges| - 1], edges[|edges| - 1];
    assert edges == front + [last];
    if e in front {
      UnsortedHas(features, u, front, e);
    }
  }

  /** A candidate is exactly a dependent with a reactive edge from the updated feature whose pin
      is the updated version; the order is by name and version. */
  lemma WaveMeans(views: seq<ViewDef>, view: ViewDef, u: Update, c: Candidate)
    requires FindView(views, u.view) == Some(view)
    ensures c in Wave(views, u) <==>
      exists f, d :: f in view.features && d in f.deps && IsReactive(d) && d.feature == u.feature &&
        PinMatches(d, u.version)
        && f.name in ByName(view.features) && c == CandidateOf(ByName(view.features), u, Edge(f.name, d))
    ensures Sorted(Wave(views, u), CandidateLe)
  {
    var features, edges := ByName(view.features), EdgesFrom(view.features, u.feature);
    ByNameHolds(view.features);
    EdgesAreKnown(view.features, u.feature);
    var unsorted := Unsorted(features, u, edges);
    CandidateOrder();
    SortSorts(unsorted, CandidateLe);
    SortKeepsElements(unsorted, CandidateLe);
    SameElements(Sort(unsorted, CandidateLe), unsorted);
    if c in unsorted {
      var e := UnsortedStems(features, u, edges, c);
      EdgesFromMeans(view.features, u.feature, e);
    }
    forall f, d | f in view.features && d in f.deps && IsReactive(d) && d.feature == u.feature &&
      PinMatches(d, u.version)
        && f.name in ByName(view.features) && c == CandidateOf(ByName(view.features), u, Edge(f.name, d))
      ensures c in Wave(views, u)
    {
      EdgesFromMeans(view.features, u.feature, Edge(f.name, d));
      UnsortedHas(features, u, edges, Edge(f.name, d));
    }
  }

  /** The same, field by field: a candidate recomputes the current version of a feature with a reactive
      edge to the updated one that is unpinned or pinned to the updated version. */
  lemma CandidatesMean(views: seq<ViewDef>, view: ViewDef, u: Update, c: Candidate)
    requires FindView(views, u.view) == Some(view)
    ensures c in Wave(views, u) <==>
      && c.entityType == u.entityType && c.entity == u.entity && c.view == u.view
      && c.changedInput == u.feature && c.changedVersion == u.version
      && c.dependent in ByName(view.features) && c.dependentVersion == ByName(view.features)[c.dependent].version
      && exists f, d :: f in view.features && f.name == c.dependent && d in f.deps && d.feature == u.feature &&
           d.propagation == Reactive && (d.version == None || d.version == Some(u.version))
  {
    WaveMeans(views, view, u, c);
    ByNameHolds(view.features);
    hide Wave, ByName;
    assert forall d: Dependency :: IsReactive(d) <==> d.propagation == Reactive;
    assert forall d: Dependency :: PinMatches(d, u.version) <==> d.version == None || d.version == Some(u.version);
  }
}
