/** Propagation stops: each round of observing updates and running a wave moves strictly up the
    dependency graph, so the rounds are bounded by its longest reactive path. */
module Quiescence {
  import opened Domain
  import opened Registry
  import opened Graph
  import opened Pit
  import opened Propagation
  import opened Debounce
  import opened PropagationWorker

  /** Update `next` announces a dependent that update `u` made due. */
  ghost predicate Causes(views: seq<ViewDef>, u: Update, next: Update) {
    && (exists c ::
          c in Wave(views, u) && c.dependent == next.feature && c.view == next.view && c.entity == next.entity)
    && FindView(views, next.view).Some? && HasReactiveDependents(FindView(views, next.view).value.features,
                                                                 next.feature)
  }

  /** One round of observing the updates `due` and flushing a wave that announces `announced`. */
  ghost predicate IsRound(views: seq<ViewDef>, due: set<Update>, announced: set<Update>) {
    forall next :: next in announced ==> exists u :: u in due && Causes(views, u, next)
  }

  ghost function UpdatesIn(seen: seq<Observation>): set<Update> { set o | o in seen :: o.update }

  /** The observations that `handle_feature_updated` makes are candidates of their updates. */
  ghost predicate Planned(views: seq<ViewDef>, seen: seq<Observation>) {
    forall o :: o in seen ==> o.candidate in Wave(views, o.update)
  }

  /** Draining the debounce store and running the wave is such a round. */
  lemma WaveIsARound(cfg: Config, h: History, published: seq<Update>, seen: seq<Observation>)
    requires Planned(cfg.views, seen)
    ensures var after := AfterUnits(cfg, WaveState(h, published, NO_TALLY), Units(seen)).published;
      IsRound(cfg.views, UpdatesIn(seen), set u | u in after && u !in published)
  {
    var start, units := WaveState(h, published, NO_TALLY), Units(seen);
    var after := AfterUnits(cfg, start, units).published;
    forall next | next in after && next !in published
      ensures exists u :: u in UpdatesIn(seen) && Causes(cfg.views, u, next)
    {
      var i := WaveAnnouncesDependents(cfg, start, units, next);
      var o := UnitComesFromObservation(seen, i);
      assert o.candidate in Wave(cfg.views, o.update);
      assert Causes(cfg.views, o.update, next);
    }
  }

  lemma UnitComesFromObservation(seen: seq<Observation>, i: nat) returns (o: Observation)
    requires i < |Units(seen)|
    ensures o in seen && Units(seen)[i].candidate == o.candidate
  {
    var k := Dedupe(Keys(seen))[i];
    assert Units(seen)[i] == Debounce.Digest(Of(seen, k));
    o := Of(seen, k)[0];
    OfIsItsKey(seen, k, o);
    var _ := DigestKeepsEverything(Of(seen, k));
  }

  // ---------------------------------------------------------------------------------------
  // Reactive paths
  // ---------------------------------------------------------------------------------------

  /** Each feature of the path reacts to the next one. */
  ghost predicate ReactivePath(features: seq<FeatureDef>, p: seq<string>) {
    p != [] && forall i :: 0 <= i < |p| - 1 ==> Reacts(features, p[i + 1], p[i])
  }

  ghost predicate UniqueNames(features: seq<FeatureDef>) {
    forall i, j :: 0 <= i < j < |features| ==> features[i].name != features[j].name
  }

  lemma {:induction false} ByNameFinds(features: seq<FeatureDef>, f: FeatureDef)
    requires UniqueNames(features) && f in features
    ensures f.name in ByName(features) && ByName(features)[f.name] == f
  {
    var front, last := features[..|features| - 1], features[|features| - 1];
    assert features == front + [last];
    if f in front {
      ByNameFinds(front, f);
      var i :| 0 <= i < |front| && front[i] == f;
      assert features[i].name != last.name;
    }
  }

  lemma ReactionIsDependency(features: seq<FeatureDef>, from: string, to: string)
    requires UniqueNames(features) && Reacts(features, from, to)
    ensures DependsOn(ByName(features), to, from)
  {
    var f :| f in features && f.name == to && exists d :: d in f.deps && IsReactive(d) && d.feature == from;
    ByNameFinds(features, f);
  }

  /** In an acyclic view a reactive path repeats no feature, so it is no longer than the view. */
  lemma ReactivePathsAreBounded(features: seq<FeatureDef>, order: seq<string>, p: seq<string>)
    requires UniqueNames(features) && TopologicalOrder(ByName(features), order)
    requires forall n :: n in ByName(features) ==> n in order
    requires ReactivePath(features, p) && |p| > 1
    ensures NoDup(p) && |p| <= |order|
  {
    forall i | 0 <= i < |p| - 1
      ensures DependsOn(ByName(features), p[i], p[i + 1])
    {
      ReactionIsDependency(features, p[i + 1], p[i]);
    }
    assert Path(ByName(features), p);
    assert DependsOn(ByName(features), p[0], p[0 + 1]);
    PathsInOrderAreSimple(ByName(features), order, p);
    Pigeonhole(p, (set n | n in order));
    SetOfSeq(order);
  }

  lemma {:induction false} SetOfSeq(s: seq<string>)
    ensures |set n | n in s| <= |s|
  {
    if s != [] {
      SetOfSeq(s[1..]);
      assert (set n | n in s) == (set n | n in s[1..]) + {s[0]};
    }
  }

  // ---------------------------------------------------------------------------------------
  // The rounds end
  // ---------------------------------------------------------------------------------------

  ghost predicate Rounds(views: seq<ViewDef>, rounds: seq<set<Update>>) {
    forall k :: 0 <= k < |rounds| - 1 ==> IsRound(views, rounds[k], rounds[k + 1])
  }

  lemma CauseIsReaction(views: seq<ViewDef>, view: ViewDef, u: Update, next: Update)
    requires Causes(views, u, next) && FindView(views, next.view) == Some(view)
    ensures u.view == next.view && Reacts(view.features, u.feature, next.feature)
  {
    var c :| c in Wave(views, u) && c.dependent == next.feature && c.view == next.view;
    CandidateKeepsView(views, u, c);
    WaveMeans(views, view, u, c);
  }

  lemma CandidateKeepsView(views: seq<ViewDef>, u: Update, c: Candidate)
    requires c in Wave(views, u)
    ensures c.view == u.view && FindView(views, u.view).Some?
  {
    WaveMeans(views, FindView(views, u.view).value, u, c);
  }

  /** An update of round `k` is the end of a chain of `k` reactions. */
  lemma {:induction false} UpdatesClimb(views: seq<ViewDef>, view: ViewDef, rounds: seq<set<Update>>, k: nat, u: Update)
    returns (p: seq<string>)
    requires Rounds(views, rounds) && k < |rounds| && u in rounds[k] && FindView(views, u.view) == Some(view)
    ensures |p| == k + 1 && p[0] == u.feature && ReactivePath(view.features, p)
  {
    if k == 0 {
      p := [u.feature];
    } else {
      var j := k - 1;
      assert IsRound(views, rounds[j], rounds[j + 1]);
      var before :| before in rounds[j] && Causes(views, before, u);
      CauseIsReaction(views, view, before, u);
      var rest := UpdatesClimb(views, view, rounds, j, before);
      PathGrows(view.features, u.feature, rest);
      p := [u.feature] + rest;
    }
  }

  /** A re-announced update has a dependent of its own, so its chain can be made one longer. */
  lemma AnnouncedUpdatesClimb(views: seq<ViewDef>, view: ViewDef, rounds: seq<set<Update>>, k: nat, u: Update)
    returns (p: seq<string>)
    requires Rounds(views, rounds) && 0 < k < |rounds| && u in rounds[k] && FindView(views, u.view) == Some(view)
    ensures |p| == k + 2 && ReactivePath(view.features, p)
  {
    var j := k - 1;
    assert IsRound(views, rounds[j], rounds[j + 1]);
    assert HasReactiveDependents(view.features, u.feature) by {
      var before :| before in rounds[j] && Causes(views, before, u);
    }
    hide IsRound, Causes;
    ReactiveDependentsMeans(view.features, u.feature);
    var to :| Reacts(view.features, u.feature, to);
    var rest := UpdatesClimb(views, view, rounds, k, u);
    PathGrows(view.features, to, rest);
    p := [to] + rest;
  }

  lemma PathGrows(features: seq<FeatureDef>, to: string, rest: seq<string>)
    requires ReactivePath(features, rest) && Reacts(features, rest[0], to)
    ensures ReactivePath(features, [to] + rest)
  {
    hide Reacts;
    var p := [to] + rest;
    forall i | 0 <= i < |p| - 1
      ensures Reacts(features, p[i + 1], p[i])
    {
      if i > 0 {
        var m := i - 1;
        assert p[i] == rest[m] && p[i + 1] == rest[m + 1];
      }
    }
  }

  /** With no updates from outside, the rounds fall silent after as many rounds as the longest
      reactive path has edges. */
  lemma PropagationQuiesces(views: seq<ViewDef>, view: ViewDef, rounds: seq<set<Update>>, longest: nat, k: nat,
                            u: Update)
    requires Rounds(views, rounds) && FindView(views, view.ref) == Some(view)
    requires forall p :: ReactivePath(view.features, p) ==> |p| - 1 <= longest
    requires longest <= k < |rounds| && k > 0
    ensures u in rounds[k] ==> u.view != view.ref
  {
    if u in rounds[k] && u.view == view.ref {
      var _ := AnnouncedUpdatesClimb(views, view, rounds, k, u);
    }
  }

  /** And an acyclic view has such a bound: fewer rounds than it has features. */
  lemma AcyclicViewsQuiesce(views: seq<ViewDef>, view: ViewDef, order: seq<string>, rounds: seq<set<Update>>, k: nat,
                            u: Update)
    requires Rounds(views, rounds) && FindView(views, view.ref) == Some(view) && UniqueNames(view.features)
    requires TopologicalOrder(ByName(view.features), order) && forall n :: n in ByName(view.features) ==> n in order
    requires 0 < k < |rounds| && k + 2 > |order|
    ensures u in rounds[k] ==> u.view != view.ref
  {
    if u in rounds[k] && u.view == view.ref {
      var p := AnnouncedUpdatesClimb(views, view, rounds, k, u);
      ReactivePathsAreBounded(view.features, order, p);
    }
  }
}
