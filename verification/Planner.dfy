/** Request planning (planner.py): which output features a request expands to, and the
    depth-first check that their dependencies can be computed. */
module Planner {
  import opened Domain
  import opened Registry
  import opened Semantics
  import opened Graph

  // ---------------------------------------------------------------------------------------
  // Which features a request may name
  // ---------------------------------------------------------------------------------------

  predicate Computable(f: FeatureDef, allowShadow: bool) {
    f.kind == Udf && (f.lifecycle == Live || (f.lifecycle == Shadow && allowShadow))
  }

  /** The names of a request in the order in which they are considered. */
  function Expanded(view: ViewDef, requested: seq<string>, groups: seq<string>): seq<string>
    requires forall g :: g in groups ==> g in view.groups
  {
    if groups == [] then requested
    else Expanded(view, requested, groups[..|groups| - 1]) + view.groups[groups[|groups| - 1]]
  }

  // ---------------------------------------------------------------------------------------
  // Which dependency graphs are accepted
  // ---------------------------------------------------------------------------------------

  /** A dependency chain that cannot be computed: it closes a cycle, or it leads to an unknown
      feature or to a batch-only model feature. */
  ghost predicate BadPath(features: FeatureTable, p: seq<string>) {
    && Path(features, p)
    && (!NoDup(p) || p[|p| - 1] !in features || (|p| > 1 && features[p[|p| - 1]].kind.Model?))
  }

  ghost predicate Sound(features: FeatureTable, names: seq<string>) {
    forall p :: BadPath(features, p) ==> p[0] !in names
  }

  ghost predicate Accepts(view: ViewDef, requested: seq<string>, groups: seq<string>, allowShadow: bool) {
    var features := ByName(view.features);
    && (forall g :: g in groups ==> g in view.groups)
    && var names := Expanded(view, requested, groups);
    && names != []
    && (forall n :: n in names ==> n in features && Computable(features[n], allowShadow))
    && Sound(features, names)
  }

  /** Why a request is refused. A bad dependency comes with the chain that the search followed. */
  datatype PlannerError =
    | UnknownFeature | NotComputable | UnknownGroup | EmptyRequest | BadDependency(chain: seq<string>)

  /** The fault of the first of `names` that may not be requested. */
  function NameError(features: FeatureTable, names: seq<string>, allowShadow: bool): (r: Option<PlannerError>)
    ensures r.None? <==> forall n :: n in names ==> n in features && Computable(features[n], allowShadow)
  {
    if names == [] then None
    else
      var front, last := names[..|names| - 1], names[|names| - 1];
      assert names == front + [last];
      var before := NameError(features, front, allowShadow);
      if before.Some? then before
      else if last !in features then Some(PlannerError.UnknownFeature)
      else if !Computable(features[last], allowShadow) then Some(NotComputable) else None
  }

  /** The first fault on the way through the names and then the groups. */
  function ExpansionError(view: ViewDef, requested: seq<string>, groups: seq<string>, allowShadow: bool)
    : (r: Option<PlannerError>)
    ensures r.None? ==> forall g :: g in groups ==> g in view.groups
  {
    var features := ByName(view.features);
    if groups == [] then NameError(features, requested, allowShadow)
    else
      var front, last := groups[..|groups| - 1], groups[|groups| - 1];
      assert groups == front + [last];
      var before := ExpansionError(view, requested, front, allowShadow);
      if before.Some? then before
      else if last !in view.groups then Some(UnknownGroup)
      else NameError(features, view.groups[last], allowShadow)
  }

  /** The expansion has no fault exactly when it is known and computable as a whole. */
  lemma {:induction false} NoExpansionError(view: ViewDef, requested: seq<string>, groups: seq<string>,
                                            allowShadow: bool)
    ensures ExpansionError(view, requested, groups, allowShadow).None? <==>
      && (forall g :: g in groups ==> g in view.groups)
      && NameError(ByName(view.features), Expanded(view, requested, groups), allowShadow).None?
  {
    hide ByName;
    if groups != [] {
      var front, last := groups[..|groups| - 1], groups[|groups| - 1];
      assert groups == front + [last];
      NoExpansionError(view, requested, front, allowShadow);
    }
  }

  lemma {:induction false} ExpansionStops(view: ViewDef, requested: seq<string>, groups: seq<string>,
                                          allowShadow: bool, i: nat)
    requires i <= |groups| && ExpansionError(view, requested, groups[..i], allowShadow).Some?
    ensures ExpansionError(view, requested, groups, allowShadow)
      == ExpansionError(view, requested, groups[..i], allowShadow)
  {
    if i == |groups| {
      assert groups[..i] == groups;
    } else {
      assert groups[..|groups| - 1][..i] == groups[..i];
      ExpansionStops(view, requested, groups[..|groups| - 1], allowShadow, i);
    }
  }

  lemma {:induction false} NameErrorStops(features: FeatureTable, names: seq<string>, allowShadow: bool, i: nat)
    requires i <= |names| && NameError(features, names[..i], allowShadow).Some?
    ensures NameError(features, names, allowShadow) == NameError(features, names[..i], allowShadow)
  {
    if i == |names| {
      assert names[..i] == names;
    } else {
      assert names[..|names| - 1][..i] == names[..i];
      NameErrorStops(features, names[..|names| - 1], allowShadow, i);
    }
  }

  lemma SoundnessIsPerName(features: FeatureTable, names: seq<string>, names': seq<string>)
    requires forall n :: n in names <==> n in names'
    ensures Sound(features, names) <==> Sound(features, names')
  {
  }

  datatype Plan = Plan(computeFeatures: seq<string>, outputs: seq<FeatureRef>, shadow: seq<string>)

  /** What the finished part of the search guarantees. */
  ghost predicate Finished(features: FeatureTable, done: seq<string>) {
    && TopologicalOrder(features, done)
    && forall n, dep :: n in done && DependsOn(features, n, dep) ==> !features[dep].kind.Model?
  }

  lemma FinishedIsSound(features: FeatureTable, done: seq<string>, names: seq<string>)
    requires Finished(features, done) && forall n :: n in names ==> n in done
    ensures Sound(features, names)
  {
    forall p | Path(features, p) && p[0] in names
      ensures !BadPath(features, p)
    {
      PathsInOrderAreSimple(features, done, p);
      assert |p| > 1 ==> DependsOn(features, p[|p| - 2], p[|p| - 1]);
    }
  }

  lemma FinishOne(features: FeatureTable, done: seq<string>, name: string)
    requires Finished(features, done) && name in features && name !in done
    requires forall dep :: DependsOn(features, name, dep) ==> dep in done && !features[dep].kind.Model?
    ensures Finished(features, done + [name])
  {
    var more := done + [name];
    forall i, dep | 0 <= i < |more| && DependsOn(features, more[i], dep)
      ensures dep in more[..i] && !features[dep].kind.Model?
    {
      assert more[..i] == done[..i];
    }
  }

  class DependencyCheck {
    const features: FeatureTable
    /** Finished features, in the order in which they finished, and the search stack. */
    var done: seq<string>
    var visiting: seq<string>

    constructor (features: FeatureTable)
      ensures this.features == features && done == [] && visiting == []
    {
      this.features, done, visiting := features, [], [];
    }

    /** Visit one feature. Success finishes it; failure exhibits a bad chain that starts at the
        bottom of the search stack. */
    method Visit(name: string) returns (ok: bool, chain: seq<string>)
      requires Finished(features, done) && NoDup(visiting) && Path(features, visiting + [name])
      requires forall v :: v in visiting ==> v !in done && v in features
      requires name in features
      modifies this
      ensures visiting == old(visiting)
      ensures ok ==> Finished(features, done) && old(done) <= done && name in done
      ensures ok ==> forall v :: v in visiting ==> v !in done
      ensures !ok ==> BadPath(features, chain) && chain[0] == (visiting + [name])[0]
      decreases features.Keys - (set v | v in visiting), 1
    {
      hide Finished;
      chain := [];
      if name in done {
        return true, chain;
      }
      if name in visiting {
        assert !NoDup(visiting + [name]) by {
          var i :| 0 <= i < |visiting| && visiting[i] == name;
          assert (visiting + [name])[i] == (visiting + [name])[|visiting|];
        }
        return false, visiting + [name];
      }
      ghost var stack := visiting;
      visiting := visiting + [name];
      assert (set v | v in visiting) == (set v | v in stack) + {name};
      ok, chain := VisitDeps(features[name].deps);
      visiting := visiting[..|visiting| - 1];
      if ok {
        FinishOne(features, done, name);
        done := done + [name];
      }
    }

    /** The dependencies of the feature on top of the stack. */
    method VisitDeps(deps: seq<Dependency>) returns (ok: bool, chain: seq<string>)
      requires Finished(features, done) && NoDup(visiting) && Path(features, visiting)
      requires forall v :: v in visiting ==> v !in done && v in features
      requires deps == features[visiting[|visiting| - 1]].deps
      modifies this
      ensures visiting == old(visiting)
      ensures ok ==> Finished(features, done) && old(done) <= done
      ensures ok ==> forall v :: v in visiting ==> v !in done
      ensures ok ==> forall d :: d in deps ==> d.feature in done && !features[d.feature].kind.Model?
      ensures !ok ==> BadPath(features, chain) && chain[0] == visiting[0]
      decreases features.Keys - (set v | v in visiting), 2
    {
      for i := 0 to |deps|
        invariant visiting == old(visiting)
        invariant Finished(features, done) && old(done) <= done
        invariant forall v :: v in visiting ==> v !in done
        invariant forall j :: 0 <= j < i ==> deps[j].feature in done && !features[deps[j].feature].kind.Model?
      {
        var dep := deps[i].feature;
        var step := visiting + [dep];
        assert Path(features, step) by {
          assert DependsOn(features, visiting[|visiting| - 1], dep);
        }
        if dep !in features {
          return false, step;
        }
        if features[dep].kind.Model? {
          return false, step;
        }
        ok, chain := Visit(dep);
        if !ok {
          return;
        }
      }
      return true, [];
    }
  }

  /** Check the dependencies of all names, or return a bad chain that starts at one of them. */
  method ValidateDeps(names: seq<string>, features: FeatureTable)
    returns (ok: bool, chain: seq<string>, ghost order: seq<string>)
    requires forall n :: n in names ==> n in features
    ensures ok <==> Sound(features, names)
    ensures !ok ==> BadPath(features, chain) && chain[0] in names
    ensures ok ==> Finished(features, order) && forall n :: n in names ==> n in order
  {
    var check := new DependencyCheck(features);
    for i := 0 to |names|
      invariant fresh(check) && check.visiting == [] && check.features == features
      invariant Finished(features, check.done)
      invariant forall j :: 0 <= j < i ==> names[j] in check.done
    {
      var visited;
      visited, chain := check.Visit(names[i]);
      if !visited {
        return false, chain, [];
      }
    }
    FinishedIsSound(features, check.done, names);
    return true, [], check.done;
  }

  function PlanOf(features: FeatureTable, names: seq<string>): (p: Plan)
    requires forall n :: n in names ==> n in features
    ensures forall n :: n in p.shadow <==> n in names && features[n].lifecycle == Shadow
  {
    if names == [] then Plan([], [], [])
    else
      var front, last := PlanOf(features, names[..|names| - 1]), names[|names| - 1];
      assert names == names[..|names| - 1] + [last];
      Plan(front.computeFeatures + [last],
           front.outputs + [FeatureRef(last, features[last].version)],
           if features[last].lifecycle == Shadow then front.shadow + [last] else front.shadow)
  }

  lemma PlanSnoc(before: seq<string>, names: seq<string>, i: nat)
    requires i < |names|
    ensures var plan := Dedupe(before + names[..i]);
      Dedupe(before + names[..i + 1]) == if names[i] in plan then plan else plan + [names[i]]
  {
    DedupeSnoc(before + names[..i], names[i]);
    assert before + names[..i + 1] == before + names[..i] + [names[i]];
  }

  method AddNames(names: seq<string>, features: FeatureTable, allowShadow: bool,
                  ordered: seq<string>, ghost before: seq<string>)
    returns (error: Option<PlannerError>, extended: seq<string>)
    requires ordered == Dedupe(before)
    ensures error == NameError(features, names, allowShadow)
    ensures error.None? ==> extended == Dedupe(before + names)
  {
    hide Dedupe, Computable;
    extended := ordered;
    assert before + names[..0] == before;
    for i := 0 to |names|
      invariant extended == Dedupe(before + names[..i])
      invariant NameError(features, names[..i], allowShadow).None?
    {
      var name := names[i];
      assert names[..i + 1][..i] == names[..i];
      if name !in features {
        NameErrorStops(features, names, allowShadow, i + 1);
        return Some(PlannerError.UnknownFeature), extended;
      }
      if !Computable(features[name], allowShadow) {
        NameErrorStops(features, names, allowShadow, i + 1);
        return Some(NotComputable), extended;
      }
      PlanSnoc(before, names, i);
      extended := if name in extended then extended else extended + [name];
    }
    assert names[..|names|] == names;
    return None, extended;
  }

  /** The members of the listed groups. */
  function ExpandedGroups(view: ViewDef, groups: seq<string>): map<string, seq<string>>
    requires forall g :: g in groups ==> g in view.groups
  {
    map g | g in groups :: view.groups[g]
  }

  lemma ExpansionStep(view: ViewDef, requested: seq<string>, groups: seq<string>, allowShadow: bool, i: nat)
    requires i < |groups| && ExpansionError(view, requested, groups[..i], allowShadow).None?
    ensures groups[i] !in view.groups ==> ExpansionError(view, requested, groups, allowShadow) == Some(UnknownGroup)
    ensures groups[i] in view.groups ==>
      var fault := NameError(ByName(view.features), view.groups[groups[i]], allowShadow);
      if fault.Some? then ExpansionError(view, requested, groups, allowShadow) == fault
      else
        && ExpansionError(view, requested, groups[..i + 1], allowShadow).None?
        && Expanded(view, requested, groups[..i + 1])
             == Expanded(view, requested, groups[..i]) + view.groups[groups[i]]
        && ExpandedGroups(view, groups[..i + 1])
             == ExpandedGroups(view, groups[..i])[groups[i] := view.groups[groups[i]]]
  {
    hide NameError, ByName;
    assert groups[..i + 1][..i] == groups[..i] && groups[..i + 1] == groups[..i] + [groups[i]];
    if ExpansionError(view, requested, groups[..i + 1], allowShadow).Some? {
      ExpansionStops(view, requested, groups, allowShadow, i + 1);
    }
  }

  /** The explicit features, then the members of each group, without repetitions. */
  method ExpandRequest(view: ViewDef, requested: seq<string>, groups: seq<string>, allowShadow: bool)
    returns (error: Option<PlannerError>, ordered: seq<string>, members: map<string, seq<string>>)
    ensures error == ExpansionError(view, requested, groups, allowShadow)
    ensures error.None? ==> ordered == Dedupe(Expanded(view, requested, groups))
    ensures error.None? ==> members == ExpandedGroups(view, groups)
  {
    assert Dedupe<string>([]) == [];
    hide ByName, NameError, Dedupe;
    error, ordered := AddNames(requested, ByName(view.features), allowShadow, [], []);
    members := map[];
    assert [] + requested == requested && groups[..0] == [];
    if error.Some? {
      ExpansionStops(view, requested, groups, allowShadow, 0);
      return;
    }
    assert ExpandedGroups(view, []) == map[];
    assert ExpansionError(view, requested, [], allowShadow).None? && Expanded(view, requested, []) == requested;
    hide ExpansionError, Expanded, ExpandedGroups;
    for i := 0 to |groups|
      invariant error.None? && ExpansionError(view, requested, groups[..i], allowShadow).None?
      invariant ordered == Dedupe(Expanded(view, requested, groups[..i]))
      invariant members == ExpandedGroups(view, groups[..i])
    {
      ExpansionStep(view, requested, groups, allowShadow, i);
      if groups[i] !in view.groups {
        return Some(UnknownGroup), ordered, members;
      }
      members := members[groups[i] := view.groups[groups[i]]];
      error, ordered := AddNames(view.groups[groups[i]], ByName(view.features), allowShadow, ordered,
                                 Expanded(view, requested, groups[..i]));
      if error.Some? {
        return;
      }
    }
    assert groups[..|groups|] == groups;
  }

  datatype Planning = Planned(plan: Plan, expandedGroups: map<string, seq<string>>) | Refused(error: PlannerError)

  /** The error names the first fault: of the expansion, of an empty request, or of a dependency
      chain out of a requested feature. */
  ghost predicate Explains(error: PlannerError, view: ViewDef, requested: seq<string>, groups: seq<string>,
                           allowShadow: bool) {
    var fault := ExpansionError(view, requested, groups, allowShadow);
    if fault.Some? then error == fault.value
    else
      var names := Expanded(view, requested, groups);
      if names == [] then error.EmptyRequest?
      else
        && error.BadDependency? && BadPath(ByName(view.features), error.chain)
        && error.chain[0] in names
  }

  /** A plan exists exactly when the request is accepted; it lists every requested output once,
      at its first mention. */
  method PlanFeatures(view: ViewDef, requested: seq<string>, groups: seq<string>, allowShadow: bool)
    returns (p: Planning, ghost order: seq<string>)
    ensures p.Planned? <==> Accepts(view, requested, groups, allowShadow)
    ensures p.Refused? ==> Explains(p.error, view, requested, groups, allowShadow)
    ensures p.Planned? ==>
      && Finished(ByName(view.features), order)
      && (forall n :: n in Expanded(view, requested, groups) ==> n in order)
      && p.plan == PlanOf(ByName(view.features), Dedupe(Expanded(view, requested, groups)))
      && p.expandedGroups == ExpandedGroups(view, groups)
  {
    hide Computable, BadPath, Finished;
    order := [];
    var error, ordered, members := ExpandRequest(view, requested, groups, allowShadow);
    NoExpansionError(view, requested, groups, allowShadow);
    if error.Some? {
      return Refused(error.value), order;
    }
    if ordered == [] {
      return Refused(EmptyRequest), order;
    }
    var valid, chain;
    valid, chain, order := ValidateDeps(ordered, ByName(view.features));
    SoundnessIsPerName(ByName(view.features), ordered, Expanded(view, requested, groups));
    if !valid {
      return Refused(BadDependency(chain)), order;
    }
    return Planned(PlanOf(ByName(view.features), ordered), members), order;
  }

  // ---------------------------------------------------------------------------------------
  // What the engine is spared
  // ---------------------------------------------------------------------------------------

  predicate Structural(o: Outcome) { o == CYCLE || o == Failed(Error.UnknownFeature) }

  lemma {:induction false} DepsStayWellFormed(env: Env, m: Table, deps: seq<Dependency>)
    requires forall d :: d in deps ==> !Structural(Lookup(env, m, d.feature)) && d.feature in env.features
    ensures EvalDeps(env, m, deps).DepsFailed? ==> !Structural(Failed(EvalDeps(env, m, deps).error))
    ensures EvalDeps(env, m, deps).DepsReady? ==> forall d :: d in EvalDeps(env, m, deps).order ==> d in env.features
  {
    if deps != [] {
      DepsStayWellFormed(env, m, deps[..|deps| - 1]);
    }
  }

  /** Features that the planner has accepted never make the engine report a cycle or an
      unknown feature. */
  lemma {:induction false} AcceptedNeverBreaksTheEngine(env: Env, m: Table, order: seq<string>, i: nat)
    requires Solution(env, m) && env.given == map[]
    requires Finished(env.features, order) && i < |order|
    ensures !Structural(Lookup(env, m, order[i]))
    decreases i
  {
    var f := env.features[order[i]];
    forall d | d in f.deps
      ensures !Structural(Lookup(env, m, d.feature)) && d.feature in env.features
    {
      assert DependsOn(env.features, order[i], d.feature);
      var j :| 0 <= j < i && order[j] == d.feature;
      AcceptedNeverBreaksTheEngine(env, m, order, j);
    }
    DepsStayWellFormed(env, m, f.deps);
    assert Wanted(order[i]);
  }

  /** On an accepted request the meaning of the features is not just the least solution of the
      recursive equations but the only one: evaluation order cannot matter. */
  lemma {:induction false} AcceptedMeaningIsUnique(env: Env, m: Table, m': Table, order: seq<string>, i: nat)
    requires Solution(env, m) && Solution(env, m')
    requires Finished(env.features, order) && i < |order|
    ensures Lookup(env, m, order[i]) == Lookup(env, m', order[i])
    decreases i
  {
    var f := env.features[order[i]];
    forall d | d in f.deps
      ensures Lookup(env, m, d.feature) == Lookup(env, m', d.feature)
    {
      assert DependsOn(env.features, order[i], d.feature);
      var j :| 0 <= j < i && order[j] == d.feature;
      AcceptedMeaningIsUnique(env, m, m', order, j);
    }
    SameDeps(env, m, m', f.deps);
    assert Wanted(order[i]);
  }

  lemma {:induction false} SameDeps(env: Env, m: Table, m': Table, deps: seq<Dependency>)
    requires forall d :: d in deps ==> Lookup(env, m, d.feature) == Lookup(env, m', d.feature)
    ensures EvalDeps(env, m, deps) == EvalDeps(env, m', deps)
  {
    if deps != [] {
      SameDeps(env, m, m', deps[..|deps| - 1]);
    }
  }

  // ---------------------------------------------------------------------------------------
  // What a plan lists
  // ---------------------------------------------------------------------------------------

  /** A plan lists the names and their references in the same order. */
  lemma {:induction false} PlanMeans(features: FeatureTable, names: seq<string>)
    requires forall n :: n in names ==> n in features
    ensures var p := PlanOf(features, names);
      && p.computeFeatures == names && |p.outputs| == |names|
      && forall i :: 0 <= i < |names| ==>
           p.outputs[i].name == names[i] && p.outputs[i].version == features[names[i]].version
  {
    if names != [] {
      var front, last := names[..|names| - 1], |names| - 1;
      assert names == front + [names[last]];
      PlanMeans(features, front);
    }
  }

  /** The shadow features among the names, at the positions `at`. */
  ghost predicate IsShadowOf(features: FeatureTable, names: seq<string>, at: seq<nat>, shadow: seq<string>)
    requires forall n :: n in names ==> n in features
  {
    && Increasing(at) && (forall i: nat :: i in at <==> i < |names| && features[names[i]].lifecycle == Shadow)
    && |shadow| == |at| && forall k :: 0 <= k < |at| ==> at[k] < |names| && shadow[k] == names[at[k]]
  }

  lemma IsShadowSnoc(features: FeatureTable, front: seq<string>, last: string, at: seq<nat>, shadow: seq<string>)
    requires last in features && forall n :: n in front ==> n in features
    requires IsShadowOf(features, front, at, shadow)
    ensures if features[last].lifecycle == Shadow
            then IsShadowOf(features, front + [last], at + [|front|], shadow + [last])
            else IsShadowOf(features, front + [last], at, shadow)
  {
    assert forall k :: 0 <= k < |at| ==> at[k] in at;
  }

  /** They are listed again. */
  lemma {:induction false} ShadowMeans(features: FeatureTable, names: seq<string>) returns (at: seq<nat>)
    requires forall n :: n in names ==> n in features
    ensures IsShadowOf(features, names, at, PlanOf(features, names).shadow)
  {
    at := [];
    if names != [] {
      var front, last := names[..|names| - 1], names[|names| - 1];
      assert names == front + [last];
      at := ShadowMeans(features, front);
      hide IsShadowOf;
      IsShadowSnoc(features, front, last, at, PlanOf(features, front).shadow);
      at := if features[last].lifecycle == Shadow then at + [|front|] else at;
    }
  }

  /** The expansion: the explicit names, then the members of the groups. */
  lemma {:induction false} ExpandedMeans(view: ViewDef, requested: seq<string>, groups: seq<string>, n: string)
    requires forall g :: g in groups ==> g in view.groups
    ensures requested <= Expanded(view, requested, groups)
    ensures n in Expanded(view, requested, groups) <==>
      n in requested || exists g :: g in groups && n in view.groups[g]
  {
    if groups != [] {
      var front, last := groups[..|groups| - 1], groups[|groups| - 1];
      assert groups == front + [last];
      ExpandedMeans(view, requested, front, n);
    }
  }

  /** May be requested: computed by a user function, and live, or in shadow if the caller allows that. */
  lemma SingleRequest(view: ViewDef, f: FeatureDef, allowShadow: bool)
    requires f.name in ByName(view.features) && ByName(view.features)[f.name] == f && f.deps == []
    ensures Accepts(view, [f.name], [], allowShadow) <==>
      f.kind.Udf? && match f.lifecycle
                     case Live => true
                     case Shadow => allowShadow
                     case Draft => false
                     case Deprecated => false
  {
    var features := ByName(view.features);
    assert Expanded(view, [f.name], []) == [f.name];
    forall p | Path(features, p) && p[0] in [f.name]
      ensures !BadPath(features, p)
    {
      assert |p| > 1 ==> DependsOn(features, f.name, p[1]);
    }
    hide ByName, Sound;
    assert Sound(features, [f.name]) by { SoundAlone(features, f.name); }
  }

  lemma SoundAlone(features: FeatureTable, name: string)
    requires forall p :: Path(features, p) && p[0] in [name] ==> !BadPath(features, p)
    ensures Sound(features, [name])
  {
  }

  /** Name `i` is the first one that is unknown or may not be requested. */
  ghost predicate IsFirstFault(features: FeatureTable, names: seq<string>, allowShadow: bool, i: nat) {
    && i < |names| && !(names[i] in features && Computable(features[names[i]], allowShadow))
    && forall j :: 0 <= j < i ==> names[j] in features && Computable(features[names[j]], allowShadow)
  }

  /** It decides which of the two is reported. */
  lemma {:induction false} NameErrorMeans(features: FeatureTable, names: seq<string>, allowShadow: bool, i: nat)
    requires IsFirstFault(features, names, allowShadow, i)
    ensures NameError(features, names, allowShadow)
      == Some(if names[i] in features then NotComputable else PlannerError.UnknownFeature)
  {
    hide Computable;
    var front, last := names[..|names| - 1], |names| - 1;
    if i < last {
      assert front[i] == names[i] && forall j :: 0 <= j < i ==> front[j] == names[j];
      NameErrorMeans(features, front, allowShadow, i);
    } else {
      assert forall n :: n in front ==> n in features && Computable(features[n], allowShadow);
    }
  }
}
