/** The memoising resolver and its request context (compute/engine.py, compute/context.py),
    proved against the denotation of Semantics.dfy. */
module Engine {
  import opened Domain
  import opened Registry
  import opened Semantics
  import Fixpoint

  datatype NodeStatus = Ok | Degraded | SkippedNode

  function StatusOf(c: Computation): NodeStatus { if c.degraded then Degraded else Ok }

  /** Per-request caches: every source is loaded once and every feature computed once. */
  class RequestContext {
    const loader: string -> Option<Value>
    var sources: map<string, Value>
    var features: map<string, Computation>
    var statuses: map<string, NodeStatus>
    /** The sources handed out by the loader and the features whose user function ran, in order. */
    ghost var loaded: seq<string>
    ghost var evaluated: seq<string>

    ghost predicate Valid()
      reads this
    {
      && (forall s :: s in sources ==> loader(s) == Some(sources[s]))
      && NoDup(loaded) && (forall s :: s in loaded <==> s in sources)
      && NoDup(evaluated) && (forall n :: n in evaluated ==> n in features)
      && (forall n :: n in features ==> n in statuses && statuses[n] == StatusOf(features[n]))
      && (forall n :: n in statuses && n !in features ==> statuses[n] == SkippedNode)
    }

    /** Every entry of the caches is what the table of meanings `m` says. */
    ghost predicate Agrees(env: Env, m: Table)
      reads this
    {
      && Valid()
      && loader == env.loader
      && (forall n :: n in env.given ==> n in features)
      && (forall n :: n in features ==> Lookup(env, m, n) == Computed(features[n]))
      && (forall n :: n in statuses && n !in features ==> Lookup(env, m, n) == Skipped)
    }

    /** Every cached feature has a status. */
    lemma HasStatus(env: Env, m: Table, name: string)
      requires Agrees(env, m) && (name in features || IsSkipped(name))
      ensures name in statuses
    {
    }

    constructor (loader: string -> Option<Value>)
      ensures Valid() && this.loader == loader
      ensures sources == map[] && features == map[] && statuses == map[] && loaded == [] && evaluated == []
    {
      this.loader := loader;
      sources, features, statuses, loaded, evaluated := map[], map[], map[], [], [];
    }

    method GetSource(name: string) returns (payload: Option<Value>)
      requires Valid()
      modifies this`sources, this`loaded
      ensures Valid()
      ensures payload == loader(name)
      ensures sources == if payload.Some? then old(sources)[name := payload.value] else old(sources)
      ensures loaded == if name in old(sources) || payload.None? then old(loaded) else old(loaded) + [name]
    {
      if name in sources {
        assert sources[name := sources[name]] == sources;
        return Some(sources[name]);
      }
      payload := loader(name);
      if payload.Some? {
        sources := sources[name := payload.value];
        loaded := loaded + [name];
      }
    }

    method CacheFeature(name: string, comp: Computation)
      requires Valid()
      modifies this`features, this`statuses
      ensures Valid()
      ensures features == old(features)[name := comp] && statuses == old(statuses)[name := StatusOf(comp)]
    {
      features := features[name := comp];
      statuses := statuses[name := StatusOf(comp)];
    }

    predicate IsSkipped(name: string)
      reads this
    {
      name in statuses && statuses[name] == SkippedNode
    }

    method MarkSkipped(name: string)
      requires Valid() && name !in features
      modifies this`statuses
      ensures Valid() && statuses == old(statuses)[name := SkippedNode]
    {
      statuses := statuses[name := SkippedNode];
    }
  }

  /** The recursion stack, one mutable list shared by all frames of a resolution. */
  class Trail {
    var names: seq<string>

    constructor ()
      ensures names == []
    {
      names := [];
    }
  }

  // ---------------------------------------------------------------------------------------
  // Why a cycle error is never a false alarm
  // ---------------------------------------------------------------------------------------

  ghost predicate Answers(env: Env, k: nat, name: string) {
    name in env.given || name !in env.features || (name in Unfold(env, k) && Unfold(env, k)[name] != CYCLE)
  }

  /** No unfolding answers `name` without answering something on the trail. */
  ghost predicate Blocked(env: Env, name: string, trail: seq<string>) {
    forall k: nat {:trigger Answers(env, k, name)} :: Answers(env, k, name) ==>
      exists w :: w in trail && Answers(env, k, w)
  }

  /** The dependency pass stops at the first dependency that decides it. */
  lemma {:induction false} EvalDepsStops(env: Env, t: Table, deps: seq<Dependency>, i: nat)
    requires i <= |deps| && !EvalDeps(env, t, deps[..i]).DepsReady?
    ensures EvalDeps(env, t, deps) == EvalDeps(env, t, deps[..i])
  {
    if i == |deps| {
      assert deps[..i] == deps;
    } else {
      assert deps[..|deps| - 1][..i] == deps[..i];
      EvalDepsStops(env, t, deps[..|deps| - 1], i);
    }
  }

  lemma EvalDepsSnoc(env: Env, t: Table, deps: seq<Dependency>, i: nat)
    requires i < |deps|
    ensures EvalDeps(env, t, deps[..i + 1])
         == AddDep(EvalDeps(env, t, deps[..i]), deps[i], Lookup(env, t, deps[i].feature), env.calcTs)
  {
    assert deps[..i + 1][..i] == deps[..i];
  }

  /** One round of the dependency loop: it decides the outcome, or it is the last round, or the
      pass over a longer prefix is usable. */
  lemma DepsAdvance(env: Env, m: Table, deps: seq<Dependency>, i: nat, before: DepsOutcome, o: Outcome)
    requires i < |deps| && before == EvalDeps(env, m, deps[..i]) && o == Lookup(env, m, deps[i].feature)
    ensures AddDep(before, deps[i], o, env.calcTs) == EvalDeps(env, m, deps[..i + 1])
    ensures i + 1 == |deps| || !AddDep(before, deps[i], o, env.calcTs).DepsReady? ==>
      AddDep(before, deps[i], o, env.calcTs) == EvalDeps(env, m, deps)
  {
    EvalDepsSnoc(env, m, deps, i);
    if i + 1 == |deps| || !EvalDeps(env, m, deps[..i + 1]).DepsReady? {
      if i + 1 == |deps| {
        assert deps[..i + 1] == deps;
      } else {
        EvalDepsStops(env, m, deps, i + 1);
      }
    }
  }

  lemma AnswersGrow(env: Env, k: nat, name: string)
    requires Answers(env, k, name)
    ensures Answers(env, k + 1, name)
  {
    StepIsMonotone(env);
    Fixpoint.IterateRefines(CYCLE, env.features.Keys, StepOf(env), k, k + 1);
  }

  lemma AnswerIsEvaluated(env: Env, k: nat, name: string)
    requires name in env.features && name !in env.given && Answers(env, k + 1, name)
    ensures EvalFeature(env, Unfold(env, k), env.features[name]) != CYCLE
  {
    assert Unfold(env, k + 1) == Next(env, Unfold(env, k));
  }

  /** Unfoldings never disagree with a solution. */
  lemma SolutionCovers(env: Env, m: Table, k: nat)
    requires Solution(env, m)
    ensures Fixpoint.Refines(CYCLE, Unfold(env, k), m)
  {
    forall n | n in m
      ensures Next(env, m)[n] == m[n]
    {
      assert Wanted(n);
    }
    assert Next(env, m) == m;
    StepIsMonotone(env);
    Fixpoint.IterateIsLeast(CYCLE, env.features.Keys, StepOf(env), m, k);
  }

  lemma AnsweredByLookup(env: Env, k: nat, name: string)
    requires Lookup(env, Unfold(env, k), name) != CYCLE
    ensures Answers(env, k, name)
  {
    StepIsMonotone(env);
    Fixpoint.IterateRefines(CYCLE, env.features.Keys, StepOf(env), 0, k);
  }

  /** If a feature has an answer one level up, then the dependency after a usable prefix has
      an answer at this level. */
  lemma AnswerNeedsDependency(env: Env, t: Table, m: Table, f: FeatureDef, i: nat)
    requires Fixpoint.Refines(CYCLE, t, m) && i < |f.deps|
    requires EvalDeps(env, m, f.deps[..i]).DepsReady?
    requires forall s :: s in f.inputs ==> env.loader(s).Some?
    requires EvalFeature(env, t, f) != CYCLE
    ensures Lookup(env, t, f.deps[i].feature) != CYCLE
  {
    EvalDepsRefines(env, t, m, f.deps[..i]);
    if EvalDeps(env, t, f.deps[..i]) == DepsFailed(DependencyCycle) {
      EvalDepsStops(env, t, f.deps, i);
    }
    EvalDepsSnoc(env, t, f.deps, i);
    if Lookup(env, t, f.deps[i].feature) == CYCLE {
      EvalDepsStops(env, t, f.deps, i + 1);
    }
  }

  /** Something on the trail, or `name` itself, is answered one level lower. */
  ghost predicate AnsweredBelow(env: Env, name: string, trail: seq<string>, k: nat) {
    k > 0 && exists w :: w in trail + [name] && Answers(env, k - 1, w)
  }

  /** Answering `name` takes an answer, one level lower, on the trail or for `name` itself. */
  ghost predicate LeadsBack(env: Env, name: string, trail: seq<string>) {
    forall k: nat :: Answers(env, k, name) ==> AnsweredBelow(env, name, trail, k)
  }

  lemma DependencyLeadsBack(env: Env, m: Table, name: string, trail: seq<string>, i: nat)
    requires Solution(env, m)
    requires name in env.features && name !in env.given && i < |env.features[name].deps|
    requires EvalDeps(env, m, env.features[name].deps[..i]).DepsReady?
    requires Blocked(env, env.features[name].deps[i].feature, trail + [name])
    requires forall s :: s in env.features[name].inputs ==> env.loader(s).Some?
    ensures LeadsBack(env, name, trail)
  {
    forall k: nat | Answers(env, k, name)
      ensures AnsweredBelow(env, name, trail, k)
    {
      DependencyLeadsBackAt(env, m, name, trail, i, k);
    }
  }

  lemma DependencyLeadsBackAt(env: Env, m: Table, name: string, trail: seq<string>, i: nat, k: nat)
    requires Solution(env, m)
    requires name in env.features && name !in env.given && i < |env.features[name].deps|
    requires EvalDeps(env, m, env.features[name].deps[..i]).DepsReady?
    requires Blocked(env, env.features[name].deps[i].feature, trail + [name])
    requires forall s :: s in env.features[name].inputs ==> env.loader(s).Some?
    requires Answers(env, k, name)
    ensures AnsweredBelow(env, name, trail, k)
  {
    hide Solution, EvalDeps, Blocked, Answers;
    NothingAnswersAtFirst(env, name);
    DependencyAnswered(env, m, name, i, k - 1);
    BlockedAt(env, env.features[name].deps[i].feature, trail + [name], k - 1);
  }

  lemma NothingAnswersAtFirst(env: Env, name: string)
    requires name in env.features && name !in env.given
    ensures !Answers(env, 0, name)
  {
  }

  lemma BlockedAt(env: Env, name: string, trail: seq<string>, k: nat)
    requires Blocked(env, name, trail) && Answers(env, k, name)
    ensures exists w :: w in trail && Answers(env, k, w)
  {
  }

  lemma DependencyAnswered(env: Env, m: Table, name: string, i: nat, k: nat)
    requires Solution(env, m)
    requires name in env.features && name !in env.given && i < |env.features[name].deps|
    requires EvalDeps(env, m, env.features[name].deps[..i]).DepsReady?
    requires forall s :: s in env.features[name].inputs ==> env.loader(s).Some?
    requires Answers(env, k + 1, name)
    ensures Answers(env, k, env.features[name].deps[i].feature)
  {
    var f := env.features[name];
    SolutionCovers(env, m, k);
    AnswerIsEvaluated(env, k, name);
    AnswerNeedsDependency(env, Unfold(env, k), m, f, i);
    AnsweredByLookup(env, k, f.deps[i].feature);
  }

  lemma {:induction false} LeadingBackBlocks(env: Env, name: string, trail: seq<string>, k: nat)
    requires LeadsBack(env, name, trail) && Answers(env, k, name)
    ensures exists w :: w in trail && Answers(env, k, w)
  {
    if k > 0 {
      assert AnsweredBelow(env, name, trail, k);
      var w :| w in trail + [name] && Answers(env, k - 1, w);
      if w !in trail {
        LeadingBackBlocks(env, name, trail, k - 1);
        w :| w in trail && Answers(env, k - 1, w);
      }
      AnswersGrow(env, k - 1, w);
    }
  }

  /** If the first dependencies of `name` are usable and the next one is blocked by `name` or
      by the trail, then `name` is blocked by the trail. */
  lemma BlockedByDependency(env: Env, m: Table, name: string, trail: seq<string>, i: nat)
    requires Solution(env, m)
    requires name in env.features && name !in env.given && i < |env.features[name].deps|
    requires EvalDeps(env, m, env.features[name].deps[..i]).DepsReady?
    requires Blocked(env, env.features[name].deps[i].feature, trail + [name])
    requires forall s :: s in env.features[name].inputs ==> env.loader(s).Some?
    ensures Blocked(env, name, trail)
  {
    DependencyLeadsBack(env, m, name, trail, i);
    forall k: nat | Answers(env, k, name)
      ensures exists w :: w in trail && Answers(env, k, w)
    {
      LeadingBackBlocks(env, name, trail, k);
    }
  }

  /** `m` answers nothing that no unfolding answers. */
  ghost predicate Least(env: Env, m: Table) {
    forall n {:trigger Wanted(n)} :: Wanted(n) && Blocked(env, n, []) ==> Lookup(env, m, n) == CYCLE
  }

  lemma MeaningIsLeastSolution(env: Env)
    ensures Least(env, Meaning(env))
  {
    forall n | Wanted(n) && Blocked(env, n, [])
      ensures Lookup(env, Meaning(env), n) == CYCLE
    {
      assert !Answers(env, |env.features.Keys|, n);
      MeaningIsFixpoint(env);
    }
  }

  // ---------------------------------------------------------------------------------------
  // The resolver
  // ---------------------------------------------------------------------------------------

  class ComputeCore {
    const features: FeatureTable
    const udfs: map<string, UdfBody>

    constructor (features: FeatureTable, udfs: map<string, UdfBody>)
      ensures this.features == features && this.udfs == udfs
    {
      this.features, this.udfs := features, udfs;
    }

    /** The environment that a request against this core stands for. */
    ghost predicate Serves(env: Env, stamps: map<string, SourceStamp>, calcTs: Time) {
      env.features == features && env.udfs == udfs && env.stamps == stamps && env.calcTs == calcTs
    }

    method LoadSources(inputs: seq<string>, ctx: RequestContext) returns (payloads: Option<map<string, Value>>)
      requires ctx.Valid()
      modifies ctx`sources, ctx`loaded
      ensures ctx.Valid()
      ensures payloads.None? <==> exists s :: s in inputs && ctx.loader(s).None?
      ensures payloads.Some? ==> payloads.value == map s | s in inputs :: ctx.loader(s).value
      ensures old(ctx.loaded) <= ctx.loaded
    {
      hide RequestContext.Valid;
      var result: map<string, Value> := map[];
      for i := 0 to |inputs|
        invariant ctx.Valid() && old(ctx.loaded) <= ctx.loaded
        invariant forall s :: s in result <==> s in inputs[..i]
        invariant forall s :: s in result ==> ctx.loader(s) == Some(result[s])
      {
        var payload := ctx.GetSource(inputs[i]);
        if payload.None? {
          return None;
        }
        result := result[inputs[i] := payload.value];
      }
      assert inputs[..|inputs|] == inputs;
      return Some(result);
    }

    /** The input facts of a feature, or the error of the first missing stamp or reference. */
    method CollectFacts(f: FeatureDef, order: seq<string>, comps: map<string, Computation>,
                        stamps: map<string, SourceStamp>, ghost env: Env)
      returns (facts: seq<Fact>, error: Option<Error>)
      requires env.features == features && env.stamps == stamps
      requires forall d :: d in order ==> d in comps
      ensures error == if exists s :: s in f.inputs && s !in stamps then Some(MissingStamp)
                       else if exists d :: d in order && d !in features then Some(UnknownFeature) else None
      ensures error.None? ==> facts == Facts(env, f, order, comps)
    {
      facts := [];
      for i := 0 to |f.inputs|
        invariant |facts| == i
        invariant forall j :: 0 <= j < i ==> f.inputs[j] in stamps && facts[j] == SourceFact(stamps, f.inputs[j])
      {
        if f.inputs[i] !in stamps {
          return facts, Some(MissingStamp);
        }
        facts := facts + [SourceFact(stamps, f.inputs[i])];
      }
      for i := 0 to |order|
        invariant |facts| == |f.inputs| + i
        invariant forall j :: 0 <= j < |f.inputs| ==> facts[j] == SourceFact(stamps, f.inputs[j])
        invariant forall j :: 0 <= j < i ==> order[j] in features
        invariant forall j :: 0 <= j < i ==> facts[|f.inputs| + j] == DepFact(features, comps, order[j])
      {
        if order[i] !in features {
          return facts, Some(UnknownFeature);
        }
        facts := facts + [DepFact(features, comps, order[i])];
      }
      assert facts == Facts(env, f, order, comps);
      return facts, None;
    }

    /** Resolve one node. Whatever an earlier resolution of the same request left in the
        context, the result is the denotation of the name; a cycle is reported only if every
        way of answering the name leads back to the trail. */
    method Resolve(name: string, ctx: RequestContext, stamps: map<string, SourceStamp>, calcTs: Time,
                   trail: Trail, ghost env: Env, ghost m: Table)
      returns (r: Outcome)
      requires Serves(env, stamps, calcTs) && Solution(env, m) && ctx.Agrees(env, m)
      requires forall w :: w in trail.names ==> w !in ctx.features
      modifies ctx, trail
      ensures ctx.Agrees(env, m) && trail.names == old(trail.names)
      ensures forall w :: w in trail.names ==> w !in ctx.features
      ensures r != CYCLE ==> r == Lookup(env, m, name)
      ensures r == CYCLE ==> Blocked(env, name, trail.names)
      ensures r.Computed? ==> name in ctx.features
      ensures r.Skipped? ==> ctx.IsSkipped(name)
      ensures old(ctx.evaluated) <= ctx.evaluated && old(ctx.loaded) <= ctx.loaded
      ensures old(ctx.statuses.Keys) <= ctx.statuses.Keys
      decreases features.Keys - (set w | w in trail.names), 1
    {
      if name in ctx.features {
        return Computed(ctx.features[name]);
      }
      if ctx.IsSkipped(name) {
        return Skipped;
      }
      if name !in features {
        return Failed(UnknownFeature);
      }
      if name in trail.names {
        assert Blocked(env, name, trail.names);
        return CYCLE;
      }
      r := ResolveFresh(features[name], ctx, stamps, calcTs, trail, env, m);
    }

    /** The node is not cached, not skipped and not being resolved: push it, resolve it, and
        pop it whatever happened. */
    method ResolveFresh(f: FeatureDef, ctx: RequestContext, stamps: map<string, SourceStamp>, calcTs: Time,
                        trail: Trail, ghost env: Env, ghost m: Table)
      returns (r: Outcome)
      requires Serves(env, stamps, calcTs) && Solution(env, m) && ctx.Agrees(env, m)
      requires f.name in features && features[f.name] == f
      requires f.name !in trail.names && f.name !in ctx.features
      requires forall w :: w in trail.names ==> w !in ctx.features
      modifies ctx, trail
      ensures ctx.Agrees(env, m) && trail.names == old(trail.names)
      ensures forall w :: w in trail.names ==> w !in ctx.features
      ensures r != CYCLE ==> r == Lookup(env, m, f.name)
      ensures r == CYCLE ==> Blocked(env, f.name, trail.names)
      ensures r.Computed? ==> f.name in ctx.features
      ensures r.Skipped? ==> ctx.IsSkipped(f.name)
      ensures old(ctx.evaluated) <= ctx.evaluated && old(ctx.loaded) <= ctx.loaded
      ensures forall n :: n in old(ctx.statuses) ==> n in ctx.statuses
      decreases features.Keys - (set w | w in trail.names), 0
    {
      ghost var outer := trail.names;
      trail.names := trail.names + [f.name];
      assert (set w | w in trail.names) == (set w | w in outer) + {f.name};
      r := ResolvePushed(f, ctx, stamps, calcTs, trail, outer, env, m);
      trail.names := trail.names[..|trail.names| - 1];
    }

    /** What runs for the feature on top of the trail: its sources, its dependencies, its value. */
    method ResolvePushed(f: FeatureDef, ctx: RequestContext, stamps: map<string, SourceStamp>, calcTs: Time,
                         trail: Trail, ghost outer: seq<string>, ghost env: Env, ghost m: Table)
      returns (r: Outcome)
      requires Serves(env, stamps, calcTs) && Solution(env, m) && ctx.Agrees(env, m)
      requires f.name in features && features[f.name] == f && f.name !in ctx.features
      requires trail.names == outer + [f.name] && f.name !in outer
      requires forall w :: w in trail.names ==> w !in ctx.features
      modifies ctx, trail
      ensures ctx.Agrees(env, m) && trail.names == old(trail.names)
      ensures forall w :: w in outer ==> w !in ctx.features
      ensures r != CYCLE ==> r == Lookup(env, m, f.name)
      ensures r == CYCLE ==> Blocked(env, f.name, outer)
      ensures r.Computed? ==> f.name in ctx.features
      ensures r.Skipped? ==> ctx.IsSkipped(f.name)
      ensures old(ctx.evaluated) <= ctx.evaluated && old(ctx.loaded) <= ctx.loaded
      ensures forall n :: n in old(ctx.statuses) ==> n in ctx.statuses
      decreases features.Keys - (set w | w in trail.names), 3
    {
      var payloads := LoadSources(f.inputs, ctx);
      assert Wanted(f.name);
      if payloads.None? {
        return Failed(SourceUnavailable);
      }
      ghost var at: nat;
      var deps: DepsOutcome;
      deps, at := ResolveDeps(f, ctx, stamps, calcTs, trail, env, m);
      if deps == DepsFailed(DependencyCycle) {
        BlockedByDependency(env, m, f.name, outer, at);
        return CYCLE;
      }
      r := Conclude(f, payloads.value, deps, ctx, stamps, env, m);
    }

    /** The tail of a resolution: record a skip, or run the user function and cache its result. */
    method Conclude(f: FeatureDef, payloads: map<string, Value>, deps: DepsOutcome, ctx: RequestContext,
                    stamps: map<string, SourceStamp>, ghost env: Env, ghost m: Table)
      returns (r: Outcome)
      requires Serves(env, stamps, env.calcTs) && ctx.Agrees(env, m) && f.name !in ctx.features
      requires forall s :: s in f.inputs ==> env.loader(s).Some?
      requires payloads == Payloads(env, f)
      requires deps.DepsReady? ==> forall d :: d in deps.order ==> d in deps.comps
      requires deps != DepsFailed(DependencyCycle) && Lookup(env, m, f.name) == Assemble(env, f, deps)
      modifies ctx`features, ctx`statuses, ctx`evaluated
      ensures ctx.Agrees(env, m)
      ensures r == Assemble(env, f, deps) && r != CYCLE
      ensures forall n :: n in ctx.features ==> n in old(ctx.features) || n == f.name
      ensures r.Computed? ==> f.name in ctx.features && ctx.evaluated == old(ctx.evaluated) + [f.name]
      ensures !r.Computed? ==> ctx.evaluated == old(ctx.evaluated)
      ensures r.Skipped? ==> ctx.IsSkipped(f.name)
      ensures !r.Computed? ==> ctx.features == old(ctx.features)
      ensures forall n :: n in old(ctx.statuses) ==> n in ctx.statuses
    {
      if deps.DepsSkip? {
        KeepSkip(f.name, ctx, env, m);
        return Skipped;
      }
      if deps.DepsFailed? {
        return Failed(deps.error);
      }
      r := Evaluate(f, payloads, deps, stamps, env);
      if r.Computed? {
        Keep(f.name, r.comp, ctx, env, m);
      }
    }

    method Keep(name: string, comp: Computation, ctx: RequestContext, ghost env: Env, ghost m: Table)
      requires ctx.Agrees(env, m) && name !in ctx.features && Lookup(env, m, name) == Computed(comp)
      modifies ctx`features, ctx`statuses, ctx`evaluated
      ensures ctx.Agrees(env, m)
      ensures ctx.features == old(ctx.features)[name := comp] && ctx.evaluated == old(ctx.evaluated) + [name]
      ensures forall n :: n in old(ctx.statuses) ==> n in ctx.statuses
    {
      ctx.CacheFeature(name, comp);
      ctx.evaluated := ctx.evaluated + [name];
    }

    method KeepSkip(name: string, ctx: RequestContext, ghost env: Env, ghost m: Table)
      requires ctx.Agrees(env, m) && name !in ctx.features && Lookup(env, m, name) == Skipped
      modifies ctx`statuses
      ensures ctx.Agrees(env, m) && ctx.IsSkipped(name) && (forall n :: n in old(ctx.statuses) ==> n in ctx.statuses)
    {
      ctx.MarkSkipped(name);
    }

    /** The value of a feature whose dependencies are usable, with its derived metadata. */
    method Evaluate(f: FeatureDef, payloads: map<string, Value>, deps: DepsOutcome, stamps: map<string, SourceStamp>,
                    ghost env: Env)
      returns (r: Outcome)
      requires Serves(env, stamps, env.calcTs)
      requires forall s :: s in f.inputs ==> env.loader(s).Some?
      requires payloads == Payloads(env, f)
      requires deps.DepsReady? && forall d :: d in deps.order ==> d in deps.comps
      ensures r == Assemble(env, f, deps) && r != CYCLE && !r.Skipped?
    {
      var facts, error := CollectFacts(f, deps.order, deps.comps, stamps, env);
      if error.Some? {
        return Failed(error.value);
      }
      if f.udf !in udfs {
        return Failed(UnknownUdf);
      }
      var value := udfs[f.udf](payloads, ValuesOf(deps.comps));
      if value.None? {
        return Failed(UdfRaised);
      }
      if facts == [] {
        return Failed(NoInputs);
      }
      return Computed(Summarise(value.value, facts, deps.degraded));
    }

    /** The loop over the dependency edges of the feature on top of the trail. */
    method ResolveDeps(f: FeatureDef, ctx: RequestContext, stamps: map<string, SourceStamp>, calcTs: Time,
                       trail: Trail, ghost env: Env, ghost m: Table)
      returns (deps: DepsOutcome, ghost at: nat)
      requires Serves(env, stamps, calcTs) && Solution(env, m) && ctx.Agrees(env, m)
      requires forall w :: w in trail.names ==> w !in ctx.features
      modifies ctx, trail
      ensures ctx.Agrees(env, m) && trail.names == old(trail.names)
      ensures forall w :: w in trail.names ==> w !in ctx.features
      ensures deps != DepsFailed(DependencyCycle) ==> deps == EvalDeps(env, m, f.deps)
      ensures deps == DepsFailed(DependencyCycle) ==>
        && at < |f.deps| && Blocked(env, f.deps[at].feature, trail.names)
        && EvalDeps(env, m, f.deps[..at]).DepsReady?
      ensures old(ctx.evaluated) <= ctx.evaluated && old(ctx.loaded) <= ctx.loaded
      ensures forall n :: n in old(ctx.statuses) ==> n in ctx.statuses
      decreases features.Keys - (set w | w in trail.names), 2
    {
      at := 0;
      deps := NO_DEPS;
      assert deps == EvalDeps(env, m, f.deps[..0]) && deps.DepsReady?;
      assert |f.deps| == 0 ==> f.deps == f.deps[..0];
      hide EvalDeps, AddDep, Lookup, RequestContext.Agrees, RequestContext.Valid, RequestContext.IsSkipped, Solution,
        Blocked, Serves;
      for i := 0 to |f.deps|
        invariant ctx.Agrees(env, m) && trail.names == old(trail.names)
        invariant forall w :: w in trail.names ==> w !in ctx.features
        invariant deps == EvalDeps(env, m, f.deps[..i]) && deps.DepsReady?
        invariant i == |f.deps| ==> deps == EvalDeps(env, m, f.deps)
        invariant old(ctx.evaluated) <= ctx.evaluated && old(ctx.loaded) <= ctx.loaded
        invariant forall n :: n in old(ctx.statuses) ==> n in ctx.statuses
      {
        var d := f.deps[i];
        var o := Resolve(d.feature, ctx, stamps, calcTs, trail, env, m);
        if o == CYCLE {
          at := i;
          return DepsFailed(DependencyCycle), at;
        }
        DepsAdvance(env, m, f.deps, i, deps, o);
        deps := AddDep(deps, d, o, calcTs);
        if !deps.DepsReady? {
          return;
        }
      }
    }

    /** Compute the requested features in request order. The response is a function of the
        environment and the requested names alone: not of what the context already held. */
    method Compute(entity: EntityKey, requested: seq<string>, ctx: RequestContext,
                   stamps: map<string, SourceStamp>, calcTs: Time, ghost env: Env)
      returns (r: Response)
      requires Serves(env, stamps, calcTs) && ctx.Agrees(env, Meaning(env))
      modifies ctx
      ensures ctx.Agrees(env, Meaning(env))
      ensures r == Respond(env, Meaning(env), entity, requested)
      ensures r.Results? ==> forall n :: n in requested ==> n in ctx.statuses
    {
      MeaningIsSolution(env);
      MeaningIsLeastSolution(env);
      r := ComputeWith(entity, requested, ctx, stamps, calcTs, env, Meaning(env));
    }

    method ComputeWith(entity: EntityKey, requested: seq<string>, ctx: RequestContext,
                       stamps: map<string, SourceStamp>, calcTs: Time, ghost env: Env, ghost m: Table)
      returns (r: Response)
      requires Serves(env, stamps, calcTs) && Solution(env, m) && ctx.Agrees(env, m)
      requires Least(env, m)
      modifies ctx
      ensures ctx.Agrees(env, m)
      ensures r == Respond(env, m, entity, requested)
      ensures r.Results? ==> forall n :: n in requested ==> n in ctx.statuses
    {
      var results: map<string, FeatureResult> := map[];
      assert Respond(env, m, entity, requested[..0]) == Results(results);
      hide Respond, Blocked, RequestContext.Agrees, RequestContext.Valid, Solution;
      for i := 0 to |requested|
        invariant ctx.Agrees(env, m)
        invariant Respond(env, m, entity, requested[..i]) == Results(results)
        invariant forall n :: n in requested[..i] ==> n in ctx.statuses
      {
        var name := requested[i];
        RespondAdvance(env, m, entity, requested, i, results);
        assert Wanted(name);
        var trail := new Trail();
        var o := Resolve(name, ctx, stamps, calcTs, trail, env, m);
        if o.Failed? {
          return Raised(o.error);
        }
        assert name in ctx.statuses by { ctx.HasStatus(env, m, name); }
        if o.Computed? {
          if name !in features {
            RespondStops(env, m, entity, requested, i + 1);
            return Raised(UnknownFeature);
          }
          results := results[name := ResultOf(features, calcTs, entity, name, o.comp)];
        }
      }
      assert requested[..|requested|] == requested;
      return Results(results);
    }
  }

  // ---------------------------------------------------------------------------------------
  // The response of a request
  // ---------------------------------------------------------------------------------------

  datatype Response = Results(results: map<string, FeatureResult>) | Raised(error: Error)

  function ResultOf(features: FeatureTable, calcTs: Time, entity: EntityKey, name: string,
                    c: Computation): FeatureResult
    requires name in features
  {
    FeatureResult(FeatureRef(name, features[name].version), entity, c.value, c.dataTs, calcTs,
                  Some(c.maxInputDataTs), Some(c.fingerprint), Some(c.valueHash),
                  c.availableAt, c.availabilitySource)
  }

  function RespondOne(env: Env, m: Table, entity: EntityKey, before: Response, name: string): Response {
    var o := Lookup(env, m, name);
    if before.Raised? then before
    else if o.Failed? then Raised(o.error)
    else if o.Skipped? then before
    else if name !in env.features then Raised(UnknownFeature)
    else Results(before.results[name := ResultOf(env.features, env.calcTs, entity, name, o.comp)])
  }

  function Respond(env: Env, m: Table, entity: EntityKey, requested: seq<string>): Response {
    if requested == [] then Results(map[])
    else RespondOne(env, m, entity, Respond(env, m, entity, requested[..|requested| - 1]), requested[|requested| - 1])
  }

  lemma RespondSnoc(env: Env, m: Table, entity: EntityKey, requested: seq<string>, i: nat)
    requires i < |requested|
    ensures Respond(env, m, entity, requested[..i + 1])
         == RespondOne(env, m, entity, Respond(env, m, entity, requested[..i]), requested[i])
  {
    assert requested[..i + 1][..i] == requested[..i];
  }

  lemma {:induction false} RespondStops(env: Env, m: Table, entity: EntityKey, requested: seq<string>, i: nat)
    requires i <= |requested| && Respond(env, m, entity, requested[..i]).Raised?
    ensures Respond(env, m, entity, requested) == Respond(env, m, entity, requested[..i])
  {
    if i == |requested| {
      assert requested[..i] == requested;
    } else {
      assert requested[..|requested| - 1][..i] == requested[..i];
      RespondStops(env, m, entity, requested[..|requested| - 1], i);
    }
  }

  /** One round of the request loop: a failure decides the response. */
  lemma RespondAdvance(env: Env, m: Table, entity: EntityKey, requested: seq<string>, i: nat,
                       results: map<string, FeatureResult>)
    requires i < |requested| && Respond(env, m, entity, requested[..i]) == Results(results)
    ensures var next := RespondOne(env, m, entity, Results(results), requested[i]);
      Respond(env, m, entity, requested[..i + 1]) == next &&
        (next.Raised? ==> Respond(env, m, entity, requested) == next)
  {
    RespondSnoc(env, m, entity, requested, i);
    if Respond(env, m, entity, requested[..i + 1]).Raised? {
      RespondStops(env, m, entity, requested, i + 1);
    }
  }

  /** A requested name that makes the request fail. */
  ghost predicate Breaks(env: Env, m: Table, name: string) {
    Lookup(env, m, name).Failed? || (Lookup(env, m, name).Computed? && name !in env.features)
  }

  /** The results are exactly the requested features that are computed, each with its own denotation. */
  ghost predicate AreResults(env: Env, m: Table, entity: EntityKey, requested: seq<string>,
                             results: map<string, FeatureResult>) {
    && (forall n :: n in results <==> n in requested && Lookup(env, m, n).Computed?)
    && forall n :: n in results ==>
         n in env.features && results[n] == ResultOf(env.features, env.calcTs, entity, n, Lookup(env, m, n).comp)
  }

  lemma OneMoreResult(env: Env, m: Table, entity: EntityKey, front: seq<string>, last: string,
                      results: map<string, FeatureResult>)
    requires AreResults(env, m, entity, front, results)
    ensures RespondOne(env, m, entity, Results(results), last).Raised? <==> Breaks(env, m, last)
    ensures !Breaks(env, m, last) ==>
      AreResults(env, m, entity, front + [last], RespondOne(env, m, entity, Results(results), last).results)
  {
    hide Lookup, ResultOf;
  }

  /** A response fails exactly when some requested feature fails, and otherwise holds exactly
      the requested features that were not skipped, each with its own denotation. */
  lemma {:induction false} RespondMeans(env: Env, m: Table, entity: EntityKey, requested: seq<string>)
    ensures Respond(env, m, entity, requested).Raised? <==> exists n :: n in requested && Breaks(env, m, n)
    ensures Respond(env, m, entity, requested).Results? ==>
      AreResults(env, m, entity, requested, Respond(env, m, entity, requested).results)
  {
    if requested != [] {
      var front, last := requested[..|requested| - 1], requested[|requested| - 1];
      RespondMeans(env, m, entity, front);
      assert requested == front + [last];
      if Respond(env, m, entity, front).Results? {
        OneMoreResult(env, m, entity, front, last, Respond(env, m, entity, front).results);
      }
      hide AreResults, Breaks, Lookup;
    }
  }

  /** The order of a request, and repetitions in it, do not matter. */
  lemma RequestOrderIsIrrelevant(env: Env, m: Table, entity: EntityKey, requested: seq<string>, requested': seq<string>)
    requires forall n :: n in requested <==> n in requested'
    ensures Respond(env, m, entity, requested) == Respond(env, m, entity, requested')
         || (Respond(env, m, entity, requested).Raised? && Respond(env, m, entity, requested').Raised?)
  {
    RespondMeans(env, m, entity, requested);
    RespondMeans(env, m, entity, requested');
    if Respond(env, m, entity, requested).Results? {
      assert Respond(env, m, entity, requested).results == Respond(env, m, entity, requested').results;
    }
  }
}
