/** The staged batch: features that depend only on other features are recomputed from stored
    rows, level by level (flow.py). It stores what one online pass over the sources computes. */
module Batch {
  import opened Domain
  import opened Registry
  import opened Semantics
  import opened Engine
  import opened Graph
  import opened Pit
  import opened Dedup
  import opened Recompute

  // ---------------------------------------------------------------------------------------
  // The order of the levels
  // ---------------------------------------------------------------------------------------

  /** Every selected feature comes after the selected features it depends on. */
  ghost predicate LevelOrder(features: FeatureTable, selected: set<string>, order: seq<string>) {
    && NoDup(order)
    && (forall n :: n in order ==> n in selected && n in features)
    && forall i, dep :: 0 <= i < |order| && DependsOn(features, order[i], dep) && dep in selected ==> dep in order[..i]
  }

  /** A chain of selected features that cannot be ordered: it closes a cycle, or it ends in a
      selected name that the registry does not know. */
  ghost predicate Unorderable(features: FeatureTable, selected: set<string>, p: seq<string>) {
    && Path(features, p) && (forall n :: n in p ==> n in selected)
    && (!NoDup(p) || p[|p| - 1] !in features)
  }

  ghost predicate Orderable(features: FeatureTable, selected: set<string>) {
    forall p :: !Unorderable(features, selected, p)
  }

  class LevelSearch {
    const features: FeatureTable
    const selected: set<string>
    var ordered: seq<string>
    /** The source keeps the names being visited as a set; the ghost stack remembers their order. */
    var visiting: set<string>
    ghost var stack: seq<string>

    constructor (features: FeatureTable, selected: set<string>)
      ensures this.features == features && this.selected == selected
      ensures ordered == [] && visiting == {} && stack == []
    {
      this.features, this.selected := features, selected;
      ordered, visiting, stack := [], {}, [];
    }

    ghost predicate Valid()
      reads this
    {
      && LevelOrder(features, selected, ordered)
      && visiting == (set n | n in stack)
      && NoDup(stack) && (forall n :: n in stack ==> n in selected && n in features && n !in ordered)
      && (stack != [] ==> Path(features, stack))
    }

    method Visit(name: string) returns (ok: bool, ghost chain: seq<string>)
      requires Valid() && (stack != [] ==> DependsOn(features, stack[|stack| - 1], name))
      modifies this
      ensures stack == old(stack) && visiting == old(visiting)
      ensures ok ==> Valid() && old(ordered) <= ordered && (name in selected ==> name in ordered)
      ensures !ok ==> Unorderable(features, selected, chain)
      decreases features.Keys - visiting, 1
    {
      hide LevelOrder;
      chain := [];
      if name in ordered || name !in selected {
        return true, chain;
      }
      ghost var outer := stack;
      assert Path(features, outer + [name]);
      if name in visiting {
        ghost var i :| 0 <= i < |outer| && outer[i] == name;
        assert (outer + [name])[i] == (outer + [name])[|outer|];
        return false, outer + [name];
      }
      if name !in features {
        return false, outer + [name];
      }
      visiting, stack := visiting + {name}, stack + [name];
      ok, chain := VisitDeps(features[name].deps);
      visiting, stack := visiting - {name}, outer;
      if ok {
        LevelOrderSnoc(features, selected, ordered, name);
        ordered := ordered + [name];
      }
    }

    method VisitDeps(deps: seq<Dependency>) returns (ok: bool, ghost chain: seq<string>)
      requires Valid() && stack != [] && deps == features[stack[|stack| - 1]].deps
      modifies this
      ensures stack == old(stack) && visiting == old(visiting)
      ensures ok ==> Valid() && old(ordered) <= ordered
      ensures ok ==> forall d :: d in deps && d.feature in selected ==> d.feature in ordered
      ensures !ok ==> Unorderable(features, selected, chain)
      decreases features.Keys - visiting, 2
    {
      for i := 0 to |deps|
        invariant stack == old(stack) && visiting == old(visiting)
        invariant Valid() && old(ordered) <= ordered
        invariant forall j :: 0 <= j < i && deps[j].feature in selected ==> deps[j].feature in ordered
      {
        assert DependsOn(features, stack[|stack| - 1], deps[i].feature);
        ok, chain := Visit(deps[i].feature);
        if !ok {
          return;
        }
      }
      return true, [];
    }
  }

  lemma LevelOrderSnoc(features: FeatureTable, selected: set<string>, order: seq<string>, name: string)
    requires LevelOrder(features, selected, order) && name in selected && name in features && name !in order
    requires forall dep :: DependsOn(features, name, dep) && dep in selected ==> dep in order
    ensures LevelOrder(features, selected, order + [name])
  {
    var more := order + [name];
    forall i, dep | 0 <= i < |more| && DependsOn(features, more[i], dep) && dep in selected
      ensures dep in more[..i]
    {
      assert more[..i] == order[..i];
    }
  }

  /** A complete order leaves no chain that cannot be ordered. */
  lemma OrderedIsOrderable(features: FeatureTable, selected: set<string>, order: seq<string>)
    requires LevelOrder(features, selected, order) && forall n :: n in selected ==> n in order
    ensures Orderable(features, selected)
  {
    forall p | Path(features, p) && forall n :: n in p ==> n in selected
      ensures !Unorderable(features, selected, p)
    {
      forall i, at | 0 <= i < |p| - 1 && 0 <= at < |order| && order[at] == p[i]
        ensures p[i + 1] in order[..at]
      {
        assert DependsOn(features, order[at], p[i + 1]) && p[i + 1] in p;
      }
      assert p[0] in p && p[|p| - 1] in p;
      DescentIsSimple(order, p);
    }
  }

  /** An order exists if and only if no chain of the selected features resists ordering. */
  method F2TopologicalOrder(features: FeatureTable, names: seq<string>)
    returns (order: Option<seq<string>>, ghost chain: seq<string>)
    ensures order.Some? <==> Orderable(features, (set n | n in names))
    ensures order.Some? ==>
      && LevelOrder(features, (set n | n in names), order.value)
      && forall n :: n in names <==> n in order.value
    ensures order.None? ==> Unorderable(features, (set n | n in names), chain)
  {
    var search := new LevelSearch(features, (set n | n in names));
    for i := 0 to |names|
      invariant fresh(search) && search.features == features && search.selected == (set n | n in names)
      invariant search.Valid() && search.stack == [] && search.visiting == {}
      invariant forall j :: 0 <= j < i ==> names[j] in search.ordered
    {
      var ok;
      ok, chain := search.Visit(names[i]);
      if !ok {
        return None, chain;
      }
    }
    OrderedIsOrderable(features, (set n | n in names), search.ordered);
    return Some(search.ordered), [];
  }

  // ---------------------------------------------------------------------------------------
  // The batch as a function of the history
  // ---------------------------------------------------------------------------------------

  datatype Level = LevelRows(rows: seq<FeatureResult>, skipped: nat) | LevelRaised(error: Semantics.Error)

  function LevelStep(acc: Level, r: Recomputed): Level {
    if acc.LevelRaised? then acc
    else match r
      case Error(e) => LevelRaised(e)
      case NoRow => acc.(skipped := acc.skipped + 1)
      case Row(row) => acc.(rows := acc.rows + [row])
  }

  /** One feature for every entity, all read from the history before the level. */
  function LevelOf(features: FeatureTable, udfs: map<string, UdfBody>, view: ViewRef, keys: seq<EntityKey>,
                   name: string, h: History, calcTs: Time): Level {
    if keys == [] then LevelRows([], 0)
    else
      LevelStep(LevelOf(features, udfs, view, keys[..|keys| - 1], name, h, calcTs),
                RecomputeFrom(features, udfs, view, keys[|keys| - 1], name, h, calcTs, 0))
  }

  datatype BatchRun =
    | Ran(history: History, computed: nat, skipped: nat) | BatchRaised(history: History, error: Semantics.Error)

  ghost function BatchStep(acc: BatchRun, view: ViewRef, level: Level): BatchRun {
    if acc.BatchRaised? then acc
    else match level
      case LevelRaised(e) => BatchRaised(acc.history, e)
      case LevelRows(rows, skipped) =>
        Ran(Appended(acc.history, view, rows), acc.computed + |rows|, acc.skipped + skipped)
  }

  ghost function BatchOf(features: FeatureTable, udfs: map<string, UdfBody>, view: ViewRef, keys: seq<EntityKey>,
                         order: seq<string>, h: History, calcTs: Time): BatchRun {
    if order == [] then Ran(h, 0, 0)
    else
      var acc := BatchOf(features, udfs, view, keys, order[..|order| - 1], h, calcTs);
      BatchStep(acc, view, LevelOf(features, udfs, view, keys, order[|order| - 1], acc.history, calcTs))
  }

  method RunLevel(store: FeatureStore, keys: seq<EntityKey>, name: string, calcTs: Time) returns (level: Level)
    ensures level == LevelOf(store.core.features, store.core.udfs, store.view, keys, name, store.offline.history,
                             calcTs)
  {
    level := LevelRows([], 0);
    for i := 0 to |keys|
      invariant level == LevelOf(store.core.features, store.core.udfs, store.view, keys[..i], name,
                                 store.offline.history, calcTs)
    {
      var r := store.ComputeDependentFromOffline(keys[i], name, calcTs, 0);
      assert keys[..i + 1][..i] == keys[..i];
      level := LevelStep(level, r);
    }
    assert keys[..|keys|] == keys;
  }

  lemma {:induction false} BatchStops(features: FeatureTable, udfs: map<string, UdfBody>, view: ViewRef,
                                      keys: seq<EntityKey>,
                                      order: seq<string>, h: History, calcTs: Time, i: nat)
    requires i <= |order| && BatchOf(features, udfs, view, keys, order[..i], h, calcTs).BatchRaised?
    ensures BatchOf(features, udfs, view, keys, order, h, calcTs)
      == BatchOf(features, udfs, view, keys, order[..i], h, calcTs)
  {
    if i == |order| {
      assert order[..i] == order;
    } else {
      assert order[..|order| - 1][..i] == order[..i];
      BatchStops(features, udfs, view, keys, order[..|order| - 1], h, calcTs, i);
    }
  }

  /** One round of the level loop: an error decides the batch, rows are appended in bulk. */
  lemma BatchAdvance(features: FeatureTable, udfs: map<string, UdfBody>, view: ViewRef, keys: seq<EntityKey>,
                     order: seq<string>,
                     h0: History, calcTs: Time, i: nat, h: History, computed: nat, skipped: nat)
    requires i < |order| && BatchOf(features, udfs, view, keys, order[..i], h0, calcTs) == Ran(h, computed, skipped)
    ensures var level := LevelOf(features, udfs, view, keys, order[i], h, calcTs);
      && (level.LevelRaised? ==> BatchOf(features, udfs, view, keys, order, h0, calcTs) == BatchRaised(h, level.error))
      && (level.LevelRows? ==>
            BatchOf(features, udfs, view, keys, order[..i + 1], h0, calcTs) ==
            Ran(Appended(h, view, level.rows), computed + |level.rows|, skipped + level.skipped))
  {
    assert order[..i + 1][..i] == order[..i];
    if BatchOf(features, udfs, view, keys, order[..i + 1], h0, calcTs).BatchRaised? {
      BatchStops(features, udfs, view, keys, order, h0, calcTs, i + 1);
    }
  }

  /** The levels in order; each one is appended in bulk before the next one reads. */
  method RunLevels(store: FeatureStore, keys: seq<EntityKey>, order: seq<string>, calcTs: Time)
    returns (computed: nat, skipped: nat, error: Option<Semantics.Error>)
    modifies store.offline
    ensures BatchOf(store.core.features, store.core.udfs, store.view, keys, order, old(store.offline.history), calcTs)
         == if error.Some? then BatchRaised(store.offline.history, error.value)
           else Ran(store.offline.history, computed, skipped)
  {
    computed, skipped, error := 0, 0, None;
    ghost var h0 := store.offline.history;
    var features, udfs, view := store.core.features, store.core.udfs, store.view;
    assert BatchOf(features, udfs, view, keys, order[..0], h0, calcTs) == Ran(h0, 0, 0);
    hide BatchOf, LevelOf, NewResults;
    for i := 0 to |order|
      invariant BatchOf(features, udfs, view, keys, order[..i], h0, calcTs)
        == Ran(store.offline.history, computed, skipped)
    {
      BatchAdvance(features, udfs, view, keys, order, h0, calcTs, i, store.offline.history, computed, skipped);
      var level := RunLevel(store, keys, order[i], calcTs);
      if level.LevelRaised? {
        return computed, skipped, Some(level.error);
      }
      var kept, duplicates := PartitionNewResults(store.offline, view, level.rows);
      store.offline.AppendMany(view, kept);
      computed, skipped := computed + |level.rows|, skipped + level.skipped;
    }
    assert order[..|order|] == order;
  }

  /** Order the features, then run the levels. */
  method RunF2Batch(store: FeatureStore, keys: seq<EntityKey>, names: seq<string>, calcTs: Time)
    returns (order: Option<seq<string>>, computed: nat, skipped: nat, error: Option<Semantics.Error>)
    modifies store.offline
    ensures order.Some? <==> Orderable(store.core.features, (set n | n in names))
    ensures order.None? ==> store.offline.history == old(store.offline.history)
    ensures order.Some? ==>
      && LevelOrder(store.core.features, (set n | n in names), order.value)
      && (forall n :: n in names <==> n in order.value)
      && BatchOf(store.core.features, store.core.udfs, store.view, keys, order.value, old(store.offline.history),
                 calcTs)
         == if error.Some? then BatchRaised(store.offline.history, error.value)
           else Ran(store.offline.history, computed, skipped)
  {
    computed, skipped, error := 0, 0, None;
    ghost var chain;
    order, chain := F2TopologicalOrder(store.core.features, names);
    if order.Some? {
      computed, skipped, error := RunLevels(store, keys, order.value, calcTs);
    }
  }

  // ---------------------------------------------------------------------------------------
  // What a batch leaves, level by level
  // ---------------------------------------------------------------------------------------

  /** What every level reads from and writes to. */
  datatype Plan = Plan(features: FeatureTable, udfs: map<string, UdfBody>, view: ViewRef, keys: seq<EntityKey>,
                       calcTs: Time)

  function Step(p: Plan, name: string, h: History, i: nat): Recomputed
    requires i < |p.keys|
  {
    RecomputeFrom(p.features, p.udfs, p.view, p.keys[i], name, h, p.calcTs, 0)
  }

  /** The rows of a level: those of the entities at the positions `at`, in their order; the other
      entities have none, and none is an error. */
  ghost predicate IsLevel(p: Plan, name: string, h: History, n: nat, at: seq<nat>, rows: seq<FeatureResult>)
    requires n <= |p.keys|
  {
    && |rows| == |at| && Increasing(at)
    && (forall i: nat :: i in at <==> i < n && Step(p, name, h, i).Row?)
    && (forall i: nat :: i < n ==> !Step(p, name, h, i).Error?)
    && forall k :: 0 <= k < |at| ==> at[k] < n && Step(p, name, h, at[k]) == Row(rows[k])
  }

  /** The first entity whose recompute is an error decides. */
  ghost predicate IsFirstError(p: Plan, name: string, h: History, i: nat, e: Semantics.Error) {
    && i < |p.keys| && Step(p, name, h, i) == Error(e)
    && forall j: nat :: j < i ==> !Step(p, name, h, j).Error?
  }

  ghost predicate LevelSays(p: Plan, name: string, h: History, n: nat, at: seq<nat>, level: Level)
    requires n <= |p.keys|
  {
    match level
    case LevelRows(rows, skipped) => IsLevel(p, name, h, n, at, rows) && skipped == n - |rows|
    case LevelRaised(e) => exists i: nat :: i < n && IsFirstError(p, name, h, i, e)
  }

  lemma LevelSaysSnoc(p: Plan, name: string, h: History, n: nat, at: seq<nat>, before: Level)
    requires n < |p.keys| && LevelSays(p, name, h, n, at, before)
    ensures LevelSays(p, name, h, n + 1, if before.LevelRows? && Step(p, name, h, n).Row? then at + [n] else at,
                      LevelStep(before, Step(p, name, h, n)))
  {
    hide Step;
    if before.LevelRows? {
      assert forall k :: 0 <= k < |at| ==> at[k] in at;
      if Step(p, name, h, n).Error? {
        assert IsFirstError(p, name, h, n, Step(p, name, h, n).error);
      }
    }
  }

  lemma {:induction false} LevelMeans(p: Plan, name: string, h: History, n: nat) returns (at: seq<nat>)
    requires n <= |p.keys|
    ensures LevelSays(p, name, h, n, at, LevelOf(p.features, p.udfs, p.view, p.keys[..n], name, h, p.calcTs))
  {
    at := [];
    if n > 0 {
      assert p.keys[..n][..n - 1] == p.keys[..n - 1];
      var before := LevelMeans(p, name, h, n - 1);
      var level := LevelOf(p.features, p.udfs, p.view, p.keys[..n - 1], name, h, p.calcTs);
      LevelSaysSnoc(p, name, h, n - 1, before, level);
      at := if level.LevelRows? && Step(p, name, h, n - 1).Row? then before + [n - 1] else before;
      hide LevelSays, RecomputeFrom;
    }
  }

  /** The number of rows of the first levels. */
  function Total(rows: seq<seq<FeatureResult>>): nat {
    if rows == [] then 0 else Total(rows[..|rows| - 1]) + |rows[|rows| - 1]|
  }

  /** The levels that were completed: each one reads the history that the one before has left, and
      leaves its own rows appended to it. */
  ghost predicate AreLevels(p: Plan, order: seq<string>, h: History, rows: seq<seq<FeatureResult>>,
                            after: seq<History>) {
    && |after| == |rows| + 1 <= |order| + 1 && after[0] == h
    && forall i :: 0 <= i < |rows| ==>
         HasRows(p, order[i], after[i], rows[i]) && after[i + 1] == Appended(after[i], p.view, rows[i])
  }

  ghost predicate HasRows(p: Plan, name: string, h: History, rows: seq<FeatureResult>) {
    exists at :: IsLevel(p, name, h, |p.keys|, at, rows)
  }

  lemma AreLevelsSnoc(p: Plan, front: seq<string>, last: string, h: History, rows: seq<seq<FeatureResult>>,
                      after: seq<History>, more: seq<FeatureResult>)
    requires AreLevels(p, front, h, rows, after)
    ensures AreLevels(p, front + [last], h, rows, after)
    ensures |rows| == |front| && HasRows(p, last, after[|rows|], more) ==>
      AreLevels(p, front + [last], h, rows + [more], after + [Appended(after[|rows|], p.view, more)])
  {
    hide HasRows, Appended;
    var order := front + [last];
    assert order[|front|] == last && forall i :: 0 <= i < |front| ==> order[i] == front[i];
    assert forall i :: 0 <= i < |rows| ==> (rows + [more])[i] == rows[i];
  }

  /** What a batch leaves: all levels, with every entity of every level counted; or the levels before
      the first one in which the recompute of some entity is an error. */
  ghost predicate BatchSays(p: Plan, order: seq<string>, rows: seq<seq<FeatureResult>>, after: seq<History>,
                            run: BatchRun)
    requires |after| == |rows| + 1
  {
    match run
    case Ran(history, computed, skipped) =>
      && |rows| == |order| && history == after[|rows|]
      && computed == Total(rows) && computed + skipped == |order| * |p.keys|
    case BatchRaised(history, e) =>
      && |rows| < |order| && history == after[|rows|]
      && exists i: nat :: IsFirstError(p, order[|rows|], after[|rows|], i, e)
  }

  lemma {:induction false} BatchMeans(p: Plan, order: seq<string>, h: History)
    returns (rows: seq<seq<FeatureResult>>, after: seq<History>)
    ensures AreLevels(p, order, h, rows, after)
    ensures BatchSays(p, order, rows, after, BatchOf(p.features, p.udfs, p.view, p.keys, order, h, p.calcTs))
  {
    rows, after := [], [h];
    if order != [] {
      var front, last := order[..|order| - 1], order[|order| - 1];
      assert order == front + [last];
      rows, after := BatchMeans(p, front, h);
      rows, after := LastLevelMeans(p, front, last, h, rows, after);
    }
  }

  lemma AreLevelsLength(p: Plan, order: seq<string>, h: History, rows: seq<seq<FeatureResult>>, after: seq<History>)
    requires AreLevels(p, order, h, rows, after)
    ensures |after| == |rows| + 1 <= |order| + 1
  {
  }

  lemma LevelCounts(p: Plan, name: string, h: History, at: seq<nat>, level: Level)
    requires LevelSays(p, name, h, |p.keys|, at, level)
    ensures level.LevelRows? ==> HasRows(p, name, h, level.rows) && |level.rows| + level.skipped == |p.keys|
    ensures level.LevelRaised? ==> exists i: nat :: IsFirstError(p, name, h, i, level.error)
  {
  }

  /** A level that completes the ones before it. */
  lemma LevelCompletes(p: Plan, front: seq<string>, last: string, rows: seq<seq<FeatureResult>>, after: seq<History>,
                       before: BatchRun, level: Level)
    requires |after| == |rows| + 1 && BatchSays(p, front, rows, after, before)
    requires before.Ran? && level.LevelRows? && |level.rows| + level.skipped == |p.keys|
    ensures BatchSays(p, front + [last], rows + [level.rows], after + [Appended(after[|rows|], p.view, level.rows)],
                      BatchStep(before, p.view, level))
  {
    hide Appended;
    var all := rows + [level.rows];
    assert all[..|rows|] == rows && all[|rows|] == level.rows;
    assert (|front| + 1) * |p.keys| == |front| * |p.keys| + |p.keys|;
  }

  /** An error, in it or before it. */
  lemma LevelStops(p: Plan, front: seq<string>, last: string, rows: seq<seq<FeatureResult>>, after: seq<History>,
                   before: BatchRun, level: Level)
    requires |after| == |rows| + 1 && BatchSays(p, front, rows, after, before)
    requires level.LevelRaised? ==> exists i: nat :: IsFirstError(p, last, before.history, i, level.error)
    requires before.BatchRaised? || level.LevelRaised?
    ensures BatchSays(p, front + [last], rows, after, BatchStep(before, p.view, level))
  {
    hide Appended, IsFirstError;
    assert (front + [last])[|front|] == last && forall i :: 0 <= i < |front| ==> (front + [last])[i] == front[i];
  }

  lemma LastLevelMeans(p: Plan, front: seq<string>, last: string, h: History, rows: seq<seq<FeatureResult>>,
                       after: seq<History>)
    returns (rows': seq<seq<FeatureResult>>, after': seq<History>)
    requires AreLevels(p, front, h, rows, after)
    requires BatchSays(p, front, rows, after, BatchOf(p.features, p.udfs, p.view, p.keys, front, h, p.calcTs))
    ensures AreLevels(p, front + [last], h, rows', after')
    ensures BatchSays(p, front + [last], rows', after',
                      BatchOf(p.features, p.udfs, p.view, p.keys, front + [last], h, p.calcTs))
  {
    assert (front + [last])[..|front|] == front && p.keys[..|p.keys|] == p.keys;
    AreLevelsLength(p, front, h, rows, after);
    var before := BatchOf(p.features, p.udfs, p.view, p.keys, front, h, p.calcTs);
    var level := LevelOf(p.features, p.udfs, p.view, p.keys, last, before.history, p.calcTs);
    assert BatchOf(p.features, p.udfs, p.view, p.keys, front + [last], h, p.calcTs) == BatchStep(before, p.view, level);
    assert before.Ran? ==> |rows| == |front| && before.history == after[|rows|];
    hide LevelOf, LevelSays, BatchOf, AreLevels, BatchSays, BatchStep, Appended, HasRows, IsFirstError;
    var at := LevelMeans(p, last, before.history, |p.keys|);
    LevelCounts(p, last, before.history, at, level);
    AreLevelsSnoc(p, front, last, h, rows, after, if level.LevelRows? then level.rows else []);
    rows', after' := rows, after;
    if before.Ran? && level.LevelRows? {
      LevelCompletes(p, front, last, rows, after, before, level);
      rows', after' := rows + [level.rows], after + [Appended(after[|rows|], p.view, level.rows)];
    } else {
      LevelStops(p, front, last, rows, after, before, level);
    }
  }

  // ---------------------------------------------------------------------------------------
  // Batch equals online
  // ---------------------------------------------------------------------------------------

  /** One recursive pass over the sources of one entity, with the meanings it computes. */
  datatype Pass = Pass(env: Env, m: Table)

  ghost predicate ValidPass(pass: Pass) {
    pass.env.given == map[] && Solution(pass.env, pass.m)
  }

  /** The row that the online pass produces for a feature, if any. */
  ghost function OnlineRow(pass: Pass, entity: EntityKey, name: string): Option<FeatureResult>
    requires name in pass.env.features
  {
    match Lookup(pass.env, pass.m, name)
    case Computed(c) => Some(ResultOf(pass.env.features, pass.env.calcTs, entity, name, c))
    case _ => None
  }

  /** The history shows, at the computation time, exactly the online row of the feature. */
  ghost predicate Mirrors(pass: Pass, view: ViewRef, h: History, entity: EntityKey, name: string)
    requires name in pass.env.features
  {
    PitRecord(h, Query(entity, name, pass.env.features[name].version, view), pass.env.calcTs, 0) ==
      match OnlineRow(pass, entity, name)
      case Some(r) => Some(Record(view, r))
      case None => None
  }

  /** A feature that the staged batch can recompute: it reads features only, through edges whose
      pins are the registry's versions, and no dependency raises. */
  ghost predicate Stageable(pass: Pass, name: string) {
    && name in pass.env.features
    && var f := pass.env.features[name];
    && f.inputs == [] && !HasEdge(f.deps, name)
    && forall d :: d in f.deps ==>
         && d.feature in pass.env.features
         && ResolvedVersion(d, pass.env.features[d.feature]) == pass.env.features[d.feature].version
         && !Lookup(pass.env, pass.m, d.feature).Failed?
  }

  ghost predicate AllDepsComputed(pass: Pass, deps: seq<Dependency>) {
    forall d :: d in deps ==> Lookup(pass.env, pass.m, d.feature).Computed?
  }

  lemma {:induction false} PrefillMirrors(pass: Pass, view: ViewRef, entity: EntityKey, deps: seq<Dependency>,
                                          h: History)
    requires pass.env.given == map[]
    requires forall d :: d in deps ==>
      && d.feature in pass.env.features && Mirrors(pass, view, h, entity, d.feature)
      && ResolvedVersion(d, pass.env.features[d.feature]) == pass.env.features[d.feature].version
    ensures var p := PrefillDeps(pass.env.features, view, entity, deps, h, pass.env.calcTs, 0);
      && (!AllDepsComputed(pass, deps) ==> p == MissingInput)
      && (AllDepsComputed(pass, deps) ==>
            && p.Filled? && (forall d :: d in p.given <==> HasEdge(deps, d))
            && forall d :: d in p.given ==>
                 p.given[d] == Lookup(pass.env, pass.m, d).comp.(degraded := false))
  {
    if deps != [] {
      var front, last := deps[..|deps| - 1], deps[|deps| - 1];
      assert deps == front + [last];
      PrefillMirrors(pass, view, entity, front, h);
      assert AllDepsComputed(pass, deps) <==>
        AllDepsComputed(pass, front) && Lookup(pass.env, pass.m, last.feature).Computed?;
    }
  }

  /** Two dependency passes that differ in degradation marks only. */
  ghost predicate SameButMarks(a: DepsOutcome, b: DepsOutcome) {
    && (a.DepsSkip? <==> b.DepsSkip?) && (a.DepsFailed? <==> b.DepsFailed?)
    && (a.DepsReady? ==>
          && a.order == b.order && a.comps.Keys == b.comps.Keys
          && forall d :: d in a.comps ==> a.comps[d].(degraded := false) == b.comps[d].(degraded := false))
  }

  lemma {:induction false} DepsMirror(pass: Pass, given: map<string, Computation>, deps: seq<Dependency>)
    requires forall d :: d in deps ==>
      && d.feature in given && Lookup(pass.env, pass.m, d.feature).Computed?
      && given[d.feature] == Lookup(pass.env, pass.m, d.feature).comp.(degraded := false)
    ensures SameButMarks(EvalDeps(pass.env, pass.m, deps), DepsFrom(given, deps, pass.env.calcTs))
  {
    if deps != [] {
      DepsMirror(pass, given, deps[..|deps| - 1]);
    }
  }

  /** Degradation marks do not reach the value or its metadata. */
  lemma MarksDoNotMatter(env: Env, env': Env, f: FeatureDef, a: DepsOutcome, b: DepsOutcome)
    requires env.features == env'.features && env.udfs == env'.udfs && f.inputs == []
    requires SameButMarks(a, b) && !a.DepsFailed?
    requires a.DepsReady? ==> forall d :: d in a.order ==> d in a.comps
    ensures match Assemble(env, f, a)
            case Failed(e) => Assemble(env', f, b) == Failed(e)
            case Skipped => Assemble(env', f, b) == Skipped
            case Computed(c) =>
              Assemble(env', f, b).Computed? && Assemble(env', f, b).comp.(degraded := false) == c.(degraded := false)
  {
    if a.DepsReady? {
      assert ValuesOf(a.comps) == ValuesOf(b.comps);
      assert Payloads(env, f) == Payloads(env', f) == map[];
      if forall d :: d in a.order ==> d in env.features {
        assert Facts(env, f, a.order, a.comps) == Facts(env', f, b.order, b.comps) by {
          forall d | d in a.order
            ensures DepFact(env.features, a.comps, d) == DepFact(env.features, b.comps, d)
          {
            assert a.comps[d].(degraded := false) == b.comps[d].(degraded := false);
          }
        }
      }
    }
  }

  /** One staged recompute against one online pass. When every dependency has an online row the
      staged result is the online one; when some dependency was skipped, nothing is staged. */
  lemma StagedStep(pass: Pass, view: ViewRef, entity: EntityKey, name: string, h: History)
    requires ValidPass(pass) && Stageable(pass, name)
    requires forall d :: d in pass.env.features[name].deps ==> Mirrors(pass, view, h, entity, d.feature)
    ensures var staged := RecomputeFrom(pass.env.features, pass.env.udfs, view, entity, name, h, pass.env.calcTs, 0);
      if AllDepsComputed(pass, pass.env.features[name].deps) then
        match Lookup(pass.env, pass.m, name)
        case Failed(e) => staged == Error(e)
        case Skipped => staged == NoRow
        case Computed(c) => staged == Row(ResultOf(pass.env.features, pass.env.calcTs, entity, name, c))
      else staged == NoRow
  {
    var env := pass.env;
    var f := env.features[name];
    PrefillMirrors(pass, view, entity, f.deps, h);
    if AllDepsComputed(pass, f.deps) {
      var given := PrefillDeps(env.features, view, entity, f.deps, h, env.calcTs, 0).given;
      var wave := WaveEnv(env.features, env.udfs, env.calcTs, given);
      DepsMirror(pass, given, f.deps);
      RecomputeIsOneEvaluation(wave, entity, name);
      assert Wanted(name);
      MarksDoNotMatter(env, wave, f, EvalDeps(env, pass.m, f.deps), DepsFrom(given, f.deps, env.calcTs));
    }
  }

  /** A required edge whose input is missing or too old. */
  predicate CutsOff(env: Env, m: Table, d: Dependency) {
    var o := Lookup(env, m, d.feature);
    d.required && (o.Skipped? || (o.Computed? && EdgeIsStale(d, o.comp.dataTs, env.calcTs)))
  }

  ghost predicate SomeCutsOff(pass: Pass, deps: seq<Dependency>) {
    exists d :: d in deps && CutsOff(pass.env, pass.m, d)
  }

  /** The dependency pass skips exactly if some edge cuts the feature off. */
  lemma {:induction false} DepsSkipIff(pass: Pass, deps: seq<Dependency>)
    requires forall d :: d in deps ==> !Lookup(pass.env, pass.m, d.feature).Failed?
    ensures !EvalDeps(pass.env, pass.m, deps).DepsFailed?
    ensures EvalDeps(pass.env, pass.m, deps).DepsSkip? <==> SomeCutsOff(pass, deps)
  {
    if deps != [] {
      var front, last := deps[..|deps| - 1], deps[|deps| - 1];
      assert deps == front + [last];
      DepsSkipIff(pass, front);
      assert SomeCutsOff(pass, deps) <==> SomeCutsOff(pass, front) || CutsOff(pass.env, pass.m, last);
    }
  }

  lemma SkippedIff(pass: Pass, name: string)
    requires ValidPass(pass) && Stageable(pass, name)
    ensures Lookup(pass.env, pass.m, name).Skipped? <==> SomeCutsOff(pass, pass.env.features[name].deps)
  {
    assert Wanted(name);
    DepsSkipIff(pass, pass.env.features[name].deps);
  }

  /** What the online pass makes of a feature, as the answer of a recompute. */
  ghost function OnlineAnswer(pass: Pass, entity: EntityKey, name: string): Recomputed
    requires name in pass.env.features
  {
    match Lookup(pass.env, pass.m, name)
    case Failed(e) => Error(e)
    case Skipped => NoRow
    case Computed(c) => Row(ResultOf(pass.env.features, pass.env.calcTs, entity, name, c))
  }

  /** The staged result is the online one exactly when every dependency has a row, or some required
      one is missing or too old. Otherwise a missing optional dependency tells them apart. */
  lemma StagedEqualsOnlineIff(pass: Pass, view: ViewRef, entity: EntityKey, name: string, h: History)
    requires ValidPass(pass) && Stageable(pass, name)
    requires forall d :: d in pass.env.features[name].deps ==> Mirrors(pass, view, h, entity, d.feature)
    ensures RecomputeFrom(pass.env.features, pass.env.udfs, view, entity, name, h, pass.env.calcTs, 0)
         == OnlineAnswer(pass, entity, name)
      <==> AllDepsComputed(pass, pass.env.features[name].deps) || SomeCutsOff(pass, pass.env.features[name].deps)
  {
    StagedStep(pass, view, entity, name, h);
    SkippedIff(pass, name);
  }

  // A registry in which they differ: `total` needs `base` and would like `recent`, which needs a
  // `base` that is not older than the computation.

  const BASE := FeatureDef("base", Udf, 1, "u", Live, ["report"], [])
  const RECENT := FeatureDef("recent", Udf, 1, "u", Live, [], [Dependency("base", None, true, Some(0), Lazy)])
  const TOTAL := FeatureDef("total", Udf, 1, "u", Live, [],
                            [Dependency("base", None, true, None, Lazy), Dependency("recent", None, false, None, Lazy)])

  function OneValue(payloads: map<string, Value>, values: map<string, Value>): Option<Value> { Some(Value("1")) }

  function OneReport(source: string): Option<Value> { if source == "report" then Some(Value("1")) else None }

  function OptionalInputEnv(): Env {
    Env(map["base" := BASE, "recent" := RECENT, "total" := TOTAL], map["u" := OneValue], OneReport,
        map["report" := SourceStamp(0, ContentHash("1"), None, None)], 1, map[])
  }

  lemma BaseIsComputed(m: Table)
    requires Solution(OptionalInputEnv(), m)
    ensures var o := Lookup(OptionalInputEnv(), m, "base");
      o.Computed? && o.comp.dataTs == 0 && o.comp.availableAt == None
  {
    var env := OptionalInputEnv();
    assert Wanted("base");
    assert EvalDeps(env, m, BASE.deps) == NO_DEPS;
    assert |Facts(env, BASE, [], map[])| == 1;
  }

  lemma RecentIsSkipped(m: Table)
    requires Solution(OptionalInputEnv(), m)
    ensures Lookup(OptionalInputEnv(), m, "recent").Skipped?
  {
    var env := OptionalInputEnv();
    BaseIsComputed(m);
    hide Facts, Summarise;
    assert Wanted("recent");
    assert RECENT.deps[..0] == [];
    assert EvalDeps(env, m, RECENT.deps) == DepsSkip;
  }

  lemma TotalIsComputed(m: Table)
    requires Solution(OptionalInputEnv(), m)
    ensures Lookup(OptionalInputEnv(), m, "total").Computed?
  {
    var env := OptionalInputEnv();
    BaseIsComputed(m);
    RecentIsSkipped(m);
    assert Wanted("total");
    var first := TOTAL.deps[..1];
    assert first == [TOTAL.deps[0]] && first[..0] == [];
    assert EvalDeps(env, m, first) == AddDep(NO_DEPS, TOTAL.deps[0], Lookup(env, m, "base"), 1);
    assert EvalDeps(env, m, TOTAL.deps) == EvalDeps(env, m, first).(degraded := true);
  }

  lemma TotalIsStageable(pass: Pass)
    requires pass.env == OptionalInputEnv() && !Lookup(pass.env, pass.m, "base").Failed? &&
      !Lookup(pass.env, pass.m, "recent").Failed?
    ensures Stageable(pass, "total")
  {
    hide Lookup;
    assert !HasEdge(TOTAL.deps, "total");
  }

  /** The feature is computed online, degraded, and not at all from the rows of the same pass. */
  lemma OptionalInputTellsThemApart(view: ViewRef, entity: EntityKey) returns (pass: Pass, h: History)
    ensures ValidPass(pass) && Stageable(pass, "total")
    ensures forall d :: d in pass.env.features["total"].deps ==> Mirrors(pass, view, h, entity, d.feature)
    ensures Lookup(pass.env, pass.m, "total").Computed?
    ensures RecomputeFrom(pass.env.features, pass.env.udfs, view, entity, "total", h, pass.env.calcTs, 0) == NoRow
  {
    hide Meaning, EvalFeature, Lookup, Solution, RecomputeFrom;
    var env := OptionalInputEnv();
    var m := Meaning(env);
    MeaningIsSolution(env);
    BaseIsComputed(m);
    RecentIsSkipped(m);
    TotalIsComputed(m);
    pass := Pass(env, m);
    TotalIsStageable(pass);
    hide Stageable;
    var row := ResultOf(env.features, 1, entity, "base", Lookup(env, m, "base").comp);
    var rec := Record(view, row);
    h := [rec];
    OneRow(Query(entity, "base", 1, view), rec, 1);
    OneRow(Query(entity, "recent", 1, view), rec, 1);
    assert Mirrors(pass, view, h, entity, "base") && Mirrors(pass, view, h, entity, "recent");
    assert TOTAL.deps[1] in TOTAL.deps;
    StagedStep(pass, view, entity, "total", h);
  }

  lemma OneRow(q: Query, rec: Record, t: Time)
    ensures PitRecord([rec], q, t, 0) == if Candidate(q, rec, t, 0) then Some(rec) else None
  {
    assert [rec][..0] == [];
    assert PitIndex([], q, t, 0) == None;
  }

  // ---------------------------------------------------------------------------------------
  // The whole batch
  // ---------------------------------------------------------------------------------------

  /** One online pass per entity, all with the registry, user functions and clock of the batch. */
  ghost predicate Passes(passes: map<EntityKey, Pass>, keys: seq<EntityKey>,
                         features: FeatureTable, udfs: map<string, UdfBody>, calcTs: Time) {
    forall e :: e in keys ==>
      && e in passes && ValidPass(passes[e])
      && passes[e].env.features == features && passes[e].env.udfs == udfs && passes[e].env.calcTs == calcTs
  }

  /** The staged batch cannot tell this feature from the online pass of any entity. */
  ghost predicate Covered(passes: map<EntityKey, Pass>, keys: seq<EntityKey>, name: string)
    requires forall e :: e in keys ==> e in passes
  {
    forall e :: e in keys ==>
      && Stageable(passes[e], name)
      && !Lookup(passes[e].env, passes[e].m, name).Failed?
      && (AllDepsComputed(passes[e], passes[e].env.features[name].deps) ||
          SomeCutsOff(passes[e], passes[e].env.features[name].deps))
  }

  ghost predicate AllMirror(passes: map<EntityKey, Pass>, keys: seq<EntityKey>, view: ViewRef, h: History, name: string)
    requires forall e :: e in keys ==> e in passes && name in passes[e].env.features
  {
    forall e :: e in keys ==> Mirrors(passes[e], view, h, e, name)
  }

  ghost predicate Absent(keys: seq<EntityKey>, h: History, name: string) {
    forall rec :: rec in h && rec.result.entity in keys ==> rec.result.ref.name != name
  }

  lemma {:induction false} LevelIsOnline(passes: map<EntityKey, Pass>, keys: seq<EntityKey>, features: FeatureTable,
                                         udfs: map<string, UdfBody>, calcTs: Time, view: ViewRef, h: History,
                                         name: string)
    requires Passes(passes, keys, features, udfs, calcTs) && name in features && Covered(passes, keys, name)
    requires forall d :: d in features[name].deps ==>
      d.feature in features && AllMirror(passes, keys, view, h, d.feature)
    ensures var level := LevelOf(features, udfs, view, keys, name, h, calcTs);
      && level.LevelRows? && |level.rows| + level.skipped == |keys|
      && forall r :: r in level.rows <==> exists e :: e in keys && OnlineRow(passes[e], e, name) == Some(r)
  {
    if keys != [] {
      var front, last := keys[..|keys| - 1], keys[|keys| - 1];
      assert keys == front + [last];
      LevelIsOnline(passes, front, features, udfs, calcTs, view, h, name);
      CoveredIsStaged(passes[last], view, last, name, h);
    }
  }

  lemma CoveredIsStaged(pass: Pass, view: ViewRef, entity: EntityKey, name: string, h: History)
    requires ValidPass(pass) && Stageable(pass, name) && !Lookup(pass.env, pass.m, name).Failed?
    requires AllDepsComputed(pass, pass.env.features[name].deps) || SomeCutsOff(pass, pass.env.features[name].deps)
    requires forall d :: d in pass.env.features[name].deps ==> Mirrors(pass, view, h, entity, d.feature)
    ensures RecomputeFrom(pass.env.features, pass.env.udfs, view, entity, name, h, pass.env.calcTs, 0) ==
      match OnlineRow(pass, entity, name)
      case Some(r) => Row(r)
      case None => NoRow
  {
    StagedEqualsOnlineIff(pass, view, entity, name, h);
  }

  lemma OnlineRowIsEligible(pass: Pass, view: ViewRef, h: History, entity: EntityKey, name: string)
    requires ValidPass(pass) && Stageable(pass, name)
    requires AllDepsComputed(pass, pass.env.features[name].deps) || SomeCutsOff(pass, pass.env.features[name].deps)
    requires forall d :: d in pass.env.features[name].deps ==> Mirrors(pass, view, h, entity, d.feature)
    requires OnlineRow(pass, entity, name).Some?
    ensures Eligible(OnlineRow(pass, entity, name).value, pass.env.calcTs, 0)
  {
    CoveredIsStaged(pass, view, entity, name, h);
    RowIsEligible(pass.env.features, pass.env.udfs, view, entity, name, h, pass.env.calcTs, 0);
  }

  /** After its bulk append, a level mirrors the online pass. */
  lemma LevelMirrors(passes: map<EntityKey, Pass>, keys: seq<EntityKey>, features: FeatureTable,
                     udfs: map<string, UdfBody>, calcTs: Time, view: ViewRef, h: History, name: string,
                     entity: EntityKey)
    requires Passes(passes, keys, features, udfs, calcTs) && name in features && Covered(passes, keys, name)
    requires forall d :: d in features[name].deps ==>
      d.feature in features && AllMirror(passes, keys, view, h, d.feature)
    requires Absent(keys, h, name) && entity in keys
    ensures var level := LevelOf(features, udfs, view, keys, name, h, calcTs);
      level.LevelRows? && Mirrors(passes[entity], view, Appended(h, view, level.rows), entity, name)
  {
    hide AllDepsComputed, SomeCutsOff, LevelOf;
    LevelIsOnline(passes, keys, features, udfs, calcTs, view, h, name);
    var rows := LevelOf(features, udfs, view, keys, name, h, calcTs).rows;
    var q := Query(entity, name, features[name].version, view);
    var after := Appended(h, view, rows);
    KeptComesFromCall(h, view, rows);
    forall rec | rec in after && Matches(q, rec)
      ensures OnlineRow(passes[entity], entity, name) == Some(rec.result) && rec.view == view
    {
      assert rec !in h;
      assert rec in Records(view, NewResults(h, view, rows));
      assert rec.result in rows;
    }
    PitIndexSelects(after, q, calcTs, 0);
    if OnlineRow(passes[entity], entity, name).Some? {
      var r := OnlineRow(passes[entity], entity, name).value;
      assert r in rows;
      AppendRepresentsAll(h, view, rows, r);
      var rec :| rec in after && Matches(QueryFor(view, r), rec) && SameState(rec.result, r);
      assert Matches(q, rec);
      OnlineRowIsEligible(passes[entity], view, h, entity, name);
      var j :| 0 <= j < |after| && after[j] == rec;
      assert Candidate(q, after[j], calcTs, 0);
    }
  }

  lemma OtherFeaturesUnchanged(pass: Pass, view: ViewRef, h: History, rows: seq<FeatureResult>, entity: EntityKey,
                               name: string)
    requires name in pass.env.features && Mirrors(pass, view, h, entity, name)
    requires forall r :: r in rows ==> r.ref.name != name
    ensures Mirrors(pass, view, Appended(h, view, rows), entity, name)
  {
    KeptComesFromCall(h, view, rows);
    OtherRowsAreInvisible(h, Records(view, NewResults(h, view, rows)),
                          Query(entity, name, pass.env.features[name].version, view), pass.env.calcTs, 0);
  }

  /** Batch equals online. Start from a history that shows, for every entity, exactly the online
      rows of the features that the batch reads from outside, and none of its own. After the
      batch the history shows exactly the online row of every feature of the batch, for every
      entity: the same value, freshness, fingerprint and availability. */
  lemma {:induction false} BatchEqualsOnline(
      passes: map<EntityKey, Pass>, keys: seq<EntityKey>, features: FeatureTable, udfs: map<string, UdfBody>,
      calcTs: Time, view: ViewRef, h: History, selected: set<string>, order: seq<string>)
    requires Passes(passes, keys, features, udfs, calcTs)
    requires LevelOrder(features, selected, order) && forall n :: n in selected ==> n in features
    requires forall n :: n in order ==> Covered(passes, keys, n) && Absent(keys, h, n)
    requires keys != [] ==> forall n, dep :: n in order && DependsOn(features, n, dep) && dep !in selected ==>
      dep in features && AllMirror(passes, keys, view, h, dep)
    ensures var run := BatchOf(features, udfs, view, keys, order, h, calcTs);
      && run.Ran?
      && run.computed + run.skipped == |order| * |keys|
      && (forall n :: n in order ==> AllMirror(passes, keys, view, run.history, n))
      && (forall n :: n in features && n !in order && AllMirror(passes, keys, view, h, n) ==>
            AllMirror(passes, keys, view, run.history, n))
      && (forall n :: n !in order && Absent(keys, h, n) ==> Absent(keys, run.history, n))
  {
    hide LevelOf, NewResults, Absent, ValidPass;
    if order != [] {
      var i, name := |order| - 1, order[|order| - 1];
      var front := order[..i];
      assert order == front + [name];
      FrontOrder(features, selected, order);
      BatchEqualsOnline(passes, keys, features, udfs, calcTs, view, h, selected, front);
      var before := BatchOf(features, udfs, view, keys, front, h, calcTs).history;
      forall d | d in features[name].deps && keys != []
        ensures d.feature in features && AllMirror(passes, keys, view, before, d.feature)
      {
        assert DependsOn(features, name, d.feature);
      }
      NextLevel(passes, keys, features, udfs, calcTs, view, before, name);
      Product(|front|, |keys|);
    }
  }

  lemma Product(a: nat, b: nat)
    ensures (a + 1) * b == a * b + b
  {
  }

  lemma FrontOrder(features: FeatureTable, selected: set<string>, order: seq<string>)
    requires LevelOrder(features, selected, order) && order != []
    ensures LevelOrder(features, selected, order[..|order| - 1])
    ensures forall n :: n in order[..|order| - 1] ==> n in order && n != order[|order| - 1]
  {
    var front := order[..|order| - 1];
    forall i, dep | 0 <= i < |front| && DependsOn(features, front[i], dep) && dep in selected
      ensures dep in front[..i]
    {
      assert order[i] == front[i] && order[..i] == front[..i];
    }
  }

  lemma NextLevel(passes: map<EntityKey, Pass>, keys: seq<EntityKey>, features: FeatureTable,
                  udfs: map<string, UdfBody>, calcTs: Time, view: ViewRef, h: History, name: string)
    requires Passes(passes, keys, features, udfs, calcTs) && name in features && Covered(passes, keys, name)
    requires keys != [] ==> forall d :: d in features[name].deps ==>
      d.feature in features && AllMirror(passes, keys, view, h, d.feature)
    requires Absent(keys, h, name)
    ensures var level := LevelOf(features, udfs, view, keys, name, h, calcTs);
      && level.LevelRows? && |level.rows| + level.skipped == |keys|
      && AllMirror(passes, keys, view, Appended(h, view, level.rows), name)
      && (forall n :: n in features && n != name && AllMirror(passes, keys, view, h, n) ==>
            AllMirror(passes, keys, view, Appended(h, view, level.rows), n))
      && (forall n :: n != name && Absent(keys, h, n) ==> Absent(keys, Appended(h, view, level.rows), n))
  {
    var level := LevelOf(features, udfs, view, keys, name, h, calcTs);
    if keys != [] {
      LevelIsOnline(passes, keys, features, udfs, calcTs, view, h, name);
      assert forall r :: r in level.rows ==> r.ref.name == name;
      forall e | e in keys
        ensures Mirrors(passes[e], view, Appended(h, view, level.rows), e, name)
      {
        LevelMirrors(passes, keys, features, udfs, calcTs, view, h, name, e);
      }
      forall n, e | n in features && n != name && AllMirror(passes, keys, view, h, n) && e in keys
        ensures Mirrors(passes[e], view, Appended(h, view, level.rows), e, n)
      {
        OtherFeaturesUnchanged(passes[e], view, h, level.rows, e, n);
      }
    }
    KeptComesFromCall(h, view, level.rows);
  }
}
