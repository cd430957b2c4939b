/** The registry contract: features, dependency edges and views. */
module Registry {
  import opened Domain

  datatype Propagation = Lazy | Reactive | Scheduled | Never

  datatype Dependency = Dependency(
    feature: string, version: Option<nat>, required: bool,
    maxInputAge: Option<nat>, propagation: Propagation)

  /** A model feature pins the exact model that computes it. */
  datatype Kind = Udf | ModelScore | Model(uri: string, digest: string, outputName: string)

  datatype Lifecycle = Draft | Shadow | Live | Deprecated

  datatype FeatureDef = FeatureDef(
    name: string, kind: Kind, version: nat, udf: string, lifecycle: Lifecycle,
    inputs: seq<string>, deps: seq<Dependency>)

  /** The features of a view indexed by name. */
  type FeatureTable = m: map<string, FeatureDef> | forall n :: n in m ==> m[n].name == n
    witness map[]

  datatype ViewDef = ViewDef(
    ref: ViewRef, features: seq<FeatureDef>, groups: map<string, seq<string>>, keyFields: seq<string>)

  /** A dictionary comprehension over the features: a later feature of the same name wins. */
  function ByName(features: seq<FeatureDef>): (m: FeatureTable) {
    if features == [] then map[]
    else
      var last := features[|features| - 1];
      ByName(features[..|features| - 1])[last.name := last]
  }

  lemma {:induction false} ByNameHolds(features: seq<FeatureDef>)
    ensures forall f :: f in features ==> f.name in ByName(features)
    ensures forall n :: n in ByName(features) ==> ByName(features)[n] in features
  {
    if features != [] {
      var front, last := features[..|features| - 1], features[|features| - 1];
      ByNameHolds(front);
      assert features == front + [last];
    }
  }

  /** The version an edge reads: its pin, else the target's own version. */
  function ResolvedVersion(d: Dependency, target: FeatureDef): nat {
    if d.version.Some? then d.version.value else target.version
  }

  /** A name stands for the last feature that carries it. */
  lemma {:induction false} ByNameIsLast(features: seq<FeatureDef>, i: nat)
    requires i < |features| && forall j :: i < j < |features| ==> features[j].name != features[i].name
    ensures features[i].name in ByName(features) && ByName(features)[features[i].name] == features[i]
  {
    var front, last := features[..|features| - 1], |features| - 1;
    if i < last {
      assert features[last].name != features[i].name && front[i] == features[i];
      assert forall j :: i < j < last ==> front[j] == features[j];
      ByNameIsLast(front, i);
    }
  }
}
