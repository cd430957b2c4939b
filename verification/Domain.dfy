/** Value objects shared by every component: timestamps, feature values, hashes,
    source stamps, feature results and offline records. */
module Domain {

  datatype Option<+T> = None | Some(value: T)

  /** A UTC instant in microseconds. */
  type Time = int

  const SECOND: Time := 1_000_000

  /** A feature value or report payload, identified by its canonical JSON text. */
  datatype Value = Value(json: string)

  /** SHA-256 hashes are free constructors: two hashes are equal exactly when what was hashed is. */
  datatype Digest = ContentHash(text: string) | ValueHash(value: Value)

  datatype InputId =
    | SourceInput(source: string)
    | FeatureInput(feature: string, version: nat)
    | ModelInput(uri: string, output: string)

  datatype Input = Input(id: InputId, dataTs: Time, hash: Digest)

  /** The input fingerprint sorts its triples before hashing, so it identifies a multiset. */
  datatype Fingerprint =
    | OfInputs(inputs: multiset<Input>)
    | OfValue(value: Value)
    | External(text: string)

  datatype AvailabilitySource = SourceProvided | IngestionTime

  datatype SourceStamp = SourceStamp(
    reportTs: Time, contentHash: Digest,
    availableAt: Option<Time>, availabilitySource: Option<AvailabilitySource>)

  datatype FeatureRef = FeatureRef(name: string, version: nat)

  datatype ViewRef = ViewRef(view: string, version: nat)

  /** An entity key in its encoded form; KeyCodec shows that the encoding loses nothing. */
  type EntityKey = string

  datatype FeatureResult = FeatureResult(
    ref: FeatureRef, entity: EntityKey, value: Value, dataTs: Time, calcTs: Time,
    maxInputDataTs: Option<Time>, fingerprint: Option<Fingerprint>, valueHash: Option<Digest>,
    availableAt: Option<Time>, availabilitySource: Option<AvailabilitySource>)

  datatype Record = Record(view: ViewRef, result: FeatureResult)

  /** The availability that takes part in replay identity: a fully source-provided claim only. */
  function TrustedAvailableAt(r: FeatureResult): Option<Time> {
    if r.availabilitySource == Some(SourceProvided) then r.availableAt else None
  }

  /** The availability clock of a stored row: its own claim, else the time it was computed. */
  function EffectiveAvailability(r: FeatureResult): Time {
    if r.availableAt.Some? then r.availableAt.value else r.calcTs
  }

  /** A trusted claim never precedes the report it is about (the raw-report metadata check). */
  predicate HonestStamp(s: SourceStamp) {
    s.availableAt.Some? && s.availabilitySource == Some(SourceProvided) ==> s.reportTs <= s.availableAt.value
  }

  predicate TrustedStamp(s: SourceStamp) {
    s.availableAt.Some? && s.availabilitySource == Some(SourceProvided)
  }

  function Max(a: int, b: int): int { if a < b then b else a }

  function Min(a: int, b: int): int { if a < b then a else b }

  predicate NoDup<T(==)>(s: seq<T>) {
    forall i, j :: 0 <= i < j < |s| ==> s[i] != s[j]
  }

  predicate Increasing(s: seq<nat>) { forall i, j :: 0 <= i < j < |s| ==> s[i] < s[j] }

  /** First occurrences, in order. */
  function Dedupe<T(==,!new)>(s: seq<T>): (r: seq<T>)
    ensures NoDup(r) && forall n :: n in r <==> n in s
  {
    if s == [] then []
    else
      var front, last := Dedupe(s[..|s| - 1]), s[|s| - 1];
      assert s == s[..|s| - 1] + [last];
      if last in front then front else front + [last]
  }

  lemma DedupeSnoc<T(!new)>(s: seq<T>, x: T)
    ensures Dedupe(s + [x]) == if x in Dedupe(s) then Dedupe(s) else Dedupe(s) + [x]
  {
    assert (s + [x])[..|s|] == s;
  }

  function FirstIndex<T(==)>(s: seq<T>, n: T): (i: nat)
    requires n in s
    ensures i < |s| && s[i] == n && n !in s[..i]
  {
    if s[0] == n then 0 else 1 + FirstIndex(s[1..], n)
  }

  lemma FirstIndexUnique<T>(s: seq<T>, n: T, i: nat)
    requires i < |s| && s[i] == n && n !in s[..i]
    ensures FirstIndex(s, n) == i
  {
  }

  /** An earlier element of the result was first mentioned earlier. */
  lemma {:induction false} DedupeKeepsOrder<T(!new)>(s: seq<T>, i: nat, j: nat)
    requires i < j < |Dedupe(s)|
    ensures FirstIndex(s, Dedupe(s)[i]) < FirstIndex(s, Dedupe(s)[j])
  {
    var front, last := s[..|s| - 1], s[|s| - 1];
    assert s == front + [last];
    forall n | n in front
      ensures FirstIndex(s, n) == FirstIndex(front, n)
    {
      FirstIndexUnique(s, n, FirstIndex(front, n));
    }
    if j < |Dedupe(front)| {
      DedupeKeepsOrder(front, i, j);
    } else {
      FirstIndexUnique(s, last, |front|);
    }
  }
}
