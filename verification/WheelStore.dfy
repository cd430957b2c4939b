/** The immutable wheel store (cli/artifact.py): content-addressed wheels and one release record
    per name and version, claimed by the first of any number of concurrent publishers. */
module WheelStore {

  type Bytes = string

  /** Hashes are free constructors: equal hashes mean equal bytes. */
  datatype Sha = Sha256(of: Bytes)

  datatype Key =
    | WheelKey(name: string, version: string, sha: Sha, filename: string)
    | ReleaseKey(name: string, version: string)

  datatype Release = Release(name: string, version: string, sha: Sha, filename: string, storageKey: Key)

  /** Stored objects: wheel bytes, or the JSON of a release record. */
  datatype Blob = Wheel(bytes: Bytes) | Record(release: Release)

  type Objects = map<Key, Blob>

  /** One `put` call. */
  datatype Put = Put(name: string, version: string, sha: Sha, filename: string, bytes: Bytes)

  predicate Honest(p: Put) { p.sha == Sha256(p.bytes) }

  function StorageKey(p: Put): Key { WheelKey(p.name, p.version, p.sha, p.filename) }

  function ReleaseKeyOf(p: Put): Key { ReleaseKey(p.name, p.version) }

  function ReleaseOf(p: Put): Release { Release(p.name, p.version, p.sha, p.filename, StorageKey(p)) }

  datatype StoreError =
    | ReleasedWithDifferentSha | ReleaseMissing | ShaMismatch | StorageKeyMismatch | WheelMissing | WheelCorrupt

  datatype PutResult = Published(release: Release) | Rejected(error: StoreError)

  // ---------------------------------------------------------------------------------------
  // The three steps of a put, each atomic in the store
  // ---------------------------------------------------------------------------------------

  function WriteWheel(s: Objects, p: Put): Objects { s[StorageKey(p) := Wheel(p.bytes)] }

  /** Create-if-absent: the first writer wins. */
  function Claim(s: Objects, p: Put): (Objects, bool) {
    if ReleaseKeyOf(p) in s then (s, false) else (s[ReleaseKeyOf(p) := Record(ReleaseOf(p))], true)
  }

  /** What the loser of a claim concludes from the existing record. */
  function Judge(s: Objects, p: Put): PutResult {
    if ReleaseKeyOf(p) in s && s[ReleaseKeyOf(p)].Record? && s[ReleaseKeyOf(p)].release.sha == p.sha
    then Published(s[ReleaseKeyOf(p)].release)
    else Rejected(ReleasedWithDifferentSha)
  }

  function ReadBackVerify(s: Objects, name: string, version: string, sha: Sha): PutResult {
    var key := ReleaseKey(name, version);
    if key !in s || !s[key].Record? then Rejected(ReleaseMissing)
    else
      var r := s[key].release;
      if r.sha != sha then Rejected(ShaMismatch)
      else if r.storageKey != WheelKey(name, version, sha, r.filename) then Rejected(StorageKeyMismatch)
      else if r.storageKey !in s then Rejected(WheelMissing)
      else if !s[r.storageKey].Wheel? || Sha256(s[r.storageKey].bytes) != sha then Rejected(WheelCorrupt)
      else Published(r)
  }

  /** A release reads back exactly if its record names the hash and the place of a wheel that is there
      and has this hash. */
  lemma ReadBackMeans(s: Objects, name: string, version: string, sha: Sha, r: Release)
    ensures ReadBackVerify(s, name, version, sha) == Published(r) <==>
      && ReleaseKey(name, version) in s && s[ReleaseKey(name, version)] == Record(r) && r.sha == sha
      && exists bytes :: Sha256(bytes) == sha && r.storageKey == WheelKey(name, version, Sha256(bytes), r.filename) &&
                         r.storageKey in s && s[r.storageKey] == Wheel(bytes)
  {
    if ReadBackVerify(s, name, version, sha) == Published(r) {
      assert s[r.storageKey] == Wheel(s[r.storageKey].bytes);
    }
  }

  class WheelStore {
    var objects: Objects

    constructor ()
      ensures objects == map[]
    {
      objects := map[];
    }

    method WriteIfAbsent(key: Key, blob: Blob) returns (created: bool)
      modifies this
      ensures created <==> key !in old(objects)
      ensures objects == if created then old(objects)[key := blob] else old(objects)
    {
      if key in objects {
        return false;
      }
      objects := objects[key := blob];
      return true;
    }

    /** One publisher running alone. */
    method PutWheel(p: Put) returns (r: PutResult)
      modifies this
      ensures var (after, won) := Claim(WriteWheel(old(objects), p), p);
        objects == after && r == if won then Published(ReleaseOf(p)) else Judge(after, p)
    {
      objects := objects[StorageKey(p) := Wheel(p.bytes)];
      var won := WriteIfAbsent(ReleaseKeyOf(p), Record(ReleaseOf(p)));
      if won {
        return Published(ReleaseOf(p));
      }
      r := Judge(objects, p);
    }
  }

  // ---------------------------------------------------------------------------------------
  // Any number of publishers, interleaved step by step
  // ---------------------------------------------------------------------------------------

  datatype Phase = Start | WheelWritten | LostClaim | Finished(result: PutResult)

  datatype Publishers = Publishers(objects: Objects, puts: seq<Put>, phases: seq<Phase>)

  ghost predicate WellFormed(g: Publishers) { |g.phases| == |g.puts| }

  /** The next step of publisher `i`. */
  function Step(g: Publishers, i: nat): Publishers
    requires WellFormed(g) && i < |g.puts|
  {
    var p := g.puts[i];
    match g.phases[i]
    case Start => g.(objects := WriteWheel(g.objects, p), phases := g.phases[i := WheelWritten])
    case WheelWritten =>
      var (after, won) := Claim(g.objects, p);
      g.(objects := after, phases := g.phases[i := if won then Finished(Published(ReleaseOf(p))) else LostClaim])
    case LostClaim => g.(phases := g.phases[i := Finished(Judge(g.objects, p))])
    case Finished(_) => g
  }

  ghost predicate Schedule(g: Publishers, schedule: seq<nat>) {
    WellFormed(g) && forall k :: 0 <= k < |schedule| ==> schedule[k] < |g.puts|
  }

  function Run(g: Publishers, schedule: seq<nat>): (g': Publishers)
    requires Schedule(g, schedule)
    ensures WellFormed(g') && g'.puts == g.puts
  {
    if schedule == [] then g else Step(Run(g, schedule[..|schedule| - 1]), schedule[|schedule| - 1])
  }

  function Fresh(puts: seq<Put>): Publishers {
    Publishers(map[], puts, seq(|puts|, i => Start))
  }

  ghost predicate SoundObjects(s: Objects) {
    && (forall k :: k in s && k.WheelKey? ==> s[k].Wheel? && Sha256(s[k].bytes) == k.sha)
    && (forall k :: k in s && k.ReleaseKey? ==>
          && s[k].Record?
          && var r := s[k].release;
          && r.name == k.name && r.version == k.version
          && r.storageKey == WheelKey(r.name, r.version, r.sha, r.filename) && r.storageKey in s)
  }

  ghost predicate Tracked(g: Publishers, i: nat)
    requires WellFormed(g) && i < |g.puts|
  {
    var p, key := g.puts[i], ReleaseKeyOf(g.puts[i]);
    match g.phases[i]
    case Start => true
    case WheelWritten => StorageKey(p) in g.objects
    case LostClaim => key in g.objects
    case Finished(Published(r)) => key in g.objects && g.objects[key] == Record(r) && r.sha == p.sha
    case Finished(Rejected(e)) => key in g.objects && g.objects[key].Record? && g.objects[key].release.sha != p.sha
  }

  ghost predicate Invariant(g: Publishers) {
    && WellFormed(g) && SoundObjects(g.objects)
    && forall i :: 0 <= i < |g.puts| ==> Tracked(g, i)
  }

  /** Objects are never removed and release records never change. */
  ghost predicate Grows(s: Objects, s': Objects) {
    && (forall k :: k in s ==> k in s')
    && forall k :: k in s && k.ReleaseKey? ==> s'[k] == s[k]
  }

  lemma StepKeepsInvariant(g: Publishers, i: nat)
    requires Invariant(g) && i < |g.puts| && Honest(g.puts[i])
    ensures Invariant(Step(g, i)) && Grows(g.objects, Step(g, i).objects)
  {
    var g' := Step(g, i);
    assert Tracked(g, i);
    assert SoundObjects(g'.objects);
    forall j | 0 <= j < |g'.puts|
      ensures Tracked(g', j)
    {
      assert Tracked(g, j);
    }
  }

  lemma {:induction false} RunKeepsInvariant(g: Publishers, schedule: seq<nat>)
    requires Schedule(g, schedule) && Invariant(g) && forall p :: p in g.puts ==> Honest(p)
    ensures Invariant(Run(g, schedule)) && Grows(g.objects, Run(g, schedule).objects)
  {
    if schedule != [] {
      RunKeepsInvariant(g, schedule[..|schedule| - 1]);
      StepKeepsInvariant(Run(g, schedule[..|schedule| - 1]), schedule[|schedule| - 1]);
    }
  }

  lemma {:induction false} RunSplits(g: Publishers, first: seq<nat>, second: seq<nat>)
    requires Schedule(g, first + second)
    ensures Schedule(g, first) && Schedule(Run(g, first), second)
    ensures Run(g, first + second) == Run(Run(g, first), second)
  {
    assert forall k :: 0 <= k < |first| ==> first[k] == (first + second)[k];
    assert forall k :: 0 <= k < |second| ==> second[k] == (first + second)[|first| + k];
    if second == [] {
      assert first + second == first;
    } else {
      assert (first + second)[..|first + second| - 1] == first + second[..|second| - 1];
      RunSplits(g, first, second[..|second| - 1]);
    }
  }

  /** Whatever the interleaving: once a publisher has succeeded, its record stays the record of
      that release for ever, and reading it back verifies at any later time. */
  lemma WinnersStayVerified(puts: seq<Put>, schedule: seq<nat>, later: seq<nat>, i: nat)
    requires Schedule(Fresh(puts), schedule + later) && forall p :: p in puts ==> Honest(p)
    requires i < |puts| && Schedule(Fresh(puts), schedule)
    requires Run(Fresh(puts), schedule).phases[i].Finished? && Run(Fresh(puts), schedule).phases[i].result.Published?
    ensures var release := Run(Fresh(puts), schedule).phases[i].result.release;
            var s := Run(Fresh(puts), schedule + later).objects;
      && ReleaseKeyOf(puts[i]) in s && s[ReleaseKeyOf(puts[i])] == Record(release)
      && ReadBackVerify(s, puts[i].name, puts[i].version, puts[i].sha) == Published(release)
  {
    var g := Run(Fresh(puts), schedule);
    RunKeepsInvariant(Fresh(puts), schedule);
    assert Tracked(g, i);
    RunSplits(Fresh(puts), schedule, later);
    RunKeepsInvariant(g, later);
  }

  /** All publishers of a name and version that succeed agree on the record, hence on the hash;
      a publisher is turned away only if the released hash differs from its own. */
  lemma WinnersAgree(puts: seq<Put>, schedule: seq<nat>, i: nat, j: nat)
    requires Schedule(Fresh(puts), schedule) && forall p :: p in puts ==> Honest(p)
    requires i < |puts| && j < |puts| && ReleaseKeyOf(puts[i]) == ReleaseKeyOf(puts[j])
    requires Run(Fresh(puts), schedule).phases[i].Finished? && Run(Fresh(puts), schedule).phases[j].Finished?
    requires Run(Fresh(puts), schedule).phases[i].result.Published?
    ensures Run(Fresh(puts), schedule).phases[j].result.Published? <==> puts[i].sha == puts[j].sha
    ensures Run(Fresh(puts), schedule).phases[j].result.Published? ==>
      Run(Fresh(puts), schedule).phases[i] == Run(Fresh(puts), schedule).phases[j]
  {
    RunKeepsInvariant(Fresh(puts), schedule);
    assert Tracked(Run(Fresh(puts), schedule), i) && Tracked(Run(Fresh(puts), schedule), j);
  }

  /** A release record exists only because a publisher has succeeded with it. */
  ghost predicate Claimed(g: Publishers, key: Key)
    requires WellFormed(g)
  {
    key in g.objects && key.ReleaseKey? ==>
      exists i :: 0 <= i < |g.puts| && ReleaseKeyOf(g.puts[i]) == key &&
        g.phases[i] == Finished(Published(ReleaseOf(g.puts[i])))
  }

  lemma {:induction false} SomeoneWins(puts: seq<Put>, schedule: seq<nat>, key: Key)
    requires Schedule(Fresh(puts), schedule)
    ensures Claimed(Run(Fresh(puts), schedule), key)
  {
    if schedule != [] {
      var front, i := schedule[..|schedule| - 1], schedule[|schedule| - 1];
      SomeoneWins(puts, front, key);
      var g, g' := Run(Fresh(puts), front), Run(Fresh(puts), schedule);
      if key in g'.objects && key.ReleaseKey? {
        if key in g.objects {
          var j :| 0 <= j < |g.puts| && ReleaseKeyOf(g.puts[j]) == key &&
            g.phases[j] == Finished(Published(ReleaseOf(g.puts[j])));
          assert g'.phases[j] == g.phases[j];
        } else {
          assert g'.phases[i] == Finished(Published(ReleaseOf(g'.puts[i])));
        }
      }
    }
  }

  /** Honesty is needed: a later put that claims the same hash for other bytes overwrites the
      wheel, and reading the release back then fails closed. */
  lemma DishonestPutIsCaught(p: Put, forged: Bytes)
    requires Honest(p) && forged != p.bytes
    ensures var puts := [p, p.(bytes := forged)];
      ReadBackVerify(Run(Fresh(puts), [0, 0, 1]).objects, p.name, p.version, p.sha) == Rejected(WheelCorrupt)
  {
    var puts := [p, p.(bytes := forged)];
    var g := Fresh(puts);
    assert [0, 0, 1][..2] == [0, 0] && [0, 0][..1] == [0] && [0][..0] == [];
    assert Run(g, []) == g;
    assert Run(g, [0]) == Step(g, 0);
    assert Run(g, [0, 0]) == Step(Step(g, 0), 0);
    assert Run(g, [0, 0, 1]) == Step(Step(Step(g, 0), 0), 1);
  }

  /** After the schedule, publisher `i` has succeeded and reading its release back verifies. */
  ghost predicate Verified(g: Publishers, i: nat)
    requires WellFormed(g) && i < |g.puts|
  {
    g.phases[i].Finished? && g.phases[i].result.Published? ==>
      ReadBackVerify(g.objects, g.puts[i].name, g.puts[i].version, g.puts[i].sha)
        == Published(g.phases[i].result.release)
  }

  /** A dishonest publisher succeeds when it runs alone, and what it has published does not verify. */
  lemma DishonestWinnerIsCaught(puts: seq<Put>, i: nat)
    requires i < |puts| && !Honest(puts[i])
    ensures Schedule(Fresh(puts), [i, i]) && !Verified(Run(Fresh(puts), [i, i]), i)
  {
    var g := Fresh(puts);
    assert [i, i][..1] == [i] && [i][..0] == [];
    assert Run(g, []) == g;
    assert Run(g, [i]) == Step(g, i);
    assert Run(g, [i, i]) == Step(Step(g, i), i);
  }

  /** Every successful publisher can be verified in every interleaving if and only if every
      publisher names the hash of its own bytes. */
  lemma WinnersVerifyIff(puts: seq<Put>)
    ensures (forall p :: p in puts ==> Honest(p)) <==>
      forall schedule, i: nat :: Schedule(Fresh(puts), schedule) && i < |puts| ==>
        Verified(Run(Fresh(puts), schedule), i)
  {
    if forall p :: p in puts ==> Honest(p) {
      forall schedule, i: nat | Schedule(Fresh(puts), schedule) && i < |puts|
        ensures Verified(Run(Fresh(puts), schedule), i)
      {
        if Run(Fresh(puts), schedule).phases[i].Finished? && Run(Fresh(puts), schedule).phases[i].result.Published? {
          assert schedule + [] == schedule;
          WinnersStayVerified(puts, schedule, [], i);
        }
      }
    } else {
      var p :| p in puts && !Honest(p);
      var i :| 0 <= i < |puts| && puts[i] == p;
      DishonestWinnerIsCaught(puts, i);
    }
  }
}
