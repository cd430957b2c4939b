/** Deterministic encoding of entity keys (keycodec.py). */
module KeyCodec {
  import opened Domain
  import opened Sorting

  datatype Part = Part(name: string, value: string)

  /** A key as it is passed around: a dictionary in insertion order, so names do not repeat. */
  ghost predicate IsDictionary(parts: seq<Part>) {
    forall i, j :: 0 <= i < j < |parts| ==> parts[i].name != parts[j].name
  }

  /** The characters that `strip` removes. */
  predicate IsSpace(c: char) {
    var u := c as int;
    || 0x09 <= u <= 0x0D || 0x1C <= u <= 0x20 || u == 0x85 || u == 0xA0 || u == 0x1680
    || 0x2000 <= u <= 0x200A || u == 0x2028 || u == 0x2029 || u == 0x202F || u == 0x205F || u == 0x3000
  }

  predicate Blank(s: string) { forall c :: c in s ==> IsSpace(c) }

  predicate Unreserved(s: string) { '|' !in s && '=' !in s }

  predicate ValidPart(p: Part) {
    !Blank(p.name) && !Blank(p.value) && Unreserved(p.name) && Unreserved(p.value)
  }

  function Names(parts: seq<Part>): seq<string> {
    seq(|parts|, i requires 0 <= i < |parts| => parts[i].name)
  }

  predicate HasName(parts: seq<Part>, name: string) { exists p :: p in parts && p.name == name }

  function ValueOf(parts: seq<Part>, name: string): string
    requires HasName(parts, name)
  {
    if parts[0].name == name then parts[0].value
    else
      assert parts == [parts[0]] + parts[1..];
      ValueOf(parts[1..], name)
  }

  /** Exactly the names of the key, each once. */
  predicate ValidOrder(parts: seq<Part>, order: seq<string>) {
    && |order| == |parts|
    && (forall n :: n in order ==> HasName(parts, n)) && (forall p :: p in parts ==> p.name in order)
  }

  function Arrange(parts: seq<Part>, order: seq<string>): seq<Part>
    requires forall n :: n in order ==> HasName(parts, n)
  {
    seq(|order|, i requires 0 <= i < |order| => Part(order[i], ValueOf(parts, order[i])))
  }

  /** `name=value` parts joined by bars. */
  function Join(parts: seq<Part>): string
    decreases |parts|, 0
  {
    if parts == [] then ""
    else parts[0].name + "=" + parts[0].value + JoinRest(parts[1..])
  }

  function JoinRest(parts: seq<Part>): string
    decreases |parts|, 1
  {
    if parts == [] then "" else "|" + Join(parts)
  }

  function OrderOf(parts: seq<Part>, keyOrder: Option<seq<string>>): seq<string> {
    if keyOrder.Some? then keyOrder.value else Sort(Names(parts), LexLe)
  }

  /** `None` stands for the rejection of an empty, malformed or misordered key. */
  function Encode(parts: seq<Part>, keyOrder: Option<seq<string>>): Option<string> {
    var order := OrderOf(parts, keyOrder);
    if parts == [] || (exists p :: p in parts && !ValidPart(p)) || !ValidOrder(parts, order) then None
    else Some(Join(Arrange(parts, order)))
  }

  // ---------------------------------------------------------------------------------------
  // The encoding can be read back
  // ---------------------------------------------------------------------------------------

  lemma SplitAt(x: string, y: string, x': string, y': string, c: char)
    requires x + [c] + y == x' + [c] + y' && c !in x && c !in x'
    ensures x == x' && y == y'
  {
    var s := x + [c] + y;
    assert s[|x|] == c && forall k :: 0 <= k < |x| ==> s[k] == x[k];
    assert s[|x'|] == c && forall k :: 0 <= k < |x'| ==> s[k] == x'[k];
    assert x == s[..|x|] && x' == s[..|x'|];
    assert y == s[|x| + 1..] && y' == s[|x'| + 1..];
  }

  lemma JoinIsVisible(a: seq<Part>)
    ensures a != [] ==> '=' in Join(a)
  {
    if a != [] {
      assert Join(a)[|a[0].name|] == '=';
    }
  }

  /** Parts without reserved characters are determined by their encoding. */
  lemma {:induction false} JoinIsInjective(a: seq<Part>, b: seq<Part>)
    requires forall p :: p in a || p in b ==> Unreserved(p.name) && Unreserved(p.value)
    requires Join(a) == Join(b)
    ensures a == b
  {
    JoinIsVisible(a);
    JoinIsVisible(b);
    if a != [] && b != [] {
      assert a[0] in a && b[0] in b;
      assert forall p :: p in a[1..] ==> p in a;
      assert forall p :: p in b[1..] ==> p in b;
      SplitAt(a[0].name, a[0].value + JoinRest(a[1..]), b[0].name, b[0].value + JoinRest(b[1..]), '=') by {
        assert Join(a) == a[0].name + ['='] + (a[0].value + JoinRest(a[1..]));
        assert Join(b) == b[0].name + ['='] + (b[0].value + JoinRest(b[1..]));
      }
      SplitRest(a[0].value, a[1..], b[0].value, b[1..]);
      JoinIsInjective(a[1..], b[1..]);
      assert a == [a[0]] + a[1..] && b == [b[0]] + b[1..];
    }
  }

  lemma SplitRest(v: string, a: seq<Part>, w: string, b: seq<Part>)
    requires '|' !in v && '|' !in w && v + JoinRest(a) == w + JoinRest(b)
    ensures v == w && Join(a) == Join(b) && (a == [] <==> b == [])
  {
    assert a != [] ==> (v + JoinRest(a))[|v|] == '|';
    assert b != [] ==> (w + JoinRest(b))[|w|] == '|';
    assert a == [] ==> v + JoinRest(a) == v;
    assert b == [] ==> w + JoinRest(b) == w;
    if a != [] && b != [] {
      assert v + JoinRest(a) == v + ['|'] + Join(a);
      assert w + JoinRest(b) == w + ['|'] + Join(b);
      SplitAt(v, Join(a), w, Join(b), '|');
    }
  }

  // ---------------------------------------------------------------------------------------
  // Same entity, same key
  // ---------------------------------------------------------------------------------------

  /** Two dictionaries with the same bindings, in whatever order they were built. */
  ghost predicate SameBindings(a: seq<Part>, b: seq<Part>) { forall p :: p in a <==> p in b }

  lemma {:induction false} ValueIsBound(parts: seq<Part>, name: string)
    requires HasName(parts, name)
    ensures Part(name, ValueOf(parts, name)) in parts
  {
    if parts[0].name != name {
      assert parts == [parts[0]] + parts[1..];
      ValueIsBound(parts[1..], name);
    }
  }

  lemma ValueIsUnique(parts: seq<Part>, p: Part)
    requires IsDictionary(parts) && p in parts
    ensures ValueOf(parts, p.name) == p.value
  {
    assert HasName(parts, p.name);
    ValueIsBound(parts, p.name);
    var i :| 0 <= i < |parts| && parts[i] == p;
    var j :| 0 <= j < |parts| && parts[j] == Part(p.name, ValueOf(parts, p.name));
    assert i == j;
  }

  lemma SameLength(a: seq<Part>, b: seq<Part>)
    requires IsDictionary(a) && IsDictionary(b) && SameBindings(a, b)
    ensures |a| == |b|
  {
    DistinctPrefix(a, b);
    DistinctPrefix(b, a);
  }

  lemma {:induction false} DistinctPrefix(a: seq<Part>, b: seq<Part>)
    requires IsDictionary(a) && forall p :: p in a ==> p in b
    ensures |a| <= |b|
  {
    if a != [] {
      var front, last := a[..|a| - 1], a[|a| - 1];
      assert last in b;
      var k :| 0 <= k < |b| && b[k] == last;
      var rest := b[..k] + b[k + 1..];
      forall p | p in front
        ensures p in rest
      {
        var i :| 0 <= i < |front| && front[i] == p;
        assert a[i].name != a[|a| - 1].name && p in b;
        var j :| 0 <= j < |b| && b[j] == p;
        assert j < k ==> rest[j] == p;
        assert j > k ==> rest[j - 1] == p;
      }
      DistinctPrefix(front, rest);
    }
  }

  /** The encoding depends on the bindings alone, not on the order in which the key was built. */
  lemma SameBindingsSameKey(a: seq<Part>, b: seq<Part>, keyOrder: seq<string>)
    requires IsDictionary(a) && IsDictionary(b) && SameBindings(a, b)
    ensures Encode(a, Some(keyOrder)) == Encode(b, Some(keyOrder))
  {
    SameLength(a, b);
    assert forall n :: HasName(a, n) <==> HasName(b, n);
    if ValidOrder(a, keyOrder) && ValidOrder(b, keyOrder) {
      forall n | n in keyOrder
        ensures ValueOf(a, n) == ValueOf(b, n)
      {
        ValueIsBound(a, n);
        ValueIsUnique(b, Part(n, ValueOf(a, n)));
      }
      assert Arrange(a, keyOrder) == Arrange(b, keyOrder);
    }
    assert (exists p :: p in a && !ValidPart(p)) <==> (exists p :: p in b && !ValidPart(p));
  }

  /** Different entities never share a key, even when their key orders differ. */
  lemma DifferentBindingsDifferentKey(a: seq<Part>, b: seq<Part>, orderA: Option<seq<string>>,
                                      orderB: Option<seq<string>>)
    requires IsDictionary(a) && IsDictionary(b)
    requires Encode(a, orderA).Some? && Encode(a, orderA) == Encode(b, orderB)
    ensures SameBindings(a, b) && OrderOf(a, orderA) == OrderOf(b, orderB)
  {
    var na, nb := OrderOf(a, orderA), OrderOf(b, orderB);
    var xa, xb := Arrange(a, na), Arrange(b, nb);
    ArrangeIsKey(a, na);
    ArrangeIsKey(b, nb);
    JoinIsInjective(xa, xb);
    assert forall i :: 0 <= i < |na| ==> na[i] == xa[i].name;
    assert forall i :: 0 <= i < |nb| ==> nb[i] == xb[i].name;
    assert na == nb;
  }

  lemma ArrangeIsKey(parts: seq<Part>, order: seq<string>)
    requires IsDictionary(parts) && ValidOrder(parts, order)
    ensures SameBindings(parts, Arrange(parts, order))
  {
    var arranged := Arrange(parts, order);
    forall p | p in parts
      ensures p in arranged
    {
      ValueIsUnique(parts, p);
      var i :| 0 <= i < |order| && order[i] == p.name;
      assert arranged[i] == p;
    }
    forall p | p in arranged
      ensures p in parts
    {
      var i :| 0 <= i < |arranged| && arranged[i] == p;
      assert order[i] in order;
      ValueIsBound(parts, order[i]);
    }
  }

  // ---------------------------------------------------------------------------------------
  // What is rejected, and what an encoded key looks like
  // ---------------------------------------------------------------------------------------

  /** The characters that count as white space. */
  const WHITE_SPACE: set<int> := {
    0x09, 0x0A, 0x0B, 0x0C, 0x0D, 0x1C, 0x1D, 0x1E, 0x1F, 0x20, 0x85, 0xA0, 0x1680, 0x2000, 0x2001, 0x2002, 0x2003,
    0x2004, 0x2005, 0x2006, 0x2007, 0x2008, 0x2009, 0x200A, 0x2028, 0x2029, 0x202F, 0x205F, 0x3000}

  /** Some character is not white space, and none is reserved. */
  predicate Usable(s: string) {
    && (exists i :: 0 <= i < |s| && s[i] as int !in WHITE_SPACE)
    && forall i :: 0 <= i < |s| ==> s[i] != '|' && s[i] != '='
  }

  lemma SpacesAgree(s: string)
    ensures Blank(s) <==> forall i :: 0 <= i < |s| ==> s[i] as int in WHITE_SPACE
  {
    assert forall c: char :: IsSpace(c) <==> c as int in WHITE_SPACE;
    hide IsSpace;
    if Blank(s) {
      assert forall i :: 0 <= i < |s| ==> s[i] in s;
    }
  }

  /** A key is rejected if it is empty, if a name or value is unusable, or if the order does not list the
      names of the key and no others; the lengths exclude repetitions. */
  lemma EncodeRejectsIff(parts: seq<Part>, keyOrder: Option<seq<string>>)
    ensures Encode(parts, keyOrder).None? <==>
      || parts == []
      || (exists p :: p in parts && !(Usable(p.name) && Usable(p.value)))
      || (keyOrder.Some? &&
            (|keyOrder.value| != |parts| || (exists n :: n in keyOrder.value && forall p :: p in parts ==> p.name != n)
             || exists p :: p in parts && p.name !in keyOrder.value))
  {
    forall p: Part
      ensures ValidPart(p) <==> Usable(p.name) && Usable(p.value)
    {
      SpacesAgree(p.name);
      SpacesAgree(p.value);
      hide IsSpace;
    }
    hide Usable, ValidPart;
    if keyOrder.None? {
      SortedNamesAreOrder(parts);
    } else {
      assert forall n :: HasName(parts, n) <==> exists p :: p in parts && p.name == n;
    }
  }

  /** Without an order the names are sorted. */
  lemma SortedNamesAreOrder(parts: seq<Part>)
    ensures ValidOrder(parts, OrderOf(parts, None)) && Sorted(OrderOf(parts, None), LexLe)
  {
    var names := Names(parts);
    LexIsTotalOrder();
    SortSorts(names, LexLe);
    SortKeepsElements(names, LexLe);
    SameElements(Sort(names, LexLe), names);
    forall p | p in parts
      ensures p.name in names
    {
      var i :| 0 <= i < |parts| && parts[i] == p;
      assert names[i] == p.name;
    }
    forall n | n in names
      ensures HasName(parts, n)
    {
      var i :| 0 <= i < |names| && names[i] == n;
      assert parts[i].name == n;
    }
  }

  /** The text of a key, from its end: `name=value`, and a bar before every part but the first. */
  lemma {:induction false} JoinSnoc(parts: seq<Part>, last: Part)
    ensures Join(parts + [last]) ==
      Join(parts) + (if parts == [] then "" else "|") + last.name + "=" + last.value
  {
    if parts == [] {
      assert [] + [last] == [last] && [last][1..] == [];
      assert Join([last]) == last.name + "=" + last.value + "";
    } else {
      assert (parts + [last])[1..] == parts[1..] + [last];
      JoinSnoc(parts[1..], last);
      var rest := last.name + "=" + last.value;
      JoinRestSnoc(parts[1..], last);
      assert Join(parts + [last]) == parts[0].name + "=" + parts[0].value + JoinRest(parts[1..] + [last]);
    }
  }

  lemma JoinRestOf(parts: seq<Part>)
    ensures JoinRest(parts) == if parts == [] then "" else "|" + Join(parts)
  {
  }

  lemma Regroup(x: string, a: string, b: string, c: string, d: string, e: string)
    ensures x + (a + b + c + d + e) == x + a + b + c + d + e
  {
  }

  lemma JoinRestSnoc(parts: seq<Part>, last: Part)
    requires Join(parts + [last]) == Join(parts) + (if parts == [] then "" else "|") + last.name + "=" + last.value
    ensures JoinRest(parts + [last]) == JoinRest(parts) + "|" + last.name + "=" + last.value
  {
    JoinRestOf(parts);
    JoinRestOf(parts + [last]);
    assert Join([]) == "";
    hide Join, JoinRest;
    if parts == [] {
      Regroup("|", "", "", last.name, "=", last.value);
      assert "|" + "" + "" == "" + "|";
    } else {
      Regroup("|", Join(parts), "|", last.name, "=", last.value);
    }
  }

  // ---------------------------------------------------------------------------------------
  // The encoder
  // ---------------------------------------------------------------------------------------

  method EncodeEntityKey(parts: seq<Part>, keyOrder: Option<seq<string>>) returns (encoded: Option<string>)
    ensures encoded == Encode(parts, keyOrder)
  {
    if parts == [] {
      return None;
    }
    for i := 0 to |parts|
      invariant forall j :: 0 <= j < i ==> ValidPart(parts[j])
    {
      if !ValidPart(parts[i]) {
        return None;
      }
    }
    var order := OrderOf(parts, keyOrder);
    if !ValidOrder(parts, order) {
      return None;
    }
    var joined := "";
    var i := |order|;
    ghost var arranged := Arrange(parts, order);
    while i > 0
      invariant 0 <= i <= |order|
      invariant joined == Join(arranged[i..])
    {
      i := i - 1;
      assert arranged[i..][1..] == arranged[i + 1..];
      joined := order[i] + "=" + ValueOf(parts, order[i]) + (if joined == "" then "" else "|" + joined);
      JoinIsVisible(arranged[i + 1..]);
    }
    assert arranged[0..] == arranged;
    return Some(joined);
  }

  // ---------------------------------------------------------------------------------------
  // Keys given as mappings
  // ---------------------------------------------------------------------------------------

  /** The key restricted to the key fields of the view, in their order. */
  function KeyParts(keyFields: seq<string>, key: map<string, string>): seq<Part>
    requires forall f :: f in keyFields ==> f in key
  {
    seq(|keyFields|, i requires 0 <= i < |keyFields| => Part(keyFields[i], key[keyFields[i]]))
  }

  /** The canonical encoded key; `None` if a field is missing or malformed. */
  function Canonical(keyFields: seq<string>, key: map<string, string>): Option<string> {
    if exists f :: f in keyFields && f !in key then None
    else Encode(KeyParts(keyFields, key), Some(keyFields))
  }

  function Restrict(keyFields: seq<string>, key: map<string, string>): map<string, string>
    requires forall f :: f in keyFields ==> f in key
  {
    map f | f in keyFields :: key[f]
  }

  /** Equal canonical keys come from equal entities. */
  lemma CanonicalIsInjective(keyFields: seq<string>, a: map<string, string>, b: map<string, string>)
    requires NoDup(keyFields)
    requires Canonical(keyFields, a).Some? && Canonical(keyFields, a) == Canonical(keyFields, b)
    ensures Restrict(keyFields, a) == Restrict(keyFields, b)
  {
    var pa, pb := KeyParts(keyFields, a), KeyParts(keyFields, b);
    DifferentBindingsDifferentKey(pa, pb, Some(keyFields), Some(keyFields));
    PartsDetermineKey(keyFields, a, b);
  }

  lemma PartsDetermineKey(keyFields: seq<string>, a: map<string, string>, b: map<string, string>)
    requires NoDup(keyFields) && forall f :: f in keyFields ==> f in a && f in b
    requires SameBindings(KeyParts(keyFields, a), KeyParts(keyFields, b))
    ensures Restrict(keyFields, a) == Restrict(keyFields, b)
  {
    var pa, pb := KeyParts(keyFields, a), KeyParts(keyFields, b);
    forall f | f in keyFields
      ensures a[f] == b[f]
    {
      var i :| 0 <= i < |keyFields| && keyFields[i] == f;
      assert pa[i] in pa && pa[i] in pb;
      var j :| 0 <= j < |pb| && pb[j] == pa[i];
      assert keyFields[j] == f;
    }
  }

  /** The canonical key exists exactly if there are key fields and each has a usable name and value, and it
      joins them in their order. */
  lemma CanonicalMeans(keyFields: seq<string>, key: map<string, string>)
    requires NoDup(keyFields)
    ensures Canonical(keyFields, key).None? <==>
      keyFields == [] || exists f :: f in keyFields && !(f in key && Usable(f) && Usable(key[f]))
    ensures Canonical(keyFields, key).Some? ==>
      (forall f :: f in keyFields ==> f in key) && Canonical(keyFields, key).value == Join(KeyParts(keyFields, key))
  {
    if forall f :: f in keyFields ==> f in key {
      var parts := KeyParts(keyFields, key);
      EncodeRejectsIff(parts, Some(keyFields));
      PartsListFields(keyFields, key);
      hide Usable, Encode, Join;
      if Canonical(keyFields, key).Some? {
        EncodedInOrder(keyFields, key);
      }
    }
  }

  lemma PartsListFields(keyFields: seq<string>, key: map<string, string>)
    requires forall f :: f in keyFields ==> f in key
    ensures var parts := KeyParts(keyFields, key);
      && |parts| == |keyFields| && (forall p :: p in parts ==> p.name in keyFields && p.value == key[p.name])
      && forall f :: f in keyFields ==> Part(f, key[f]) in parts
  {
    var parts := KeyParts(keyFields, key);
    forall p | p in parts
      ensures p.name in keyFields && p.value == key[p.name]
    {
      var i :| 0 <= i < |parts| && parts[i] == p;
      assert keyFields[i] in keyFields;
    }
    forall f | f in keyFields
      ensures Part(f, key[f]) in parts
    {
      var i :| 0 <= i < |keyFields| && keyFields[i] == f;
      assert parts[i] == Part(f, key[f]);
    }
  }

  lemma EncodedInOrder(keyFields: seq<string>, key: map<string, string>)
    requires NoDup(keyFields) && (forall f :: f in keyFields ==> f in key)
    requires Encode(KeyParts(keyFields, key), Some(keyFields)).Some?
    ensures Encode(KeyParts(keyFields, key), Some(keyFields)) == Some(Join(KeyParts(keyFields, key)))
  {
    var parts := KeyParts(keyFields, key);
    assert IsDictionary(parts);
    assert ValidOrder(parts, keyFields);
    forall i | 0 <= i < |keyFields|
      ensures Arrange(parts, keyFields)[i] == parts[i]
    {
      assert parts[i] in parts && keyFields[i] in keyFields;
      ValueIsUnique(parts, parts[i]);
    }
    assert Arrange(parts, keyFields) == parts;
  }
}
