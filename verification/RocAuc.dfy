/** The rank-based AUC of the demo model (model_lib.py): midranks over tie groups. */
module RocAuc {
  import opened Domain
  import opened Sorting

  datatype Pair = Pair(score: real, outcome: int)

  predicate PairLe(a: Pair, b: Pair) {
    a.score < b.score || (a.score == b.score && a.outcome <= b.outcome)
  }

  // ---------------------------------------------------------------------------------------
  // The Mann-Whitney statistic, in half points
  // ---------------------------------------------------------------------------------------

  function Positives(s: seq<Pair>): nat {
    if s == [] then 0
    else
      var last := if s[|s| - 1].outcome == 1 then 1 else 0;
      Positives(s[..|s| - 1]) + last
  }

  function Negatives(s: seq<Pair>): nat {
    if s == [] then 0
    else
      var last := if s[|s| - 1].outcome == 0 then 1 else 0;
      Negatives(s[..|s| - 1]) + last
  }

  /** Two half points if the positive ranks above the negative, one for a tie. */
  function Against(positive: Pair, negative: Pair): nat {
    if negative.outcome != 0 then 0
    else if positive.score > negative.score then 2
    else if positive.score == negative.score then 1
    else 0
  }

  function AgainstAll(positive: Pair, s: seq<Pair>): nat {
    if s == [] then 0 else AgainstAll(positive, s[..|s| - 1]) + Against(positive, s[|s| - 1])
  }

  /** The half points of all positives of `s` against all negatives of `t`. */
  function HalfPoints(s: seq<Pair>, t: seq<Pair>): nat {
    if s == [] then 0
    else
      var last := if s[|s| - 1].outcome == 1 then AgainstAll(s[|s| - 1], t) else 0;
      HalfPoints(s[..|s| - 1], t) + last
  }

  function PairsOf(labels: seq<int>, scores: seq<real>): seq<Pair>
    requires |labels| == |scores|
  {
    seq(|labels|, i requires 0 <= i < |labels| => Pair(scores[i], labels[i]))
  }

  ghost predicate Binary(labels: seq<int>) { forall l :: l in labels ==> l == 0 || l == 1 }

  ghost predicate BinaryPairs(s: seq<Pair>) { forall p :: p in s ==> p.outcome == 0 || p.outcome == 1 }

  /** (Positive/negative pairs ranked correctly, plus half of the tied ones) over all such pairs. */
  ghost function MannWhitney(s: seq<Pair>): real {
    var pairs := Positives(s) * Negatives(s);
    if pairs == 0 then 0.5 else (HalfPoints(s, s) as real / 2.0) / pairs as real
  }

  // ---------------------------------------------------------------------------------------
  // Sums over concatenations and permutations
  // ---------------------------------------------------------------------------------------

  lemma {:induction false} CountsAppend(s: seq<Pair>, t: seq<Pair>)
    ensures Positives(s + t) == Positives(s) + Positives(t) && Negatives(s + t) == Negatives(s) + Negatives(t)
  {
    if t == [] {
      assert s + t == s;
    } else {
      assert (s + t)[..|s + t| - 1] == s + t[..|t| - 1];
      CountsAppend(s, t[..|t| - 1]);
    }
  }

  lemma {:induction false} AgainstAllAppend(p: Pair, s: seq<Pair>, t: seq<Pair>)
    ensures AgainstAll(p, s + t) == AgainstAll(p, s) + AgainstAll(p, t)
  {
    if t == [] {
      assert s + t == s;
    } else {
      assert (s + t)[..|s + t| - 1] == s + t[..|t| - 1];
      AgainstAllAppend(p, s, t[..|t| - 1]);
    }
  }

  lemma {:induction false} HalfPointsAppendLeft(s: seq<Pair>, s': seq<Pair>, t: seq<Pair>)
    ensures HalfPoints(s + s', t) == HalfPoints(s, t) + HalfPoints(s', t)
  {
    if s' == [] {
      assert s + s' == s;
    } else {
      assert (s + s')[..|s + s'| - 1] == s + s'[..|s'| - 1];
      HalfPointsAppendLeft(s, s'[..|s'| - 1], t);
    }
  }

  lemma {:induction false} HalfPointsAppendRight(s: seq<Pair>, t: seq<Pair>, t': seq<Pair>)
    ensures HalfPoints(s, t + t') == HalfPoints(s, t) + HalfPoints(s, t')
  {
    if s != [] {
      HalfPointsAppendRight(s[..|s| - 1], t, t');
      AgainstAllAppend(s[|s| - 1], t, t');
    }
  }

  /** The four sums that the statistic is made of. */
  datatype Sums = Sums(positives: nat, negatives: nat, asPositive: nat, asNegative: nat)

  function SumsOf(s: seq<Pair>, t: seq<Pair>): Sums {
    Sums(Positives(s), Negatives(s), HalfPoints(s, t), HalfPoints(t, s))
  }

  function Plus(a: Sums, b: Sums): Sums {
    Sums(a.positives + b.positives, a.negatives + b.negatives, a.asPositive + b.asPositive, a.asNegative + b.asNegative)
  }

  lemma {:induction false} SumsAppend(s: seq<Pair>, s': seq<Pair>, t: seq<Pair>)
    ensures SumsOf(s + s', t) == Plus(SumsOf(s, t), SumsOf(s', t))
  {
    hide HalfPoints, Positives, Negatives;
    CountsAppend(s, s');
    HalfPointsAppendLeft(s, s', t);
    HalfPointsAppendRight(t, s, s');
  }

  lemma RemoveOne(s: seq<Pair>, t: seq<Pair>, k: nat)
    requires k < |s|
    ensures var rest := s[..k] + s[k + 1..];
      && multiset(rest) + multiset{s[k]} == multiset(s)
      && SumsOf(s, t) == Plus(SumsOf(rest, t), SumsOf([s[k]], t))
  {
    var a, b, x := s[..k], s[k + 1..], [s[k]];
    assert s == a + (x + b);
    SumsAppend(a, x + b, t);
    SumsAppend(x, b, t);
    SumsAppend(a, b, t);
  }

  lemma Cancel(a: multiset<Pair>, b: multiset<Pair>, x: Pair)
    requires a + multiset{x} == b + multiset{x}
    ensures a == b
  {
    assert (a + multiset{x}) - multiset{x} == a;
    assert (b + multiset{x}) - multiset{x} == b;
  }

  lemma {:induction false} SumsPermute(s: seq<Pair>, s': seq<Pair>, t: seq<Pair>)
    requires multiset(s) == multiset(s')
    ensures SumsOf(s, t) == SumsOf(s', t)
  {
    SameElements(s, s');
    if s == [] {
      assert s' == [];
    } else {
      var front, last := s[..|s| - 1], s[|s| - 1];
      assert s == front + [last] && last in s';
      var k :| 0 <= k < |s'| && s'[k] == last;
      RemoveOne(s', t, k);
      SumsAppend(front, [last], t);
      assert multiset(front) + multiset{last} == multiset(s);
      Cancel(multiset(front), multiset(s'[..k] + s'[k + 1..]), last);
      SumsPermute(front, s'[..k] + s'[k + 1..], t);
    }
  }

  /** The statistic does not depend on the order of the sample. */
  lemma MannWhitneyPermutes(s: seq<Pair>, s': seq<Pair>)
    requires multiset(s) == multiset(s')
    ensures MannWhitney(s) == MannWhitney(s')
  {
    SumsPermute(s, s', s);
    SumsPermute(s, s', s');
  }

  // ---------------------------------------------------------------------------------------
  // Bounds
  // ---------------------------------------------------------------------------------------

  lemma {:induction false} AgainstAllBounded(p: Pair, s: seq<Pair>)
    ensures AgainstAll(p, s) <= 2 * Negatives(s)
  {
    if s != [] {
      AgainstAllBounded(p, s[..|s| - 1]);
    }
  }

  lemma {:induction false} HalfPointsBounded(s: seq<Pair>, t: seq<Pair>)
    ensures HalfPoints(s, t) <= 2 * (Positives(s) * Negatives(t))
  {
    if s != [] {
      HalfPointsBounded(s[..|s| - 1], t);
      AgainstAllBounded(s[|s| - 1], t);
      var p, n := Positives(s[..|s| - 1]), Negatives(t);
      assert (p + 1) * n == p * n + n;
    }
  }

  lemma DivideBounded(a: real, b: real)
    requires 0.0 <= a <= b && 0.0 < b
    ensures 0.0 <= a / b <= 1.0
  {
  }

  lemma MannWhitneyIsAProbability(s: seq<Pair>)
    ensures 0.0 <= MannWhitney(s) <= 1.0
  {
    HalfPointsBounded(s, s);
    if Positives(s) * Negatives(s) != 0 {
      DivideBounded(HalfPoints(s, s) as real / 2.0, (Positives(s) * Negatives(s)) as real);
    }
  }

  // ---------------------------------------------------------------------------------------
  // One tie group
  // ---------------------------------------------------------------------------------------

  /** All pairs of the group have the score `x`. */
  ghost predicate Tied(group: seq<Pair>, x: real) { forall p :: p in group ==> p.score == x }

  ghost predicate Below(s: seq<Pair>, x: real) { forall p :: p in s ==> p.score < x }

  lemma {:induction false} AgainstGroup(p: Pair, group: seq<Pair>, x: real)
    requires Tied(group, x)
    ensures AgainstAll(p, group) == if p.score > x then 2 * Negatives(group) else if p.score
      == x then Negatives(group) else 0
  {
    if group != [] {
      assert group[|group| - 1] in group && forall q :: q in group[..|group| - 1] ==> q in group;
      AgainstGroup(p, group[..|group| - 1], x);
    }
  }

  lemma {:induction false} AgainstLower(p: Pair, s: seq<Pair>, x: real)
    requires Below(s, x) && p.score == x
    ensures AgainstAll(p, s) == 2 * Negatives(s)
  {
    if s != [] {
      assert s[|s| - 1] in s && forall q :: q in s[..|s| - 1] ==> q in s;
      AgainstLower(p, s[..|s| - 1], x);
    }
  }

  lemma {:induction false} LowerAgainstGroup(s: seq<Pair>, group: seq<Pair>, x: real)
    requires Below(s, x) && Tied(group, x)
    ensures HalfPoints(s, group) == 0
  {
    if s != [] {
      assert s[|s| - 1] in s && forall q :: q in s[..|s| - 1] ==> q in s;
      LowerAgainstGroup(s[..|s| - 1], group, x);
      AgainstGroup(s[|s| - 1], group, x);
    }
  }

  lemma {:induction false} GroupAgainst(group: seq<Pair>, lower: seq<Pair>, ties: seq<Pair>, x: real)
    requires Below(lower, x) && Tied(group, x) && Tied(ties, x)
    ensures HalfPoints(group, lower) == Positives(group) * (2 * Negatives(lower))
    ensures HalfPoints(group, ties) == Positives(group) * Negatives(ties)
  {
    if group != [] {
      var front, last := group[..|group| - 1], group[|group| - 1];
      assert last in group && forall q :: q in front ==> q in group;
      GroupAgainst(front, lower, ties, x);
      AgainstLower(last, lower, x);
      AgainstGroup(last, ties, x);
      MulSucc(Positives(front), 2 * Negatives(lower));
      MulSucc(Positives(front), Negatives(ties));
    }
  }

  lemma MulSucc(a: int, b: int)
    ensures (a + 1) * b == a * b + b
  {
  }

  lemma {:induction false} CountsAreLengths(s: seq<Pair>)
    requires BinaryPairs(s)
    ensures Positives(s) + Negatives(s) == |s|
  {
    if s != [] {
      assert s[|s| - 1] in s && forall q :: q in s[..|s| - 1] ==> q in s;
      CountsAreLengths(s[..|s| - 1]);
    }
  }

  lemma RankAlgebra(p: int, n: int, pos: int, neg: int)
    ensures p * (p + 1) + (2 * (p + n) + 1 + pos + neg) * pos
         == (p + pos) * (p + pos + 1) + pos * (2 * n) + pos * neg
  {
  }

  /** Twice the rank sum of the positives, in closed form. */
  function DoubledRankSum(s: seq<Pair>): int {
    Positives(s) * (Positives(s) + 1) + HalfPoints(s, s)
  }

  /** Adding a tie group above the sample adds its midrank once for each of its positives. */
  lemma GroupAddsMidrank(s: seq<Pair>, group: seq<Pair>, x: real, ranks: int)
    requires ranks == |s| + 1 + |s + group|
    requires BinaryPairs(s) && BinaryPairs(group) && Below(s, x) && Tied(group, x)
    ensures DoubledRankSum(s + group) == DoubledRankSum(s) + ranks * Positives(group)
  {
    CountsAppend(s, group);
    CountsAreLengths(s);
    CountsAreLengths(group);
    HalfPointsAppendLeft(s, group, s + group);
    HalfPointsAppendRight(s, s, group);
    HalfPointsAppendRight(group, s, group);
    LowerAgainstGroup(s, group, x);
    GroupAgainst(group, s, group, x);
    var p, n, pos, neg := Positives(s), Negatives(s), Positives(group), Negatives(group);
    RankAlgebra(p, n, pos, neg);
    assert ranks == 2 * (p + n) + 1 + pos + neg;
  }

  // ---------------------------------------------------------------------------------------
  // The loop
  // ---------------------------------------------------------------------------------------

  function SumOf(labels: seq<int>): int {
    if labels == [] then 0 else SumOf(labels[..|labels| - 1]) + labels[|labels| - 1]
  }

  lemma {:induction false} SumIsPositives(labels: seq<int>, scores: seq<real>)
    requires |labels| == |scores| && Binary(labels)
    ensures Positives(PairsOf(labels, scores)) == SumOf(labels)
    ensures Negatives(PairsOf(labels, scores)) == |labels| - SumOf(labels)
  {
    if labels != [] {
      var last := |labels| - 1;
      assert PairsOf(labels, scores)[..last] == PairsOf(labels[..last], scores[..last]);
      assert labels[last] in labels && forall l :: l in labels[..last] ==> l in labels;
      SumIsPositives(labels[..last], scores[..last]);
    }
  }

  lemma PairLeIsTotal()
    ensures TotalOrder(PairLe)
  {
  }

  /** The end of the tie group that starts at `i`. */
  method GroupEnd(pairs: seq<Pair>, i: nat) returns (j: nat)
    requires i < |pairs|
    ensures i < j <= |pairs| && Tied(pairs[i..j], pairs[i].score)
    ensures j < |pairs| ==> pairs[j].score != pairs[i].score
  {
    j := i;
    while j < |pairs| && pairs[j].score == pairs[i].score
      invariant i <= j <= |pairs| && (j == i ==> pairs[j].score == pairs[i].score)
      invariant forall k :: i <= k < j ==> pairs[k].score == pairs[i].score
    {
      j := j + 1;
    }
  }

  method CountPositives(group: seq<Pair>) returns (n: nat)
    ensures n == Positives(group)
  {
    n := 0;
    for k := 0 to |group|
      invariant n == Positives(group[..k])
    {
      assert group[..k + 1][..k] == group[..k];
      if group[k].outcome == 1 {
        n := n + 1;
      }
    }
    assert group[..|group|] == group;
  }

  /** The rank sum of the positives, with midranks for ties. */
  method RankSum(pairs: seq<Pair>) returns (rankSum: real)
    requires Sorted(pairs, PairLe)
    ensures BinaryPairs(pairs) ==> rankSum * 2.0 == DoubledRankSum(pairs) as real
  {
    rankSum := 0.0;
    var i := 0;
    ghost var doubled := 0;
    while i < |pairs|
      invariant 0 <= i <= |pairs|
      invariant 0 < i < |pairs| ==> pairs[i - 1].score < pairs[i].score
      invariant rankSum * 2.0 == doubled as real
      invariant BinaryPairs(pairs) ==> doubled == DoubledRankSum(pairs[..i])
    {
      var j := GroupEnd(pairs, i);
      var midrank := (i + 1 + j) as real / 2.0;
      var n := CountPositives(pairs[i..j]);
      AddMidrank(rankSum, doubled, i + 1 + j, midrank, n);
      rankSum := rankSum + midrank * n as real;
      doubled := doubled + (i + 1 + j) * n;
      NextGroup(pairs, i, j);
      i := j;
    }
    assert pairs[..|pairs|] == pairs;
  }

  lemma AddMidrank(rankSum: real, doubled: int, ranks: int, midrank: real, n: int)
    requires rankSum * 2.0 == doubled as real && midrank == ranks as real / 2.0
    ensures (rankSum + midrank * n as real) * 2.0 == (doubled + ranks * n) as real
  {
    assert midrank * n as real * 2.0 == (ranks * n) as real;
  }

  /** The loop moves past one tie group of the sorted sample. */
  lemma NextGroup(pairs: seq<Pair>, i: nat, j: nat)
    requires Sorted(pairs, PairLe) && i < j <= |pairs| && Tied(pairs[i..j], pairs[i].score)
    requires i > 0 ==> pairs[i - 1].score < pairs[i].score
    requires j < |pairs| ==> pairs[j].score != pairs[i].score
    ensures j < |pairs| ==> pairs[j - 1].score < pairs[j].score
    ensures BinaryPairs(pairs) ==>
      DoubledRankSum(pairs[..j]) == DoubledRankSum(pairs[..i]) + (i + 1 + j) * Positives(pairs[i..j])
  {
    var lower, group := pairs[..i], pairs[i..j];
    assert pairs[..j] == lower + group;
    assert pairs[j - 1] == group[j - 1 - i] && group[j - 1 - i] in group;
    assert Below(lower, pairs[i].score);
    if BinaryPairs(pairs) {
      assert BinaryPairs(lower) && BinaryPairs(group);
      GroupAddsMidrank(lower, group, pairs[i].score, i + 1 + j);
    }
  }

  lemma ScaleDown(rankSum: real, doubled: int, positives: int, halfPoints: int, pairs: int, auc: real)
    requires rankSum * 2.0 == doubled as real && doubled == positives * (positives + 1) + halfPoints && pairs != 0
    requires auc == (halfPoints as real / 2.0) / pairs as real
    ensures (rankSum - (positives * (positives + 1)) as real / 2.0) / pairs as real == auc
  {
    assert rankSum - (positives * (positives + 1)) as real / 2.0 == halfPoints as real / 2.0;
  }

  /** The AUC before rounding; `None` if the lists differ in length. With 0/1 labels it is the
      Mann-Whitney statistic of the sample as given. */
  method RocAuc(labels: seq<int>, scores: seq<real>) returns (auc: Option<real>)
    ensures auc.None? <==> |labels| != |scores|
    ensures auc.Some? && Binary(labels) ==> auc.value == MannWhitney(PairsOf(labels, scores))
  {
    if |labels| != |scores| {
      return None;
    }
    var pairs := Sort(PairsOf(labels, scores), PairLe);
    var positives := SumOf(labels);
    var negatives := |labels| - positives;
    if positives == 0 || negatives == 0 {
      NothingToRank(labels, scores);
      return Some(0.5);
    }
    PairLeIsTotal();
    SortSorts(PairsOf(labels, scores), PairLe);
    var rankSum := RankSum(pairs);
    NonZero(positives, negatives);
    auc := Some((rankSum - (positives * (positives + 1)) as real / 2.0) / (positives * negatives) as real);
    if Binary(labels) {
      SortedSample(labels, scores, pairs);
      RanksGiveStatistic(pairs, positives, negatives, rankSum, auc.value);
    }
  }

  lemma NonZero(a: int, b: int)
    requires a != 0 && b != 0
    ensures a * b != 0
  {
  }

  lemma NothingToRank(labels: seq<int>, scores: seq<real>)
    requires |labels| == |scores|
    ensures Binary(labels) && (SumOf(labels) == 0 || |labels| - SumOf(labels) == 0) ==>
      MannWhitney(PairsOf(labels, scores)) == 0.5
  {
    if Binary(labels) {
      SumIsPositives(labels, scores);
    }
  }

  lemma InClosedForm(s: seq<Pair>, p: int, n: int)
    requires Positives(s) == p && Negatives(s) == n && p * n != 0
    ensures DoubledRankSum(s) == p * (p + 1) + HalfPoints(s, s)
    ensures MannWhitney(s) == (HalfPoints(s, s) as real / 2.0) / (p * n) as real
  {
  }

  /** From the rank sum of a sorted sample to its statistic. */
  lemma RanksGiveStatistic(sorted: seq<Pair>, p: int, n: int, rankSum: real, auc: real)
    requires Positives(sorted) == p && Negatives(sorted) == n && p * n != 0
    requires rankSum * 2.0 == DoubledRankSum(sorted) as real
    requires auc == (rankSum - (p * (p + 1)) as real / 2.0) / (p * n) as real
    ensures auc == MannWhitney(sorted)
  {
    InClosedForm(sorted, p, n);
    ScaleDown(rankSum, DoubledRankSum(sorted), p, HalfPoints(sorted, sorted), p * n, MannWhitney(sorted));
  }

  lemma PairsOfBinary(labels: seq<int>, scores: seq<real>)
    requires |labels| == |scores| && Binary(labels)
    ensures BinaryPairs(PairsOf(labels, scores))
  {
    var pairs := PairsOf(labels, scores);
    forall p | p in pairs
      ensures p.outcome == 0 || p.outcome == 1
    {
      var i :| 0 <= i < |pairs| && pairs[i] == p;
      assert labels[i] in labels;
    }
  }

  lemma SortedSample(labels: seq<int>, scores: seq<real>, sorted: seq<Pair>)
    requires |labels| == |scores| && Binary(labels) && sorted == Sort(PairsOf(labels, scores), PairLe)
    ensures BinaryPairs(sorted)
    ensures Positives(sorted) == SumOf(labels) && Negatives(sorted) == |labels| - SumOf(labels)
    ensures MannWhitney(sorted) == MannWhitney(PairsOf(labels, scores))
  {
    var pairs := PairsOf(labels, scores);
    SumIsPositives(labels, scores);
    PairsOfBinary(labels, scores);
    SortKeepsElements(pairs, PairLe);
    SameSample(sorted, pairs);
  }

  lemma SameSample(sorted: seq<Pair>, pairs: seq<Pair>)
    requires multiset(sorted) == multiset(pairs)
    ensures BinaryPairs(pairs) ==> BinaryPairs(sorted)
    ensures Positives(sorted) == Positives(pairs) && Negatives(sorted) == Negatives(pairs)
    ensures MannWhitney(sorted) == MannWhitney(pairs)
  {
    SameElements(sorted, pairs);
    SumsPermute(sorted, pairs, []);
    MannWhitneyPermutes(sorted, pairs);
  }

  // ---------------------------------------------------------------------------------------
  // The statistic over positions
  // ---------------------------------------------------------------------------------------

  /** Position `i` is a positive and `j` a negative. */
  predicate Opposed(labels: seq<int>, i: nat, j: nat) {
    i < |labels| && j < |labels| && labels[i] == 1 && labels[j] == 0
  }

  /** The pairs of a positive at `i` and a negative before `m` that the scores rank correctly. */
  ghost function RowAbove(labels: seq<int>, scores: seq<real>, i: nat, m: nat): set<(nat, nat)>
    requires |labels| == |scores|
  {
    set j: nat | j < m && Opposed(labels, i, j) && scores[i] > scores[j] :: (i, j)
  }

  ghost function RowTied(labels: seq<int>, scores: seq<real>, i: nat, m: nat): set<(nat, nat)>
    requires |labels| == |scores|
  {
    set j: nat | j < m && Opposed(labels, i, j) && scores[i] == scores[j] :: (i, j)
  }

  lemma {:induction false} RowMeans(labels: seq<int>, scores: seq<real>, i: nat, m: nat)
    requires |labels| == |scores| && i < |labels| && m <= |labels| && labels[i] == 1
    ensures AgainstAll(Pair(scores[i], labels[i]), PairsOf(labels[..m], scores[..m]))
      == 2 * |RowAbove(labels, scores, i, m)| + |RowTied(labels, scores, i, m)|
  {
    if m == 0 {
      assert RowAbove(labels, scores, i, 0) == {} && RowTied(labels, scores, i, 0) == {};
    } else {
      var last := m - 1;
      RowMeans(labels, scores, i, last);
      assert PairsOf(labels[..m], scores[..m])[..last] == PairsOf(labels[..last], scores[..last]);
      RowGrows(labels, scores, i, last);
    }
  }

  lemma RowGrows(labels: seq<int>, scores: seq<real>, i: nat, last: nat)
    requires |labels| == |scores| && i < |labels| && last < |labels| && labels[i] == 1
    ensures |RowAbove(labels, scores, i, last + 1)| == |RowAbove(labels, scores, i, last)| +
      if labels[last] == 0 && scores[i] > scores[last] then 1 else 0
    ensures |RowTied(labels, scores, i, last + 1)| == |RowTied(labels, scores, i, last)| +
      if labels[last] == 0 && scores[i] == scores[last] then 1 else 0
  {
    assert RowAbove(labels, scores, i, last + 1) == RowAbove(labels, scores, i, last) +
      if labels[last] == 0 && scores[i] > scores[last] then {(i, last)} else {};
    assert RowTied(labels, scores, i, last + 1) == RowTied(labels, scores, i, last) +
      if labels[last] == 0 && scores[i] == scores[last] then {(i, last)} else {};
  }

  ghost function Above(labels: seq<int>, scores: seq<real>, n: nat): set<(nat, nat)>
    requires |labels| == |scores|
  {
    set i: nat, j: nat | i < n && j < |labels| && Opposed(labels, i, j) && scores[i] > scores[j] :: (i, j)
  }

  ghost function Ties(labels: seq<int>, scores: seq<real>, n: nat): set<(nat, nat)>
    requires |labels| == |scores|
  {
    set i: nat, j: nat | i < n && j < |labels| && Opposed(labels, i, j) && scores[i] == scores[j] :: (i, j)
  }

  lemma {:induction false} HalfPointsMean(labels: seq<int>, scores: seq<real>, n: nat)
    requires |labels| == |scores| && n <= |labels|
    ensures HalfPoints(PairsOf(labels[..n], scores[..n]), PairsOf(labels, scores))
      == 2 * |Above(labels, scores, n)| + |Ties(labels, scores, n)|
  {
    if n == 0 {
      assert Above(labels, scores, 0) == {} && Ties(labels, scores, 0) == {};
    } else {
      var last := n - 1;
      HalfPointsMean(labels, scores, last);
      assert PairsOf(labels[..n], scores[..n])[..last] == PairsOf(labels[..last], scores[..last]);
      TableGrows(labels, scores, last);
      if labels[last] == 1 {
        RowMeans(labels, scores, last, |labels|);
        assert labels[..|labels|] == labels && scores[..|labels|] == scores;
      }
    }
  }

  lemma TableGrows(labels: seq<int>, scores: seq<real>, last: nat)
    requires |labels| == |scores| && last < |labels|
    ensures |Above(labels, scores, last + 1)|
      == |Above(labels, scores, last)| + |RowAbove(labels, scores, last, |labels|)|
    ensures |Ties(labels, scores, last + 1)|
      == |Ties(labels, scores, last)| + |RowTied(labels, scores, last, |labels|)|
    ensures labels[last] != 1 ==>
      |RowAbove(labels, scores, last, |labels|)| == 0 == |RowTied(labels, scores, last, |labels|)|
  {
    var above, ties := RowAbove(labels, scores, last, |labels|), RowTied(labels, scores, last, |labels|);
    assert Above(labels, scores, last + 1) == Above(labels, scores, last) + above;
    assert Ties(labels, scores, last + 1) == Ties(labels, scores, last) + ties;
    assert Above(labels, scores, last) !! above && Ties(labels, scores, last) !! ties;
    if labels[last] != 1 {
      assert above == {} && ties == {};
    }
  }

  /** The positions with an outcome. */
  ghost function At(labels: seq<int>, outcome: int): set<nat> { set i: nat | i < |labels| && labels[i] == outcome }

  lemma AtSnoc(front: seq<int>, last: int, outcome: int)
    ensures |At(front + [last], outcome)| == |At(front, outcome)| + if last == outcome then 1 else 0
  {
    assert At(front + [last], outcome) == At(front, outcome) + if last == outcome then {|front|} else {};
  }

  lemma {:induction false} PositivesMean(labels: seq<int>, scores: seq<real>)
    requires |labels| == |scores|
    ensures Positives(PairsOf(labels, scores)) == |At(labels, 1)|
    ensures Negatives(PairsOf(labels, scores)) == |At(labels, 0)|
  {
    if labels == [] {
      assert At(labels, 1) == {} && At(labels, 0) == {};
    } else {
      var front, last := labels[..|labels| - 1], |labels| - 1;
      assert labels == front + [labels[last]];
      assert PairsOf(labels, scores)[..last] == PairsOf(front, scores[..last]);
      PositivesMean(front, scores[..last]);
      AtSnoc(front, labels[last], 0);
      AtSnoc(front, labels[last], 1);
      hide At;
    }
  }

  /** The statistic counts positions: with `p` positives, `n` negatives, and of their pairs `above` ranked
      correctly and `ties` tied, it is (above + ties / 2) / (p n), or one half without pairs. */
  lemma StatisticMeans(labels: seq<int>, scores: seq<real>)
    requires |labels| == |scores|
    ensures var p, n := |At(labels, 1)|, |At(labels, 0)|;
      var above := set i: nat, j: nat | i < |labels| && j < |labels| && labels[i] == 1 && labels[j] == 0 &&
                                        scores[i] > scores[j] :: (i, j);
      var ties := set i: nat, j: nat | i < |labels| && j < |labels| && labels[i] == 1 && labels[j] == 0 &&
                                       scores[i] == scores[j] :: (i, j);
      MannWhitney(PairsOf(labels, scores)) ==
        if p * n == 0 then 0.5 else ((2 * |above| + |ties|) as real / 2.0) / (p * n) as real
  {
    PositivesMean(labels, scores);
    HalfPointsMean(labels, scores, |labels|);
    assert labels[..|labels|] == labels && scores[..|labels|] == scores;
    var above := set i: nat, j: nat | i < |labels| && j < |labels| && labels[i] == 1 && labels[j] == 0 &&
                                      scores[i] > scores[j] :: (i, j);
    var ties := set i: nat, j: nat | i < |labels| && j < |labels| && labels[i] == 1 && labels[j] == 0 &&
                                     scores[i] == scores[j] :: (i, j);
    assert Above(labels, scores, |labels|) == above && Ties(labels, scores, |labels|) == ties;
  }
}
