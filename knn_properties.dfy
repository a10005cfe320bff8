/** What the scorer promises, stated over the specification functions of
    module Knn: the fractions are bounded and add up, the neighbour set is
    the same for every admissible partial sort when there is no tie at the
    k-th distance, permuting the training set changes no admissible
    outcome, and with k equal to the number of objects the vote is
    the global class frequency. */
module KnnProperties {
  import opened Counting
  import opened Knn

  // ---------------------------------------------------------------------
  // Fractions
  // ---------------------------------------------------------------------

  /** Every fraction lies in [0, 1]. */
  lemma {:induction false} FractionsInUnitInterval(selected: seq<Neighbour>, countClasses: nat)
    requires |selected| > 0
    ensures forall c :: 0 <= c < countClasses ==> 0.0 <= VoteFractions(selected, countClasses)[c] <= 1.0
  {
    forall c | 0 <= c < countClasses
      ensures 0.0 <= VoteFractions(selected, countClasses)[c] <= 1.0
    {
      var n := Count(selected, OfClass(c));
      QuotientAtMostOne(n as real, |selected| as real);
    }
  }

  lemma {:induction false} QuotientAtMostOne(n: real, k: real)
    requires 0.0 <= n <= k && k > 0.0
    ensures 0.0 <= n / k <= 1.0
  {
  }

  /** Splitting "class below m + 1" into "class below m" and "class m". */
  lemma {:induction false} CountBelowStep(s: seq<Neighbour>, m: nat)
    ensures Count(s, Below(m + 1)) == Count(s, Below(m)) + Count(s, OfClass(m))
  {
    if |s| > 0 {
      CountBelowStep(s[..|s| - 1], m);
    }
  }

  /** The fractions of the first m classes add up to the share of selected
      neighbours whose class is below m. */
  lemma {:induction false} FractionsSum(selected: seq<Neighbour>, m: nat)
    requires |selected| > 0
    ensures Sum(VoteFractions(selected, m)) == Count(selected, Below(m)) as real / |selected| as real
  {
    var k := |selected| as real;
    if m == 0 {
      CountEmpty(selected, Below(0));
    } else {
      var r := VoteFractions(selected, m);
      assert r[..m - 1] == VoteFractions(selected, m - 1);
      FractionsSum(selected, m - 1);
      CountBelowStep(selected, m - 1);
      var a := Count(selected, Below(m - 1)) as real;
      var b := Count(selected, OfClass(m - 1)) as real;
      assert Sum(r) == a / k + b / k;
      QuotientsAdd(a, b, k);
    }
  }

  lemma {:induction false} QuotientsAdd(a: real, b: real, k: real)
    requires k != 0.0
    ensures a / k + b / k == (a + b) / k
  {
  }

  /** When every selected neighbour's class is below countClasses, the
      fractions add up to one. */
  lemma {:induction false} FractionsSumToOne(selected: seq<Neighbour>, countClasses: nat)
    requires |selected| > 0
    requires forall i :: 0 <= i < |selected| ==> selected[i].classId < countClasses
    ensures Sum(VoteFractions(selected, countClasses)) == 1.0
  {
    FractionsSum(selected, countClasses);
    assert forall i :: 0 <= i < |selected| ==> Below(countClasses)(selected[i]);
    CountFull(selected, Below(countClasses));
    var k := |selected| as real;
    assert Count(selected, Below(countClasses)) as real == k;
    SelfQuotient(k);
  }

  lemma {:induction false} SelfQuotient(k: real)
    requires k != 0.0
    ensures k / k == 1.0
  {
  }

  /** Whatever the classes, the fractions never add up to more than one. */
  lemma {:induction false} FractionsSumAtMostOne(selected: seq<Neighbour>, countClasses: nat)
    requires |selected| > 0
    ensures Sum(VoteFractions(selected, countClasses)) <= 1.0
  {
    FractionsSum(selected, countClasses);
    QuotientAtMostOne(Count(selected, Below(countClasses)) as real, |selected| as real);
  }

  /** A class index at or above countClasses is never counted: one neighbour
      of class 1 scored with a single class gives the fraction 0, so the sum
      falls below one. */
  lemma {:induction false} UnlistedClassIsDropped()
    ensures VoteFractions([Neighbour(1, 0.0)], 1) == [0.0]
    ensures Sum(VoteFractions([Neighbour(1, 0.0)], 1)) == 0.0
  {
    var s := [Neighbour(1, 0.0)];
    assert s[..0] == [];
    assert Count(s, OfClass(0)) == 0;
  }

  /** The fractions depend only on the multiset of selected neighbours. */
  lemma {:induction false} FractionsDependOnMultiset(a: seq<Neighbour>, b: seq<Neighbour>, countClasses: nat)
    requires |a| > 0 && multiset(a) == multiset(b)
    ensures |b| == |a|
    ensures VoteFractions(a, countClasses) == VoteFractions(b, countClasses)
  {
    assert |a| == |multiset(a)| == |multiset(b)| == |b|;
    forall c | 0 <= c < countClasses
      ensures VoteFractions(a, countClasses)[c] == VoteFractions(b, countClasses)[c]
    {
      CountPermutation(a, b, OfClass(c));
    }
  }

  // ---------------------------------------------------------------------
  // The scorer's result
  // ---------------------------------------------------------------------

  /** Every entry of an admissible partial sort of the pairs carries a class
      taken from the mapping. */
  lemma {:induction false} ClassesComeFromMapping<T>(objects: seq<T>, mapping: seq<nat>, query: T,
                                  distance: (T, T) -> real, k: nat, t: seq<Neighbour>, i: nat)
    requires |objects| <= |mapping|
    requires IsPartialSortOf(t, Pairs(objects, mapping, query, distance), k)
    requires i < |t|
    ensures exists j :: 0 <= j < |objects| && t[i].classId == mapping[j]
  {
    var s := Pairs(objects, mapping, query, distance);
    assert t[i] in multiset(t);
    assert t[i] in s;
    var j :| 0 <= j < |s| && s[j] == t[i];
  }

  /** If every mapped class is below countClasses, the scorer's fractions add
      up to one, for every admissible partial sort. */
  lemma {:induction false} ScoresSumToOne<T>(k: nat, countClasses: nat, objects: seq<T>, mapping: seq<nat>,
                          query: T, distance: (T, T) -> real, t: seq<Neighbour>)
    requires 1 <= k <= |objects| <= |mapping|
    requires forall j :: 0 <= j < |objects| ==> mapping[j] < countClasses
    requires IsPartialSortOf(t, Pairs(objects, mapping, query, distance), k)
    ensures Sum(VoteFractions(t[..k], countClasses)) == 1.0
  {
    assert |t| == |multiset(t)| == |objects|;
    forall i | 0 <= i < k ensures t[..k][i].classId < countClasses {
      ClassesComeFromMapping(objects, mapping, query, distance, k, t, i);
    }
    FractionsSumToOne(t[..k], countClasses);
  }

  /** Pairing preserves class counts: the pairs hold as many entries of
      class c as the used part of the mapping holds c. */
  lemma {:induction false} PairsCountClass<T>(objects: seq<T>, mapping: seq<nat>, query: T,
                                              distance: (T, T) -> real, c: nat)
    requires |objects| <= |mapping|
    ensures Count(Pairs(objects, mapping, query, distance), OfClass(c)) == Count(mapping[..|objects|], Is(c))
  {
    var n := |objects|;
    if n > 0 {
      var s := Pairs(objects, mapping, query, distance);
      assert s[..n - 1] == Pairs(objects[..n - 1], mapping, query, distance);
      assert mapping[..n][..n - 1] == mapping[..n - 1];
      PairsCountClass(objects[..n - 1], mapping, query, distance, c);
    }
  }

  /** With k equal to the number of objects every object is a neighbour, so
      the fraction of class c is its frequency in the mapping, whatever the
      distances are. */
  lemma {:induction false} WholeSetIsGlobalFrequency<T>(countClasses: nat, objects: seq<T>, mapping: seq<nat>,
                                     query: T, distance: (T, T) -> real, t: seq<Neighbour>)
    requires 1 <= |objects| <= |mapping|
    requires IsPartialSortOf(t, Pairs(objects, mapping, query, distance), |objects|)
    ensures forall c: nat :: c < countClasses ==>
      VoteFractions(t[..|objects|], countClasses)[c] == Count(mapping[..|objects|], Is(c)) as real / |objects| as real
  {
    var s := Pairs(objects, mapping, query, distance);
    assert |t| == |multiset(t)| == |multiset(s)| == |objects|;
    assert t[..|objects|] == t;
    forall c: nat | c < countClasses
      ensures VoteFractions(t, countClasses)[c] == Count(mapping[..|objects|], Is(c)) as real / |objects| as real
    {
      CountPermutation(t, s, OfClass(c));
      PairsCountClass(objects, mapping, query, distance, c);
    }
  }

  // ---------------------------------------------------------------------
  // Which neighbours are selected
  // ---------------------------------------------------------------------

  /** The k-th smallest distance, t[k - 1].dist, is strictly below every
      distance after the first k: the selection has no tie to break. */
  ghost predicate NoTieAtBoundary(t: seq<Neighbour>, k: nat) {
    0 < k <= |t| && forall j :: k <= j < |t| ==> t[k - 1].dist < t[j].dist
  }

  /** If the last selected distance exceeds d, fewer than k entries lie
      within d. */
  lemma {:induction false} WithinCountBound(t: seq<Neighbour>, k: nat, d: real)
    requires PartiallySorted(t, k) && 0 < k
    ensures t[k - 1].dist > d ==> Count(t, Within(d)) < k
  {
    if t[k - 1].dist > d {
      CountSplit(t, k, Within(d));
      CountEmpty(t[k..], Within(d));
      CountFull(t[..k], Within(d));
    }
  }

  /** When exactly k entries lie within d, the first k entries of an
      admissible partial sort are those entries. */
  lemma {:induction false} PrefixIsThresholdSet(t: seq<Neighbour>, k: nat, d: real)
    requires PartiallySorted(t, k) && 0 < k
    requires Count(t, Within(d)) == k
    ensures forall i :: 0 <= i < k ==> t[i].dist <= d
    ensures forall i :: k <= i < |t| ==> d < t[i].dist
  {
    WithinCountBound(t, k, d);
    PrefixWithin(t, k, d);
    SuffixBeyond(t, k, d);
  }

  lemma {:induction false} PrefixWithin(t: seq<Neighbour>, k: nat, d: real)
    requires PartiallySorted(t, k) && 0 < k && t[k - 1].dist <= d
    ensures forall i :: 0 <= i < k ==> t[i].dist <= d
  {
  }

  /** If the first k entries lie within d and only k entries do, every later
      entry lies beyond d. */
  lemma {:induction false} SuffixBeyond(t: seq<Neighbour>, k: nat, d: real)
    requires k <= |t|
    requires forall i :: 0 <= i < k ==> t[i].dist <= d
    requires Count(t, Within(d)) == k
    ensures forall i :: k <= i < |t| ==> d < t[i].dist
  {
    var pre, suf := t[..k], t[k..];
    assert forall i :: 0 <= i < |pre| ==> Within(d)(pre[i]);
    CountFull(pre, Within(d));
    CountSplit(t, k, Within(d));
    CountEmpty(suf, Within(d));
    forall i | k <= i < |t| ensures d < t[i].dist {
      assert !Within(d)(suf[i - k]);
    }
  }

  /** Under the same condition, counting any property over the first k
      entries is counting it over the entries within d. */
  lemma {:induction false} PrefixCount(t: seq<Neighbour>, k: nat, d: real, p: Neighbour -> bool)
    requires PartiallySorted(t, k) && 0 < k
    requires Count(t, Within(d)) == k
    ensures Count(t[..k], p) == Count(t, AndWithin(p, d))
  {
    PrefixIsThresholdSet(t, k, d);
    CountSplit(t, k, AndWithin(p, d));
    CountAgree(t[..k], p, AndWithin(p, d));
    CountEmpty(t[k..], AndWithin(p, d));
  }

  /** Without a tie at the k-th distance, every admissible partial sort of
      the same pairs (in any order) selects the same multiset of neighbours,
      and so gives the same fractions. */
  lemma {:induction false} SelectionUnique(s1: seq<Neighbour>, s2: seq<Neighbour>, t1: seq<Neighbour>, t2: seq<Neighbour>, k: nat)
    requires multiset(s1) == multiset(s2)
    requires IsPartialSortOf(t1, s1, k) && IsPartialSortOf(t2, s2, k)
    requires NoTieAtBoundary(t1, k)
    ensures multiset(t1[..k]) == multiset(t2[..k])
    ensures forall countClasses: nat ::
      VoteFractions(t1[..k], countClasses) == VoteFractions(t2[..k], countClasses)
  {
    var d := t1[k - 1].dist;
    BoundaryCount(t1, k);
    CountPermutation(t1, t2, Within(d));
    assert |t2| == |multiset(t2)| == |multiset(t1)| == |t1|;
    SamePrefixMultiset(t1, t2, k, d);
    forall countClasses: nat
      ensures VoteFractions(t1[..k], countClasses) == VoteFractions(t2[..k], countClasses)
    {
      FractionsDependOnMultiset(t1[..k], t2[..k], countClasses);
    }
  }

  /** Without a tie, exactly k entries lie within the k-th distance. */
  lemma {:induction false} BoundaryCount(t: seq<Neighbour>, k: nat)
    requires PartiallySorted(t, k) && NoTieAtBoundary(t, k)
    ensures Count(t, Within(t[k - 1].dist)) == k
  {
    var d := t[k - 1].dist;
    PrefixWithin(t, k, d);
    var pre, suf := t[..k], t[k..];
    assert forall i :: 0 <= i < |pre| ==> Within(d)(pre[i]);
    assert forall i :: 0 <= i < |suf| ==> !Within(d)(suf[i]);
    CountSplit(t, k, Within(d));
    CountFull(pre, Within(d));
    CountEmpty(suf, Within(d));
  }

  /** Two admissible partial sorts of the same multiset with exactly k
      entries within d select the same multiset of entries. */
  lemma {:induction false} SamePrefixMultiset(t1: seq<Neighbour>, t2: seq<Neighbour>, k: nat, d: real)
    requires multiset(t1) == multiset(t2)
    requires PartiallySorted(t1, k) && PartiallySorted(t2, k) && 0 < k
    requires Count(t1, Within(d)) == k && Count(t2, Within(d)) == k
    ensures multiset(t1[..k]) == multiset(t2[..k])
  {
    forall e
      ensures multiset(t1[..k])[e] == multiset(t2[..k])[e]
    {
      CountIsMultiplicity(t1[..k], e);
      CountIsMultiplicity(t2[..k], e);
      PrefixCount(t1, k, d, Is(e));
      PrefixCount(t2, k, d, Is(e));
      CountPermutation(t1, t2, AndWithin(Is(e), d));
    }
    assert multiset(t1[..k]) == multiset(t2[..k]);
  }

  // ---------------------------------------------------------------------
  // Permuting the training set
  // ---------------------------------------------------------------------

  /** perm lists every index below n exactly once. */
  predicate IsPerm(perm: seq<nat>, n: nat) {
    && |perm| == n
    && (forall i :: 0 <= i < n ==> perm[i] < n)
    && (forall i, j :: 0 <= i < j < n ==> perm[i] != perm[j])
  }

  /** s rearranged so that entry i is s[perm[i]]. */
  function Reorder<T>(s: seq<T>, perm: seq<nat>): seq<T>
    requires forall i :: 0 <= i < |perm| ==> perm[i] < |s|
  {
    seq(|perm|, i requires 0 <= i < |perm| => s[perm[i]])
  }

  /** Rearranging a sequence by a permutation keeps its multiset. */
  lemma {:induction false} ReorderMultiset<T>(s: seq<T>, perm: seq<nat>)
    requires IsPerm(perm, |s|)
    ensures multiset(Reorder(s, perm)) == multiset(s)
    decreases |s|
  {
    var n := |s|;
    if n == 0 {
      assert Reorder(s, perm) == [];
    } else {
      var r := Reorder(s, perm);
      var m := perm[n - 1];
      var s' := s[..m] + s[m + 1..];
      var perm' := Shifted(perm[..n - 1], m);
      ShiftedRemovesLast(s, perm);
      ReorderMultiset(s', perm');
      PutBack(s, r, m);
    }
  }

  /** If r without its last entry s[m] is s without s[m], r and s hold the
      same multiset. */
  lemma {:induction false} PutBack<T>(s: seq<T>, r: seq<T>, m: nat)
    requires m < |s| && 0 < |r| && r[|r| - 1] == s[m]
    requires multiset(r[..|r| - 1]) == multiset(s[..m] + s[m + 1..])
    ensures multiset(r) == multiset(s)
  {
    MultisetRemove(s, m);
    assert r == r[..|r| - 1] + [s[m]];
    assert s[m] in multiset(s);
  }

  /** The indices of perm with every index above m moved down by one. */
  function Shifted(perm: seq<nat>, m: nat): seq<nat> {
    seq(|perm|, i requires 0 <= i < |perm| => if perm[i] <= m then perm[i] else perm[i] - 1)
  }

  /** Taking s[perm[n - 1]] out of s and shifting the other indices down
      leaves a permutation that rearranges the rest of s as perm did. */
  lemma {:induction false} ShiftedRemovesLast<T>(s: seq<T>, perm: seq<nat>)
    requires IsPerm(perm, |s|) && |s| > 0
    ensures IsPerm(Shifted(perm[..|s| - 1], perm[|s| - 1]), |s| - 1)
    ensures Reorder(s[..perm[|s| - 1]] + s[perm[|s| - 1] + 1..], Shifted(perm[..|s| - 1], perm[|s| - 1]))
         == Reorder(s, perm)[..|s| - 1]
  {
    var n, m := |s|, perm[|s| - 1];
    var perm' := Shifted(perm[..n - 1], m);
    forall i | 0 <= i < n - 1
      ensures perm[i] != m && perm'[i] < n - 1
    {
      assert perm[i] != perm[n - 1];
    }
  }

  /** Permuting `objects` and `mapping` together permutes the `distances`
      vector the same way, so it keeps its multiset. */
  lemma {:induction false} PermutedInputsSamePairs<T>(objects: seq<T>, mapping: seq<nat>, perm: seq<nat>,
                                                       query: T, distance: (T, T) -> real)
    requires |objects| <= |mapping| && IsPerm(perm, |objects|)
    ensures multiset(Pairs(Reorder(objects, perm), Reorder(mapping[..|objects|], perm), query, distance))
         == multiset(Pairs(objects, mapping, query, distance))
  {
    var s := Pairs(objects, mapping, query, distance);
    assert Pairs(Reorder(objects, perm), Reorder(mapping[..|objects|], perm), query, distance)
        == Reorder(s, perm);
    ReorderMultiset(s, perm);
  }

  /** The admissible outcomes of the partial sort are the same for permuted
      inputs, ties or not. */
  lemma {:induction false} SameAdmissibleOutcomes<T>(objects: seq<T>, mapping: seq<nat>, perm: seq<nat>,
                                                     query: T, distance: (T, T) -> real, k: nat)
    requires |objects| <= |mapping| && IsPerm(perm, |objects|)
    ensures forall t ::
      IsPartialSortOf(t, Pairs(objects, mapping, query, distance), k) <==>
      IsPartialSortOf(t, Pairs(Reorder(objects, perm), Reorder(mapping[..|objects|], perm), query, distance), k)
  {
    PermutedInputsSamePairs(objects, mapping, perm, query, distance);
  }

  /** Without a tie at the k-th distance, permuting `objects` and `mapping`
      together leaves the scores unchanged. */
  lemma {:induction false} PermutedInputsSameVote<T>(objects: seq<T>, mapping: seq<nat>, perm: seq<nat>,
                                                     query: T, distance: (T, T) -> real, k: nat,
                                                     t1: seq<Neighbour>, t2: seq<Neighbour>)
    requires |objects| <= |mapping| && IsPerm(perm, |objects|)
    requires IsPartialSortOf(t1, Pairs(objects, mapping, query, distance), k)
    requires IsPartialSortOf(t2, Pairs(Reorder(objects, perm), Reorder(mapping[..|objects|], perm), query, distance), k)
    requires NoTieAtBoundary(t1, k)
    ensures forall countClasses: nat ::
      VoteFractions(t1[..k], countClasses) == VoteFractions(t2[..k], countClasses)
  {
    PermutedInputsSamePairs(objects, mapping, perm, query, distance);
    SelectionUnique(Pairs(objects, mapping, query, distance),
                    Pairs(Reorder(objects, perm), Reorder(mapping[..|objects|], perm), query, distance),
                    t1, t2, k);
  }

  /** With k = 1 the strictly nearest pair is the one selected, and its
      class takes the whole vote. */
  lemma {:induction false} NearestAlone(s: seq<Neighbour>, t: seq<Neighbour>, i: nat, countClasses: nat)
    requires i < |s| && IsPartialSortOf(t, s, 1)
    requires forall j :: 0 <= j < |s| && j != i ==> s[i].dist < s[j].dist
    ensures t[..1] == [s[i]]
    ensures forall c :: 0 <= c < countClasses ==>
      VoteFractions(t[..1], countClasses)[c] == if c == s[i].classId then 1.0 else 0.0
  {
    assert |t| == |multiset(t)| == |multiset(s)| == |s|;
    assert t[0] in multiset(s);
    var m :| 0 <= m < |s| && s[m] == t[0];
    assert s[i] in multiset(t);
    var j :| 0 <= j < |t| && t[j] == s[i];
    assert s[m].dist <= s[i].dist by {
      if j != 0 { assert t[0].dist <= t[j].dist; }
    }
    assert m == i;
    assert t[..1] == [s[i]];
    forall c | 0 <= c < countClasses
      ensures VoteFractions(t[..1], countClasses)[c] == if c == s[i].classId then 1.0 else 0.0
    {
      CountSingleton(s[i], OfClass(c));
    }
  }

  /** With a tie at the k-th distance the outcome is genuinely open: two
      neighbours at the same distance, k = 1, and both orders are admissible
      partial sorts that give different fractions. */
  lemma {:induction false} TieLeavesChoiceOpen()
    ensures var s := [Neighbour(0, 1.0), Neighbour(1, 1.0)];
      && IsPartialSortOf(s, s, 1)
      && IsPartialSortOf([s[1], s[0]], s, 1)
      && VoteFractions(s[..1], 2) == [1.0, 0.0]
      && VoteFractions([s[1], s[0]][..1], 2) == [0.0, 1.0]
  {
    var s := [Neighbour(0, 1.0), Neighbour(1, 1.0)];
    var u := [s[1], s[0]];
    assert multiset(u) == multiset(s) by {
      assert u == [s[1]] + [s[0]];
      assert s == [s[0]] + [s[1]];
    }
    assert s[..1] == [s[0]] && u[..1] == [s[1]];
    VoteOfOne(s[0]);
    VoteOfOne(s[1]);
  }

  /** A single selected neighbour of class 0 or 1, scored over two classes. */
  lemma {:induction false} VoteOfOne(n: Neighbour)
    requires n.classId < 2
    ensures VoteFractions([n], 2) == if n.classId == 0 then [1.0, 0.0] else [0.0, 1.0]
  {
    CountSingleton(n, OfClass(0));
    CountSingleton(n, OfClass(1));
  }
}
