/** The k-nearest-neighbours scorer `knn`: pair every training object's
    class with its distance to the query, partially sort the pairs so that
    the k nearest come first in ascending order, and give every class the
    fraction of those k pairs that carry it.

    The distance is an abstract key `(T, T) -> real`; the selection is
    specified relationally, because `std::partial_sort` leaves the order of
    pairs with equal distances unspecified. */
module Knn {
  import opened Counting

  /** One entry of the `distances` vector: the class index of a training
      object and its distance to the query. */
  datatype Neighbour = Neighbour(classId: nat, dist: real)

  /** What `knn` gives back: the per-class fractions, or the
      `std::out_of_range` that `mapping.at` throws when the mapping is
      shorter than the object list. */
  datatype Outcome = Scores(fractions: seq<real>) | OutOfRange

  // ---------------------------------------------------------------------
  // Specification
  // ---------------------------------------------------------------------

  /** The `distances` vector as the first loop fills it: entry i pairs
      mapping[i] with the distance from the query to objects[i]. */
  function Pairs<T>(objects: seq<T>, mapping: seq<nat>, query: T, distance: (T, T) -> real): seq<Neighbour>
    requires |objects| <= |mapping|
  {
    seq(|objects|, i requires 0 <= i < |objects| => Neighbour(mapping[i], distance(query, objects[i])))
  }

  /** What `std::partial_sort(first, first + k, last)` guarantees: the first
      k entries are in non-decreasing distance, and none of them is farther
      than any entry after them. */
  ghost predicate PartiallySorted(t: seq<Neighbour>, k: nat) {
    && k <= |t|
    && (forall i, j :: 0 <= i < j < k ==> t[i].dist <= t[j].dist)
    && (forall i, j :: 0 <= i < k <= j < |t| ==> t[i].dist <= t[j].dist)
  }

  /** t is one admissible outcome of partially sorting s at k. */
  ghost predicate IsPartialSortOf(t: seq<Neighbour>, s: seq<Neighbour>, k: nat) {
    multiset(t) == multiset(s) && PartiallySorted(t, k)
  }

  function OfClass(c: nat): Neighbour -> bool { (n: Neighbour) => n.classId == c }

  function Within(d: real): Neighbour -> bool { (n: Neighbour) => n.dist <= d }

  function Below(m: nat): Neighbour -> bool { (n: Neighbour) => n.classId < m }

  /** p restricted to the entries no farther than d. */
  function AndWithin(p: Neighbour -> bool, d: real): Neighbour -> bool { (n: Neighbour) => p(n) && n.dist <= d }

  /** The `results` vector for the selected neighbours: entry c is the number
      of selected neighbours of class c divided by their number k. */
  function VoteFractions(selected: seq<Neighbour>, countClasses: nat): (r: seq<real>)
    requires |selected| > 0 || countClasses == 0
    ensures |r| == countClasses
  {
    seq(countClasses, c requires 0 <= c < countClasses => Count(selected, OfClass(c)) as real / |selected| as real)
  }

  function Sum(r: seq<real>): real {
    if |r| == 0 then 0.0 else Sum(r[..|r| - 1]) + r[|r| - 1]
  }

  // ---------------------------------------------------------------------
  // The scorer
  // ---------------------------------------------------------------------

  /** `knn(k, countClasses, objects, mapping, newObject)`. The result is the
      vote of the first k entries of SOME admissible partial sort of the
      pairs; which one is left open, as it is by `std::partial_sort`. */
  method Classify<T>(k: nat, countClasses: nat, objects: seq<T>, mapping: seq<nat>,
                     newObject: T, distance: (T, T) -> real)
    returns (result: Outcome)
    requires k <= |objects| && (1 <= k || countClasses == 0)
    ensures result.OutOfRange? <==> |mapping| < |objects|
    ensures result.Scores? ==>
      exists t :: IsPartialSortOf(t, Pairs(objects, mapping, newObject, distance), k) &&
                  result.fractions == VoteFractions(t[..k], countClasses)
  {
    var distances := new Neighbour[|objects|];
    var objectId := 0;
    while objectId < |objects|
      invariant 0 <= objectId <= |objects| && objectId <= |mapping|
      invariant forall i :: 0 <= i < objectId ==>
        distances[i] == Neighbour(mapping[i], distance(newObject, objects[i]))
    {
      if objectId >= |mapping| {
        return OutOfRange;
      }
      distances[objectId] := Neighbour(mapping[objectId], distance(newObject, objects[objectId]));
      objectId := objectId + 1;
    }
    ghost var pairs := Pairs(objects, mapping, newObject, distance);
    assert distances[..] == pairs;

    PartialSort(distances, k);
    ghost var t := distances[..];
    assert IsPartialSortOf(t, pairs, k);

    var results := new real[countClasses];
    var classId := 0;
    while classId < countClasses
      invariant 0 <= classId <= countClasses
      invariant distances[..] == t
      invariant forall c :: 0 <= c < classId ==> results[c] == VoteFractions(t[..k], countClasses)[c]
    {
      var count := CountOfClass(distances, k, classId);
      results[classId] := count as real / k as real;
      classId := classId + 1;
    }
    assert results[..] == VoteFractions(t[..k], countClasses);
    result := Scores(results[..]);
  }

  /** The `std::partial_sort` step: reorders a in place so that its first k
      entries are the k nearest, in ascending distance. Each round moves a
      nearest entry of the unsorted rest to the front of that rest. */
  method PartialSort(a: array<Neighbour>, k: nat)
    requires k <= a.Length
    modifies a
    ensures multiset(a[..]) == multiset(old(a[..]))
    ensures PartiallySorted(a[..], k)
  {
    var i := 0;
    while i < k
      invariant 0 <= i <= k
      invariant multiset(a[..]) == multiset(old(a[..]))
      invariant forall p, q :: 0 <= p < q < i ==> a[p].dist <= a[q].dist
      invariant forall p, q :: 0 <= p < i <= q < a.Length ==> a[p].dist <= a[q].dist
    {
      var m := IndexOfNearest(a, i);
      Swap(a, i, m);
      i := i + 1;
    }
  }

  /** Exchanges a[i] and a[j], leaving every other entry in place. */
  method Swap(a: array<Neighbour>, i: nat, j: nat)
    requires i < a.Length && j < a.Length
    modifies a
    ensures a[i] == old(a[j]) && a[j] == old(a[i])
    ensures forall p :: 0 <= p < a.Length && p != i && p != j ==> a[p] == old(a[p])
    ensures multiset(a[..]) == multiset(old(a[..]))
  {
    a[i], a[j] := a[j], a[i];
  }

  /** The position of a nearest entry among a[from..]. */
  method IndexOfNearest(a: array<Neighbour>, from: nat) returns (m: nat)
    requires from < a.Length
    ensures from <= m < a.Length
    ensures forall j :: from <= j < a.Length ==> a[m].dist <= a[j].dist
  {
    m := from;
    var j := from + 1;
    while j < a.Length
      invariant from <= m < j <= a.Length
      invariant forall i :: from <= i < j ==> a[m].dist <= a[i].dist
    {
      if a[j].dist < a[m].dist {
        m := j;
      }
      j := j + 1;
    }
  }

  /** The `std::count_if` over the first k entries: how many carry classId. */
  method CountOfClass(a: array<Neighbour>, k: nat, classId: nat) returns (count: nat)
    requires k <= a.Length
    ensures count == Count(a[..k], OfClass(classId))
  {
    count := 0;
    var j := 0;
    while j < k
      invariant 0 <= j <= k
      invariant count == Count(a[..j], OfClass(classId))
    {
      assert a[..j + 1][..j] == a[..j];
      if a[j].classId == classId {
        count := count + 1;
      }
      j := j + 1;
    }
  }
}
