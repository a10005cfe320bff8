/** The two demonstration data sets of the program, as fixtures for the
    scorer's specification. Distances are compared through their squares,
    which select the same neighbours because the square root is monotone. */
module KnnExamples {
  import opened Counting
  import opened Points
  import opened Knn
  import opened KnnProperties

  // ---------------------------------------------------------------------
  // Example 1: fifteen integer points in three clusters
  // ---------------------------------------------------------------------

  /** `distance` on `point2<int>`, compared through its square. */
  function PointKey(a: Point2, b: Point2): real {
    SquaredDistance(a, b) as real
  }

  /** With k = 1, a query that sits on a training point no other training
      point shares is given that point's class with fraction 1. */
  lemma {:induction false} QueryOnTrainingPoint(objects: seq<Point2>, mapping: seq<nat>, i: nat,
                                                t: seq<Neighbour>, countClasses: nat)
    requires |objects| <= |mapping| && i < |objects|
    requires forall j :: 0 <= j < |objects| && j != i ==> objects[j] != objects[i]
    requires IsPartialSortOf(t, Pairs(objects, mapping, objects[i], PointKey), 1)
    ensures forall c :: 0 <= c < countClasses ==>
      VoteFractions(t[..1], countClasses)[c] == if c == mapping[i] then 1.0 else 0.0
  {
    var s := Pairs(objects, mapping, objects[i], PointKey);
    OwnPointIsStrictlyNearest(objects, mapping, i);
    NearestAlone(s, t, i, countClasses);
  }

  /** The training point the query sits on is strictly nearer than every
      other training point. */
  lemma {:induction false} OwnPointIsStrictlyNearest(objects: seq<Point2>, mapping: seq<nat>, i: nat)
    requires |objects| <= |mapping| && i < |objects|
    requires forall j :: 0 <= j < |objects| && j != i ==> objects[j] != objects[i]
    ensures |Pairs(objects, mapping, objects[i], PointKey)| == |objects|
    ensures Pairs(objects, mapping, objects[i], PointKey)[i].classId == mapping[i]
    ensures forall j :: 0 <= j < |objects| && j != i ==>
      Pairs(objects, mapping, objects[i], PointKey)[i].dist < Pairs(objects, mapping, objects[i], PointKey)[j].dist
  {
    var s := Pairs(objects, mapping, objects[i], PointKey);
    PointKeySeparates(objects[i], objects[i]);
    forall j | 0 <= j < |objects| && j != i
      ensures s[i].dist < s[j].dist
    {
      PointKeySeparates(objects[i], objects[j]);
    }
  }

  /** `PointKey` is zero exactly on equal points and positive elsewhere. */
  lemma {:induction false} PointKeySeparates(a: Point2, b: Point2)
    ensures PointKey(a, b) >= 0.0
    ensures PointKey(a, b) == 0.0 <==> a == b
  {
    SquaredDistanceIsMetricLike(a, b);
  }

  function Example1Objects(): seq<Point2> {
    [ Point2(0, 0), Point2(1, 1), Point2(2, 3), Point2(3, 2), Point2(0, 3),
      Point2(0, 6), Point2(1, 8), Point2(2, 6), Point2(3, 7), Point2(0, 8),
      Point2(8, 1), Point2(9, 2), Point2(8, 0), Point2(7, 1), Point2(10, 3) ]
  }

  function Example1Mapping(): seq<nat> {
    [0, 0, 0, 0, 0, 1, 1, 1, 1, 1, 2, 2, 2, 2, 2]
  }

  /** The `distances` vector of Example 1: query (1, 6), distances squared. */
  function Example1Pairs(): seq<Neighbour> {
    Pairs(Example1Objects(), Example1Mapping(), Point2(1, 6), PointKey)
  }

  /** Entry i of the `distances` vector, for a training point (x, y) of class
      c at squared distance d from the query (1, 6). */
  lemma {:induction false} Example1PairAt(i: nat, x: int, y: int, c: nat, d: int)
    requires i < 15 && Example1Objects()[i] == Point2(x, y) && Example1Mapping()[i] == c
    requires (x - 1) * (x - 1) + (y - 6) * (y - 6) == d
    ensures Example1Pairs()[i] == Neighbour(c, d as real)
  {
    assert Example1Pairs()[i] == Neighbour(c, PointKey(Point2(1, 6), Point2(x, y)));
  }

  /** The five class-0 points lie at squared distance 10 or more. */
  lemma {:induction false} Example1Block0()
    ensures |Example1Pairs()| == 15
    ensures Example1Pairs()[0] == Neighbour(0, 37.0)
    ensures Example1Pairs()[1] == Neighbour(0, 25.0)
    ensures Example1Pairs()[2] == Neighbour(0, 10.0)
    ensures Example1Pairs()[3] == Neighbour(0, 20.0)
    ensures Example1Pairs()[4] == Neighbour(0, 10.0)
  {
    Example1PairAt(0, 0, 0, 0, 37);
    Example1PairAt(1, 1, 1, 0, 25);
    Example1PairAt(2, 2, 3, 0, 10);
    Example1PairAt(3, 3, 2, 0, 20);
    Example1PairAt(4, 0, 3, 0, 10);
  }

  /** The five class-1 points lie within squared distance 5. */
  lemma {:induction false} Example1Block1()
    ensures Example1Pairs()[5] == Neighbour(1, 1.0)
    ensures Example1Pairs()[6] == Neighbour(1, 4.0)
    ensures Example1Pairs()[7] == Neighbour(1, 1.0)
    ensures Example1Pairs()[8] == Neighbour(1, 5.0)
    ensures Example1Pairs()[9] == Neighbour(1, 5.0)
  {
    Example1PairAt(5, 0, 6, 1, 1);
    Example1PairAt(6, 1, 8, 1, 4);
    Example1PairAt(7, 2, 6, 1, 1);
    Example1PairAt(8, 3, 7, 1, 5);
    Example1PairAt(9, 0, 8, 1, 5);
  }

  /** The five class-2 points lie at squared distance 61 or more. */
  lemma {:induction false} Example1Block2()
    ensures Example1Pairs()[10] == Neighbour(2, 74.0)
    ensures Example1Pairs()[11] == Neighbour(2, 80.0)
    ensures Example1Pairs()[12] == Neighbour(2, 85.0)
    ensures Example1Pairs()[13] == Neighbour(2, 61.0)
    ensures Example1Pairs()[14] == Neighbour(2, 90.0)
  {
    Example1PairAt(10, 8, 1, 2, 74);
    Example1PairAt(11, 9, 2, 2, 80);
    Example1PairAt(12, 8, 0, 2, 85);
    Example1PairAt(13, 7, 1, 2, 61);
    Example1PairAt(14, 10, 3, 2, 90);
  }

  /** Exactly five entries lie within 5, all five of class 1. */
  lemma {:induction false} Example1Counts()
    ensures Count(Example1Pairs(), Within(5.0)) == 5
    ensures Count(Example1Pairs(), AndWithin(OfClass(0), 5.0)) == 0
    ensures Count(Example1Pairs(), AndWithin(OfClass(1), 5.0)) == 5
    ensures Count(Example1Pairs(), AndWithin(OfClass(2), 5.0)) == 0
  {
    var s := Example1Pairs();
    Example1Block0();
    Example1Block1();
    Example1Block2();
    forall i | 0 <= i < |s|
      ensures Within(5.0)(s[i]) <==> 5 <= i < 10
      ensures AndWithin(OfClass(1), 5.0)(s[i]) <==> 5 <= i < 10
      ensures !AndWithin(OfClass(0), 5.0)(s[i]) && !AndWithin(OfClass(2), 5.0)(s[i])
    {
      assert i == 0 || i == 1 || i == 2 || i == 3 || i == 4 || i == 5 || i == 6 || i == 7
        || i == 8 || i == 9 || i == 10 || i == 11 || i == 12 || i == 13 || i == 14;
    }
    CountRange(s, Within(5.0), 5, 10);
    CountRange(s, AndWithin(OfClass(1), 5.0), 5, 10);
    CountRange(s, AndWithin(OfClass(0), 5.0), 0, 0);
    CountRange(s, AndWithin(OfClass(2), 5.0), 0, 0);
  }

  /** Query (1, 6) with k = 5: whichever admissible partial sort is taken,
      the five nearest points are the five of class 1, so the result is
      [0, 1, 0]. */
  lemma {:induction false} Example1Scores(t: seq<Neighbour>)
    requires IsPartialSortOf(t, Example1Pairs(), 5)
    ensures VoteFractions(t[..5], 3) == [0.0, 1.0, 0.0]
  {
    var s := Example1Pairs();
    Example1Counts();
    CountPermutation(s, t, Within(5.0));
    forall c: nat | c < 3
      ensures Count(t[..5], OfClass(c)) == if c == 1 then 5 else 0
    {
      PrefixCount(t, 5, 5.0, OfClass(c));
      CountPermutation(s, t, AndWithin(OfClass(c), 5.0));
    }
  }

  // ---------------------------------------------------------------------
  // Example 2: four wood samples in two classes
  // ---------------------------------------------------------------------

  /** `WoodProperties`: the length of a crack and the diameter of a knot. */
  datatype WoodProperties = WoodProperties(crackLength: real, diameterOfWoodKnot: real)

  /** `distance` on `WoodProperties`, compared through its square. */
  function WoodKey(a: WoodProperties, b: WoodProperties): real {
    var dc := b.crackLength - a.crackLength;
    var dk := b.diameterOfWoodKnot - a.diameterOfWoodKnot;
    dc * dc + dk * dk
  }

  function Example2Objects(): seq<WoodProperties> {
    [ WoodProperties(7.0, 7.0), WoodProperties(7.0, 4.0),
      WoodProperties(3.0, 4.0), WoodProperties(1.0, 4.0) ]
  }

  function Example2Mapping(): seq<nat> { [0, 0, 1, 1] }

  /** The `distances` vector of Example 2: query (3, 7), distances squared. */
  function Example2Pairs(): seq<Neighbour> {
    Pairs(Example2Objects(), Example2Mapping(), WoodProperties(3.0, 7.0), WoodKey)
  }

  lemma {:induction false} Example2Distances()
    ensures Example2Pairs() == [Neighbour(0, 16.0), Neighbour(0, 25.0), Neighbour(1, 9.0), Neighbour(1, 13.0)]
  {
    var s, o, q := Example2Pairs(), Example2Objects(), WoodProperties(3.0, 7.0);
    assert o[0] == WoodProperties(7.0, 7.0) && WoodKey(q, o[0]) == 16.0;
    assert o[1] == WoodProperties(7.0, 4.0) && WoodKey(q, o[1]) == 25.0;
    assert o[2] == WoodProperties(3.0, 4.0) && WoodKey(q, o[2]) == 9.0;
    assert o[3] == WoodProperties(1.0, 4.0) && WoodKey(q, o[3]) == 13.0;
  }

  /** The pairs in ascending distance: one admissible partial sort at k = 3,
      with distance 16 at the boundary and 25 after it, so no tie. */
  function Example2Sorted(): seq<Neighbour> {
    [Neighbour(1, 9.0), Neighbour(1, 13.0), Neighbour(0, 16.0), Neighbour(0, 25.0)]
  }

  lemma {:induction false} Example2SortedIsAdmissible()
    ensures IsPartialSortOf(Example2Sorted(), Example2Pairs(), 3)
    ensures NoTieAtBoundary(Example2Sorted(), 3)
  {
    Example2SortedIsPermutation();
    Example2SortedIsOrdered();
  }

  lemma {:induction false} Example2SortedIsPermutation()
    ensures multiset(Example2Sorted()) == multiset(Example2Pairs())
  {
    Example2Distances();
    var b, s := Example2Sorted(), Example2Pairs();
    assert b == [s[2], s[3], s[0], s[1]];
  }

  lemma {:induction false} Example2SortedIsOrdered()
    ensures PartiallySorted(Example2Sorted(), 3)
    ensures NoTieAtBoundary(Example2Sorted(), 3)
  {
    var b := Example2Sorted();
    assert b[0].dist == 9.0 && b[1].dist == 13.0 && b[2].dist == 16.0 && b[3].dist == 25.0;
  }

  /** Query (3, 7) with k = 3 ("defect" is class 0, "normal" class 1): the
      first three entries after the partial sort are (3, 4) at distance 3,
      (1, 4) at distance sqrt 13 and (7, 7) at distance 4, in that order,
      so the result is defect 1/3, normal 2/3. */
  lemma {:induction false} Example2Scores(t: seq<Neighbour>)
    requires IsPartialSortOf(t, Example2Pairs(), 3)
    ensures t[..3] == Example2Sorted()[..3]
    ensures VoteFractions(t[..3], 2) == [1.0 / 3.0, 2.0 / 3.0]
  {
    var s, b := Example2Pairs(), Example2Sorted();
    Example2SortedIsAdmissible();
    SelectionUnique(s, s, b, t, 3);
    Example2Ordered(t[..3]);
    Example2Vote();
  }

  /** The vote of the three nearest: one of class 0, two of class 1. */
  lemma {:induction false} Example2Vote()
    ensures VoteFractions(Example2Sorted()[..3], 2) == [1.0 / 3.0, 2.0 / 3.0]
  {
    var p := Example2Sorted()[..3];
    assert p == [Neighbour(1, 9.0), Neighbour(1, 13.0), Neighbour(0, 16.0)];
    forall i | 0 <= i < 3
      ensures (OfClass(0)(p[i]) <==> 2 <= i < 3) && (OfClass(1)(p[i]) <==> 0 <= i < 2)
    {
      assert i == 0 || i == 1 || i == 2;
    }
    CountRange(p, OfClass(0), 2, 3);
    CountRange(p, OfClass(1), 0, 2);
    var r := VoteFractions(p, 2);
    assert r[0] == 1.0 / 3.0 && r[1] == 2.0 / 3.0;
  }

  /** A sorted sequence with the multiset of the three selected entries is
      exactly those entries in ascending order. */
  lemma {:induction false} Example2Ordered(p: seq<Neighbour>)
    requires multiset(p) == multiset(Example2Sorted()[..3])
    requires |p| == 3 && p[0].dist <= p[1].dist <= p[2].dist
    ensures p == Example2Sorted()[..3]
  {
    var b := Example2Sorted()[..3];
    assert p[0] in multiset(b) && p[1] in multiset(b) && p[2] in multiset(b);
    assert b[0] in multiset(p) && b[1] in multiset(p) && b[2] in multiset(p);
  }
}
