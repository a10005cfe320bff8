# k-nearest-neighbours scorer and integer points, in Dafny

This project models the two pieces of the Knn repository that hold its
logic:

- the scorer `knn(k, countClasses, objects, mapping, newObject)`. It pairs
  every training object's class index with its distance to the query. It
  then partially sorts the pairs with `std::partial_sort`, so that the k
  nearest come first in ascending order. Finally it gives every class
  `0 .. countClasses - 1` the fraction of those k pairs that carry it;
- the value type `point2<int>` and its free helpers: accessors,
  functional updaters, componentwise arithmetic, equality, `transposed`,
  `dot_product`, `is_null`/`null_point` and the orientation test
  `is_left_turn`.

Modules:

- `Counting` (`counting.dfy`): `std::count_if` as a recursive function
  `Count`, with splitting, bounds and invariance under permutation.
- `Points` (`points.dfy`): `point2<int>` as the datatype `Point2` with pure
  functions and lemmas. C++ integer division is modelled explicitly as
  truncation toward zero (`TruncDiv`), because Dafny's `/` is Euclidean.
- `Knn` (`knn.dfy`): the scorer as the imperative method `Knn.Classify`
  over arrays. It has the same three phases as the source:
  - a loop that fills the `distances` array, returning `OutOfRange` where
    `mapping.at` throws;
  - an in-place partial sort;
  - a loop over class indices that counts each class among the first k
    entries and divides by k.

  `std::partial_sort` does not fix an order for equal distances. So its
  contract, and the scorer's, are relational: the result is the vote of
  the first k entries of *some* permutation whose first k entries are
  ascending and no farther than any later entry (`IsPartialSortOf`).
- `KnnProperties` (`knn_properties.dfy`): what the result means.
  - Every fraction lies in [0, 1].
  - The fractions add up to one when every mapped class is listed.
  - A class index at or above `countClasses` is silently dropped.
  - With k equal to the number of objects, the vote is the global class
    frequency.
  - Without a tie at the k-th distance, every admissible partial sort gives
    the same result. With a tie, two admissible sorts can give different
    results.
  - Permuting `objects` and `mapping` together leaves the admissible
    partial sorts unchanged, so without a tie the scores are unchanged.
- `KnnExamples` (`examples_knn.dfy`): the two data sets of the program's
  demonstration drivers, as fixtures.
  - Example 1: query (1, 6), k = 5. The five nearest points are the five
    of class 1, so the result is [0, 1, 0].
  - Example 2: query (3, 7), k = 3. The three nearest samples are (3, 4)
    at distance 3, (1, 4) at distance √13 and (7, 7) at distance 4. That
    gives defect 1/3 and normal 2/3. The sample (7, 4) lies at distance 5
    and is not among them.

Distances are an abstract key `(T, T) -> real`. The fixtures use the
squared Euclidean distance. The square root is monotone, so the squares
select the same neighbours.

## Model

| member | source | states |
|---|---|---|
| Knn.Classify | Knn/main.cpp:11-38 | For k ≤ \|objects\|, with k ≥ 1 or no classes, the result is `OutOfRange` exactly when the mapping is shorter than the object list. Otherwise it is the per-class vote of the first k entries of some admissible partial sort of the (mapping[i], distance(query, objects[i])) pairs. |
| Knn.Pairs | Knn/main.cpp:21-23 | The `distances` vector built by the first loop: entry i pairs mapping[i] with distance(newObject, objects[i]). `Knn.Classify`'s fill loop is proved to build exactly this sequence. `KnnProperties.PairsCountClass` states its class counts, and `KnnProperties.ClassesComeFromMapping` where its classes come from. |
| Knn.PartiallySorted | Knn/main.cpp:25-26 | What `std::partial_sort` guarantees about its range: the first k entries are in non-decreasing distance, and none is farther than any later entry. `Knn.PartialSort` establishes it. `KnnProperties.PrefixIsThresholdSet` and `KnnProperties.SelectionUnique` state its consequences. |
| Knn.IsPartialSortOf | Knn/main.cpp:25-26 | One admissible outcome of the partial sort: a permutation of the input that is `PartiallySorted`. `Knn.Classify`'s ensures is stated through it. `KnnProperties.SelectionUnique` and `KnnProperties.TieLeavesChoiceOpen` state when the outcome is determined. |
| KnnExamples.PointKey | Knn/point.hpp:99-105 | `distance` on `point2<int>`, compared through its square, `Points.SquaredDistance`. Its values on the first data set are stated by `KnnExamples.Example1PairAt` and the `Example1Block` lemmas. |
| KnnExamples.WoodKey | Knn/main.cpp:84-98 | `distance` on `WoodProperties` (the datatype of the same name, with a crack length and a knot diameter), compared through its square. Its values on the second data set are stated by `KnnExamples.Example2Distances`. |
| Points.Default | Knn/point.hpp:8 | The default constructor gives (0, 0). Stated by `Points.DefaultIsNullPoint`. |
| Points.Point2.WithX | Knn/point.hpp:14 | `with_x(v)`. Stated by `Points.WithUpdatesOneCoordinate`. |
| Points.Point2.WithY | Knn/point.hpp:15 | `with_y(v)`. Stated by `Points.WithUpdatesOneCoordinate`. |
| Points.Point2.PlusX | Knn/point.hpp:17 | `plus_x(d)`. Stated by `Points.PlusMovesOneCoordinate`. |
| Points.Point2.PlusY | Knn/point.hpp:18 | `plus_y(d)`. Stated by `Points.PlusMovesOneCoordinate`. |
| Points.Equal | Knn/point.hpp:20-23 | `operator==`, coordinate by coordinate. Stated by `Points.EqualityIsComponentwise`. |
| Points.NotEqual | Knn/point.hpp:25-28 | `operator!=`, the negation of `==`. Stated by `Points.EqualityIsComponentwise`. |
| Points.Scale | Knn/point.hpp:30-36 | `operator*` by a scalar. Stated by `Points.ScaleProperties` and `Points.DivideUndoesScale`. |
| Points.TruncDiv | Knn/point.hpp:38-44 | C++ integer division, truncating toward zero, for a non-zero divisor. Stated by `Points.TruncDivIsTruncation`, `Points.TruncDivTimesDivisor` and `Points.ExactTruncDiv`. |
| Points.Divide | Knn/point.hpp:38-44 | `operator/` by a scalar, with `TruncDiv` on each coordinate. Stated by `Points.DivideUndoesScale`. |
| Points.Add | Knn/point.hpp:46-52 | `operator+`. Stated by `Points.AddSubRoundTrip`. |
| Points.Sub | Knn/point.hpp:54-60 | `operator-`. Stated by `Points.AddSubRoundTrip`. |
| Points.NullPoint | Knn/point.hpp:68-69 | `null_point()`. Stated by `Points.DefaultIsNullPoint` and `Points.AddSubRoundTrip`. |
| Points.IsNull | Knn/point.hpp:71-72 | `is_null(p)`. Stated by `Points.DefaultIsNullPoint`, `Points.TransposedIsInvolution` and `Points.DotProductProperties`. |
| Points.Transposed | Knn/point.hpp:74-75 | `transposed(p)`. Stated by `Points.TransposedIsInvolution`. |
| Points.DotProduct | Knn/point.hpp:77-81 | `dot_product(p, q)`. Stated by `Points.DotProductProperties`. |
| Points.IsLeftTurn | Knn/point.hpp:89-96 | `is_left_turn(a, b, c)`, the sign test of the cross product of b − a and c − b, with collinear triples counting as left turns. Stated by `Points.LeftTurnIsSideOfLine` and `Points.LeftTurnReversal`. |
| Points.SquaredDistance | Knn/point.hpp:98-105 | The square of `distance(a, b)`: the sum of the squared coordinate differences. Stated by `Points.SquaredDistanceIsMetricLike`. |
| Knn.PartialSort | Knn/main.cpp:25-26 | Reorders the array in place. The contents stay the same multiset. The first k entries end up in non-decreasing distance, and none is farther than any entry after them. |
| Knn.IndexOfNearest | Knn/main.cpp:25-26 | Returns a position within a[from..] whose distance is no larger than that of any entry there. |
| Knn.Swap | Knn/main.cpp:25-26 | Exchanges two entries, keeps every other entry, and keeps the multiset. |
| Knn.CountOfClass | Knn/main.cpp:31-32 | Returns the number of the first k entries whose class is classId. |
| Knn.VoteFractions | Knn/main.cpp:28-34 | The result has exactly countClasses entries. |
| Counting.Count | Knn/main.cpp:31-32 | The count never exceeds the length of the sequence. |
| Counting.CountConcat | Knn/main.cpp:31-32 | Counting distributes over concatenation. |
| Counting.CountSplit | Knn/main.cpp:31-32 | Counting over a sequence cut at j is the count of the part before j plus the count of the rest. |
| Counting.CountFull | Knn/main.cpp:31-32 | The count equals the length if and only if every element satisfies the predicate. |
| Counting.CountEmpty | Knn/main.cpp:31-32 | The count is zero if and only if no element satisfies the predicate. |
| Counting.CountAgree | Knn/main.cpp:31-32 | Two predicates that agree on every element give the same count. |
| Counting.CountPermutation | Knn/main.cpp:25-32 | Two sequences with the same multiset give the same count, so reordering the pairs does not change any class count. |
| Counting.CountRemove | Knn/main.cpp:25-32 | Removing position i takes t[i] out of the multiset and takes its contribution out of the count. |
| Counting.CountSingleton | Knn/main.cpp:31-32 | A one-element sequence counts 1 exactly when its element satisfies the predicate. |
| Counting.CountIsMultiplicity | Knn/main.cpp:31-32 | The number of elements equal to e is the multiplicity of e in the multiset. |
| Counting.CountRange | Knn/main.cpp:31-32 | When exactly positions lo .. hi-1 satisfy the predicate, the count is hi - lo. |
| KnnProperties.FractionsInUnitInterval | Knn/main.cpp:29-34 | Every entry of the vote lies in [0, 1]. |
| KnnProperties.CountBelowStep | Knn/main.cpp:29-34 | The count of classes below m+1 is the count below m plus the count of class m, so the per-class counts add up. |
| KnnProperties.FractionsSum | Knn/main.cpp:29-34 | The fractions of classes 0 .. m-1 add up to the share of selected neighbours whose class is below m. |
| KnnProperties.FractionsSumToOne | Knn/main.cpp:29-34 | If every selected class is below countClasses, the fractions add up to 1. |
| KnnProperties.FractionsSumAtMostOne | Knn/main.cpp:29-34 | Whatever the classes, the fractions add up to at most 1. |
| KnnProperties.UnlistedClassIsDropped | Knn/main.cpp:29-34 | A neighbour of class 1 scored with a single class is not counted: the vote is [0] and sums to 0. |
| KnnProperties.FractionsDependOnMultiset | Knn/main.cpp:31-34 | The vote depends only on the multiset of the selected neighbours. |
| KnnProperties.ClassesComeFromMapping | Knn/main.cpp:21-26 | Every entry of an admissible partial sort of the pairs carries a class taken from the mapping. |
| KnnProperties.ScoresSumToOne | Knn/main.cpp:21-35 | If every mapped class is below countClasses, the scorer's fractions add up to 1, for every admissible partial sort. |
| KnnProperties.PairsCountClass | Knn/main.cpp:21-23 | The pairs hold as many entries of class c as the used part of the mapping holds c. |
| KnnProperties.WholeSetIsGlobalFrequency | Knn/main.cpp:25-34 | With k = \|objects\|, the fraction of class c is its frequency in mapping[..\|objects\|], whatever the distances. |
| KnnProperties.WithinCountBound | Knn/main.cpp:25-26 | In a partial sort, if the k-th distance exceeds d, fewer than k entries lie within d. |
| KnnProperties.PrefixIsThresholdSet | Knn/main.cpp:25-26 | When exactly k entries lie within d, the first k entries are within d and every later entry is beyond d. |
| KnnProperties.PrefixWithin | Knn/main.cpp:25-26 | If the k-th distance is at most d, so are the first k distances. |
| KnnProperties.SuffixBeyond | Knn/main.cpp:25-26 | If the first k entries lie within d and only k entries do, every later entry lies beyond d. |
| KnnProperties.PrefixCount | Knn/main.cpp:25-32 | Then counting any property over the first k entries is counting it over the entries within d. |
| KnnProperties.SelectionUnique | Knn/main.cpp:25-34 | Without a tie at the k-th distance, any two admissible partial sorts of the same pairs select the same multiset of neighbours and give the same vote for every countClasses. |
| KnnProperties.ReorderMultiset | Knn/main.cpp:21-34 | Rearranging a sequence by a permutation of its indices (`IsPerm`, `Reorder`) keeps its multiset. |
| KnnProperties.PermutedInputsSamePairs | Knn/main.cpp:21-23 | Permuting `objects` and `mapping` together gives a `distances` vector with the same multiset of (class, distance) pairs. |
| KnnProperties.SameAdmissibleOutcomes | Knn/main.cpp:21-26 | The original and the permuted inputs have exactly the same admissible partial sorts, both directions, with or without ties. |
| KnnProperties.PermutedInputsSameVote | Knn/main.cpp:21-34 | Without a tie at the k-th distance, permuting `objects` and `mapping` together leaves the scores unchanged for every countClasses. |
| KnnProperties.BoundaryCount | Knn/main.cpp:25-26 | Without a tie, exactly k entries lie within the k-th distance. |
| KnnProperties.SamePrefixMultiset | Knn/main.cpp:25-26 | Two admissible partial sorts of one multiset with exactly k entries within d select the same multiset. |
| KnnProperties.NearestAlone | Knn/main.cpp:25-34 | With k = 1 and a pair s[i] strictly nearer than every other, every admissible partial sort puts s[i] first, and the vote gives class s[i].classId the fraction 1 and every other class 0. |
| KnnExamples.QueryOnTrainingPoint | Knn/main.cpp:11-38 | With k = 1 and `distance` on `point2<int>`, a query equal to a training point that no other training point shares gets that point's class with fraction 1 and every other class 0. |
| KnnExamples.OwnPointIsStrictlyNearest | Knn/main.cpp:21-23 | In the `distances` vector for a query equal to training point i, which no other training point shares, entry i keeps mapping[i] and is strictly nearer than every other entry. |
| KnnExamples.PointKeySeparates | Knn/point.hpp:99-105 | The squared distance is non-negative and is zero exactly when the two points are equal. |
| KnnProperties.TieLeavesChoiceOpen | Knn/main.cpp:25-34 | With two neighbours at the same distance and k = 1, both orders are admissible and give [1, 0] and [0, 1]. |
| KnnProperties.VoteOfOne | Knn/main.cpp:29-34 | A single selected neighbour of class 0 or 1 gets the whole vote over two classes. |
| KnnExamples.Example1Block0 | Knn/main.cpp:53-58 | The class-0 points lie at squared distances 37, 25, 10, 20, 10 from (1, 6). |
| KnnExamples.Example1Block1 | Knn/main.cpp:60-64 | The class-1 points lie at squared distances 1, 4, 1, 5, 5. |
| KnnExamples.Example1Block2 | Knn/main.cpp:66-70 | The class-2 points lie at squared distances 74, 80, 85, 61, 90. |
| KnnExamples.Example1Counts | Knn/main.cpp:53-79 | Exactly five pairs lie within 5, and all five are of class 1. |
| KnnExamples.Example1Scores | Knn/main.cpp:53-79 | For every admissible partial sort at k = 5, the vote is [0, 1, 0]. |
| KnnExamples.Example2Distances | Knn/main.cpp:104-112 | The squared distances from (3, 7) are 16, 25, 9, 13. |
| KnnExamples.Example2SortedIsAdmissible | Knn/main.cpp:104-115 | The pairs in ascending distance form an admissible partial sort at k = 3, with no tie at the boundary. |
| KnnExamples.Example2Scores | Knn/main.cpp:104-115 | Every admissible partial sort at k = 3 selects (3, 4), (1, 4), (7, 7) in that order, and the vote is [1/3, 2/3]. |
| KnnExamples.Example2Vote | Knn/main.cpp:104-115 | The three nearest (two of class 1, one of class 0) give [1/3, 2/3]. |
| KnnExamples.Example2Ordered | Knn/main.cpp:104-115 | An ascending sequence with the multiset of the three nearest is exactly those three in order. |
| Points.DefaultIsNullPoint | Knn/point.hpp:8-12 | The default point equals `null_point()`, `is_null(null_point())` holds, and `is_null` accepts exactly the null point. |
| Points.WithUpdatesOneCoordinate | Knn/point.hpp:14-15 | Writing back the current coordinate with `with_x`/`with_y` gives the point back. The last write to a coordinate wins. Updates of x and y commute. `with_x(v)` leaves the point unchanged exactly when v is its x. |
| Points.PlusMovesOneCoordinate | Knn/point.hpp:17-18 | `plus_x(d)` is `+` with (d, 0) and `plus_y(d)` is `+` with (0, d). Moving by zero is the identity. Moves along one axis add up. Moving back undoes the move. Moves along x and y commute. |
| Points.EqualityIsComponentwise | Knn/point.hpp:20-28 | `==` holds exactly for equal values, `!=` is its negation, and `==` is symmetric. |
| Points.TransposedIsInvolution | Knn/point.hpp:75 | Applying `transposed` twice gives the point back. It keeps nullness, commutes with `+`, and keeps dot products. |
| Points.AddSubRoundTrip | Knn/point.hpp:46-60 | (p + q) − q == p and (p − q) + q == p. `+` is commutative, the null point is neutral, and p − p is null. |
| Points.ScaleProperties | Knn/point.hpp:30-36 | p * 1 == p, p * 0 is null, and `*` distributes over `+`. |
| Points.TruncDivIsTruncation | Knn/point.hpp:38-44 | C++ division truncates toward zero. The remainder is smaller than the divisor in magnitude and is zero or has the dividend's sign. The quotient's magnitude is \|a\| / \|b\|. |
| Points.TruncDivTimesDivisor | Knn/point.hpp:38-44 | The quotient times the divisor is the largest multiple of the divisor not exceeding the dividend in magnitude, with the dividend's sign. |
| Points.DivideUndoesScale | Knn/point.hpp:30-44 | (p * d) / d == p for every non-zero d. |
| Points.ExactTruncDiv | Knn/point.hpp:38-44 | An exact multiple v * d divided by d gives v back. |
| Points.DotProductProperties | Knn/point.hpp:78-81 | `dot_product` is symmetric. `dot_product(p, p)` is non-negative, and zero exactly when `is_null(p)`. |
| Points.SquaredDistanceIsMetricLike | Knn/point.hpp:99-105 | The squared distance is the dot product of b − a with itself. It is symmetric, non-negative, and zero exactly when a == b. |
| Points.LeftTurnIsSideOfLine | Knn/point.hpp:90-96 | `is_left_turn(a, b, c)` holds exactly when c lies on or to the left of the directed line from a to b, i.e. the cross product of b − a and c − a is ≥ 0. Rotating the triple to (b, c, a) does not change the result. |
| Points.LeftTurnReversal | Knn/point.hpp:90-96 | Reversing the path negates the cross product. A collinear triple is a left turn both ways. Any other triple is a left turn in exactly one direction. |

## Left out

- `print`, `main`, `Example1` and `Example2` write to standard output. Only their data sets are used, as the fixtures in `KnnExamples`.
- Floating-point arithmetic is not modelled.
  - Fractions are exact `real` quotients.
  - Distances are an abstract `real` key.
  - `distance` on points and on `WoodProperties` uses `sqrt` and `pow`. The fixtures use the squared distance instead, which orders neighbours the same way.
  - `manhattan_length` (a `sqrt` of the squared length) is left out for the same reason.
- Template genericity and fixed-width integer overflow are not modelled. Points have `int` coordinates, which are unbounded, so the overflow of `T` arithmetic in `+`, `-`, `*` and the cross product, which is undefined behaviour for signed `T`, does not appear. `std::size_t` counts and indices are `nat`.
- Knn.Classify: requires k ≥ 1 when there is at least one class. The source asserts only k ≤ |objects|. With k = 0 and at least one class every entry is 0.0 / 0.0, a NaN that `real` cannot represent. With k = 0 and no classes, nothing is divided and the result is empty; the model admits that case and returns `Scores([])`.
- Knn.Classify: the result is stated for *some* admissible partial sort. The particular order that the library's heap-based `std::partial_sort` produces among equal distances is not modelled. `Knn.PartialSort` selects a nearest remaining entry k times instead of using a heap, and it promises only what `std::partial_sort` promises.
- Points.TruncDivIsTruncation: division by zero is undefined behaviour in C++, so `TruncDiv` and `Divide` require a non-zero divisor.
- `std::vector` bounds checks other than `mapping.at` cannot fail in the source, because every other index is below `objects.size()` or `countClasses`. The model proves these indices in range instead of modelling `std::out_of_range` for them.
