/** The two-dimensional point value type `point2<T>` and its free helpers,
    instantiated with T = int. Every operation builds a new point or a
    scalar; nothing is updated in place. Coordinates are unbounded
    integers, so the fixed-width overflow of the C++ type is not modelled. */
module Points {

  /** `point2<int>`: the explicit constructor `point2{x, y}` is the datatype
      constructor, and the accessors `x()`/`y()` are its destructors. */
  datatype Point2 = Point2(x: int, y: int) {

    /** `with_x(v)`: the same point with its x coordinate replaced by v. */
    function WithX(v: int): Point2 { Point2(v, y) }

    /** `with_y(v)`: the same point with its y coordinate replaced by v. */
    function WithY(v: int): Point2 { Point2(x, v) }

    /** `plus_x(d)`: the point moved by d along the x axis. */
    function PlusX(d: int): Point2 { Point2(x + d, y) }

    /** `plus_y(d)`: the point moved by d along the y axis. */
    function PlusY(d: int): Point2 { Point2(x, y + d) }
  }

  /** The default constructor value-initialises both coordinates. */
  function Default(): Point2 { Point2(0, 0) }

  /** `operator==`: componentwise comparison. */
  predicate Equal(p: Point2, q: Point2) { p.x == q.x && p.y == q.y }

  /** `operator!=`: the negation of `operator==`. */
  predicate NotEqual(p: Point2, q: Point2) { !Equal(p, q) }

  /** `operator*`: both coordinates multiplied by the same factor. */
  function Scale(p: Point2, mult: int): Point2 { Point2(p.x * mult, p.y * mult) }

  /** C++ integer division, which truncates toward zero (Dafny's `/` is
      Euclidean). Division by zero is undefined behaviour in C++, so the
      divisor must be non-zero. */
  function TruncDiv(a: int, b: int): int
    requires b != 0
  {
    var q := Abs(a) / Abs(b);
    if (a < 0) == (b < 0) then q else -q
  }

  function Abs(a: int): nat { if a < 0 then -a else a }

  /** `operator/`: both coordinates divided (truncating) by the same divisor. */
  function Divide(p: Point2, divider: int): Point2
    requires divider != 0
  {
    Point2(TruncDiv(p.x, divider), TruncDiv(p.y, divider))
  }

  /** `operator+`: componentwise sum. */
  function Add(p: Point2, q: Point2): Point2 { Point2(p.x + q.x, p.y + q.y) }

  /** `operator-`: componentwise difference. */
  function Sub(p: Point2, q: Point2): Point2 { Point2(p.x - q.x, p.y - q.y) }

  /** `null_point()`: the origin. */
  function NullPoint(): Point2 { Point2(0, 0) }

  /** `is_null(p)`: both coordinates are zero. */
  predicate IsNull(p: Point2) { p.x == 0 && p.y == 0 }

  /** `transposed(p)`: the coordinates swapped. */
  function Transposed(p: Point2): Point2 { Point2(p.y, p.x) }

  /** `dot_product(p, q)`. */
  function DotProduct(p: Point2, q: Point2): int { p.x * q.x + p.y * q.y }

  /** The z component of the cross product of u and v. */
  function Cross(u: Point2, v: Point2): int { u.x * v.y - u.y * v.x }

  /** `is_left_turn(a, b, c)`: going a -> b -> c does not turn clockwise;
      with `>=` in the source, collinear triples count as left turns. */
  predicate IsLeftTurn(a: Point2, b: Point2, c: Point2) {
    Cross(Sub(b, a), Sub(c, b)) >= 0
  }

  /** The square of `distance(a, b)`: the sum of the squared coordinate
      differences that the source passes to `sqrt`. */
  function SquaredDistance(a: Point2, b: Point2): int {
    var dx := b.x - a.x;
    var dy := b.y - a.y;
    dx * dx + dy * dy
  }

  // ---------------------------------------------------------------------
  // Properties
  // ---------------------------------------------------------------------

  /** The default point is the null point, which `is_null` accepts; and
      `is_null` accepts exactly the null point. */
  lemma {:induction false} DefaultIsNullPoint(p: Point2)
    ensures Default() == NullPoint() && IsNull(NullPoint())
    ensures IsNull(p) <==> p == NullPoint()
  {
  }

  /** `with_x` and `with_y` are functional updates of one coordinate each:
      writing back the current coordinate is the identity, the last write
      wins, and updates of different coordinates commute. */
  lemma {:induction false} WithUpdatesOneCoordinate(p: Point2, v: int, w: int)
    ensures p.WithX(p.x) == p && p.WithY(p.y) == p
    ensures p.WithX(v).WithX(w) == p.WithX(w) && p.WithY(v).WithY(w) == p.WithY(w)
    ensures p.WithX(v).WithX(p.x) == p && p.WithY(v).WithY(p.y) == p
    ensures p.WithX(v).WithY(w) == p.WithY(w).WithX(v)
    ensures p.WithX(v) == p <==> v == p.x
  {
  }

  /** `plus_x(d)` and `plus_y(d)` are `+` with an axis vector: moving by
      zero is the identity, moves along one axis add up, and moving back
      undoes the move. */
  lemma {:induction false} PlusMovesOneCoordinate(p: Point2, d: int, e: int)
    ensures p.PlusX(d) == Add(p, Point2(d, 0)) && p.PlusY(d) == Add(p, Point2(0, d))
    ensures p.PlusX(0) == p && p.PlusY(0) == p
    ensures p.PlusX(d).PlusX(e) == p.PlusX(d + e) && p.PlusY(d).PlusY(e) == p.PlusY(d + e)
    ensures p.PlusX(d).PlusX(-d) == p && p.PlusY(d).PlusY(-d) == p
    ensures p.PlusX(d).PlusY(e) == p.PlusY(e).PlusX(d)
  {
  }

  /** `operator==` is exactly value equality and `operator!=` its negation. */
  lemma {:induction false} EqualityIsComponentwise(p: Point2, q: Point2)
    ensures Equal(p, q) <==> p == q
    ensures NotEqual(p, q) <==> p != q
    ensures Equal(p, q) == Equal(q, p)
  {
  }

  /** Transposing is an involution, keeps nullness, commutes with `+`, and
      keeps dot products. */
  lemma {:induction false} TransposedIsInvolution(p: Point2, q: Point2)
    ensures Transposed(Transposed(p)) == p
    ensures IsNull(Transposed(p)) <==> IsNull(p)
    ensures Transposed(Add(p, q)) == Add(Transposed(p), Transposed(q))
    ensures DotProduct(Transposed(p), Transposed(q)) == DotProduct(p, q)
  {
  }

  /** Subtraction undoes addition, addition is commutative, and the null
      point is neutral. */
  lemma {:induction false} AddSubRoundTrip(p: Point2, q: Point2)
    ensures Sub(Add(p, q), q) == p
    ensures Add(Sub(p, q), q) == p
    ensures Add(p, q) == Add(q, p)
    ensures Add(p, NullPoint()) == p && Sub(p, p) == NullPoint()
  {
  }

  /** Scaling by one is the identity, by zero gives the null point, and
      scaling distributes over addition. */
  lemma {:induction false} ScaleProperties(p: Point2, q: Point2, m: int)
    ensures Scale(p, 1) == p
    ensures IsNull(Scale(p, 0))
    ensures Scale(Add(p, q), m) == Add(Scale(p, m), Scale(q, m))
  {
    assert (p.x + q.x) * m == p.x * m + q.x * m;
    assert (p.y + q.y) * m == p.y * m + q.y * m;
  }

  /** Truncating division as C++ defines it: the quotient times the divisor
      plus a remainder gives the dividend, the remainder is smaller than the
      divisor in magnitude, and it is zero or has the sign of the dividend. */
  lemma {:induction false} TruncDivIsTruncation(a: int, b: int)
    requires b != 0
    ensures var r := a - TruncDiv(a, b) * b;
      Abs(r) < Abs(b) && (r == 0 || (r < 0) == (a < 0))
    ensures Abs(TruncDiv(a, b)) == Abs(a) / Abs(b)
  {
    var n: int := Abs(b);
    var q: int := Abs(a) / n;
    var whole := q * n;
    assert Abs(a) == whole + Abs(a) % n;
    TruncDivTimesDivisor(a, b);
  }

  /** The quotient times the divisor is the largest multiple of the divisor
      not exceeding the dividend in magnitude, with the dividend's sign. */
  lemma {:induction false} TruncDivTimesDivisor(a: int, b: int)
    requires b != 0
    ensures var whole := (Abs(a) / Abs(b)) * Abs(b);
      TruncDiv(a, b) * b == if a < 0 then -whole else whole
  {
    var n: int := Abs(b);
    var q: int := Abs(a) / n;
    if a >= 0 && b < 0 {
      NegTimesNeg(q, n);
    } else if a < 0 && b < 0 {
      TimesNeg(q, n);
    } else if a < 0 {
      NegTimes(q, n);
    }
  }

  lemma {:induction false} NegTimesNeg(q: int, n: int) ensures (-q) * (-n) == q * n {}
  lemma {:induction false} TimesNeg(q: int, n: int) ensures q * (-n) == -(q * n) {}
  lemma {:induction false} NegTimes(q: int, n: int) ensures (-q) * n == -(q * n) {}

  /** Dividing a scaled point by the same non-zero factor gives it back. */
  lemma {:induction false} DivideUndoesScale(p: Point2, d: int)
    requires d != 0
    ensures Divide(Scale(p, d), d) == p
  {
    ExactTruncDiv(p.x, d);
    ExactTruncDiv(p.y, d);
  }

  lemma {:induction false} ExactTruncDiv(v: int, d: int)
    requires d != 0
    ensures TruncDiv(v * d, d) == v
  {
    var n: int := Abs(d);
    var w: int := Abs(v);
    AbsOfProduct(v, d);
    assert Abs(v * d) == w * n;
    DivOfMultiple(w, n);
    assert Abs(v * d) / n == w;
    if v == 0 {
      assert v * d == 0;
    } else if (v < 0) == (d < 0) {
      assert v * d > 0 by { ProductSign(v, d); }
    } else {
      assert v * d < 0 by { ProductSign(v, d); }
    }
  }

  lemma {:induction false} AbsOfProduct(v: int, d: int)
    ensures Abs(v * d) == Abs(v) * Abs(d)
  {
    if v < 0 && d < 0 { NegTimesNeg(v, d); }
    else if v < 0 { NegTimes(v, d); }
    else if d < 0 { TimesNeg(v, d); }
  }

  lemma {:induction false} ProductSign(v: int, d: int)
    requires v != 0 && d != 0
    ensures (v * d > 0) <==> ((v < 0) == (d < 0))
  {
    AbsOfProduct(v, d);
    assert Abs(v) * Abs(d) >= Abs(d) by { MulAtLeast(Abs(v), Abs(d)); }
  }

  lemma {:induction false} MulAtLeast(w: nat, n: nat)
    requires w >= 1
    ensures w * n >= n
  {
    assert w * n == (w - 1) * n + n;
  }

  lemma {:induction false} DivOfMultiple(w: nat, n: int)
    requires n > 0
    ensures (w * n) / n == w
  {
    var q := (w * n) / n;
    var r := (w * n) % n;
    assert q * n + r == w * n;
    assert (w - q) * n == r;
    if w - q >= 1 {
      MulAtLeast(w - q, n);
    }
  }

  /** `dot_product` is symmetric, and a point's dot product with itself is
      non-negative and zero exactly for the null point. */
  lemma {:induction false} DotProductProperties(p: Point2, q: Point2)
    ensures DotProduct(p, q) == DotProduct(q, p)
    ensures DotProduct(p, p) >= 0
    ensures DotProduct(p, p) == 0 <==> IsNull(p)
  {
    assert p.x * q.x == q.x * p.x && p.y * q.y == q.y * p.y;
    SquareIsPositive(p.x);
    SquareIsPositive(p.y);
  }

  lemma {:induction false} SquareIsPositive(v: int)
    ensures v * v >= 0
    ensures v != 0 ==> v * v > 0
  {
    if v < 0 { NegTimesNeg(v, v); MulAtLeast(-v, -v); }
    else if v > 0 { MulAtLeast(v, v); }
  }

  /** The squared distance behind `distance(a, b)` is symmetric, never
      negative, and zero exactly when the points coincide. */
  lemma {:induction false} SquaredDistanceIsMetricLike(a: Point2, b: Point2)
    ensures SquaredDistance(a, b) == DotProduct(Sub(b, a), Sub(b, a))
    ensures SquaredDistance(a, b) == SquaredDistance(b, a)
    ensures SquaredDistance(a, b) >= 0
    ensures SquaredDistance(a, b) == 0 <==> a == b
  {
    var dx, dy := b.x - a.x, b.y - a.y;
    NegTimesNeg(dx, dx);
    NegTimesNeg(dy, dy);
    SquareIsPositive(dx);
    SquareIsPositive(dy);
  }

  /** `is_left_turn(a, b, c)` holds exactly when c lies on or to the left
      of the directed line from a to b, and rotating the three points does
      not change it. */
  lemma {:induction false} LeftTurnIsSideOfLine(a: Point2, b: Point2, c: Point2)
    ensures IsLeftTurn(a, b, c) <==> Cross(Sub(b, a), Sub(c, a)) >= 0
    ensures IsLeftTurn(a, b, c) == IsLeftTurn(b, c, a)
  {
  }

  /** Reversing a path negates its cross product: a collinear triple is a
      left turn both ways, and any other triple is a left turn in exactly
      one of the two directions. */
  lemma {:induction false} LeftTurnReversal(a: Point2, b: Point2, c: Point2)
    ensures Cross(Sub(b, c), Sub(a, b)) == -Cross(Sub(b, a), Sub(c, b))
    ensures Cross(Sub(b, a), Sub(c, b)) == 0 ==> IsLeftTurn(a, b, c) && IsLeftTurn(c, b, a)
    ensures Cross(Sub(b, a), Sub(c, b)) != 0 ==> (IsLeftTurn(a, b, c) <==> !IsLeftTurn(c, b, a))
  {
    var u, v := Sub(b, a), Sub(c, b);
    assert Sub(a, b) == Point2(-u.x, -u.y);
    assert Sub(b, c) == Point2(-v.x, -v.y);
    assert (-v.x) * (-u.y) == v.x * u.y;
    assert (-v.y) * (-u.x) == v.y * u.x;
    assert Cross(Sub(b, c), Sub(a, b)) == v.x * u.y - v.y * u.x;
  }
}
