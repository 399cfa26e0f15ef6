/** Plane geometry shared by the room catalog, the force model and the integrator:
    points and displacements, wall segments, per-agent fields, and the two analytic
    functions (the exponential and the Euclidean norm) that the model keeps abstract. */
module Planar {

  /** A point or displacement in the plane: one column of the simulator's 2×N arrays. */
  datatype Vec = Vec(x: real, y: real)

  /** A wall segment, its endpoints in the order the room tables list them. */
  datatype Wall = Wall(p0: Vec, p1: Vec)

  /** One vector per agent, indexed by agent number (a 2×N array of the simulator). */
  type Field = seq<Vec>

  const Zero := Vec(0.0, 0.0)

  function Add(a: Vec, b: Vec): Vec { Vec(a.x + b.x, a.y + b.y) }

  function Sub(a: Vec, b: Vec): Vec { Vec(a.x - b.x, a.y - b.y) }

  function Neg(a: Vec): Vec { Vec(-a.x, -a.y) }

  function Scale(c: real, a: Vec): Vec { Vec(c * a.x, c * a.y) }

  function Dot(a: Vec, b: Vec): real { a.x * b.x + a.y * b.y }

  function Cross(a: Vec, b: Vec): real { a.x * b.y - a.y * b.x }

  /** The quarter turn `[-n[1], n[0]]` that the force model uses for tangents. */
  function Perp(a: Vec): Vec { Vec(-a.y, a.x) }

  /** The point at parameter `s` along the segment from `a` to `b`. */
  function Lerp(a: Vec, b: Vec, s: real): Vec { Add(a, Scale(s, Sub(b, a))) }

  function Abs(x: real): real { if x < 0.0 then -x else x }

  function Min(a: real, b: real): real { if a <= b then a else b }

  /** `e` is a positive multiple of `d`: it points the way `d` points. */
  ghost predicate SameDirection(e: Vec, d: Vec) {
    exists c: real :: c > 0.0 && e == Scale(c, d)
  }

  /** `p` lies on the closed segment of `w`. */
  ghost predicate OnSegment(p: Vec, w: Wall) {
    exists s: real :: 0.0 <= s <= 1.0 && p == Lerp(w.p0, w.p1, s)
  }

  /** `p` lies on the line of the segment from `b` to `a`, strictly past the end `a`. */
  ghost predicate PastEnd(p: Vec, a: Vec, b: Vec) {
    exists s: real :: s > 0.0 && p == Add(a, Scale(s, Sub(a, b)))
  }

  /** The exponential and the Euclidean norm, kept abstract: the model takes them as
      parameters and assumes of them only what `Valid` states. */
  datatype Analytic = Analytic(exp: real -> real, norm: Vec -> real)

  /** The facts about exp and the norm the model relies on: exp is positive; the norm is
      non-negative, zero exactly at the zero vector, and unchanged by negation. */
  ghost predicate Valid(an: Analytic) {
    && (forall x :: an.exp(x) > 0.0)
    && (forall w :: an.norm(w) >= 0.0)
    && (forall w :: an.norm(w) == 0.0 <==> w == Zero)
    && (forall w :: an.norm(Neg(w)) == an.norm(w))
  }

  /** Absolute homogeneity of the norm, `norm(c w) == |c| norm(w)`: a property of the
      Euclidean norm that only the segment test relies on. */
  ghost predicate Homogeneous(an: Analytic) {
    forall c, w :: an.norm(Scale(c, w)) == Abs(c) * an.norm(w)
  }

  /** The norm is the Euclidean one: its square is the dot product of a vector with
      itself. Only the closest-point property of the wall distance relies on it. */
  ghost predicate Euclidean(an: Analytic) {
    forall w :: an.norm(w) * an.norm(w) == Dot(w, w)
  }

  /** Of two non-negative reals, the one with the smaller square is the smaller. */
  lemma SquareMonotone(a: real, b: real)
    requires 0.0 <= a && 0.0 <= b && a * a <= b * b
    ensures a <= b
  {
    if b < a {
      SquareStrictlyIncreasing(b, a);
      assert false;
    }
  }

  lemma SquareStrictlyIncreasing(x: real, y: real)
    requires 0.0 <= x < y
    ensures x * x < y * y
  {
    var d := y - x;
    ProductPositive(d, x + y);
    assert y * y == x * x + d * (x + y);
  }

  lemma SquareNonDecreasing(x: real, y: real)
    requires 0.0 <= x <= y
    ensures x * x <= y * y
  {
    if x < y {
      SquareStrictlyIncreasing(x, y);
    }
  }

  lemma ProductPositive(p: real, q: real)
    requires p > 0.0 && q > 0.0
    ensures p * q > 0.0
  {
  }

  lemma ProductMonotone(k: real, p: real, q: real)
    requires k > 0.0 && p <= q
    ensures k * p <= k * q
  {
    if p < q {
      ProductPositive(k, q - p);
      assert k * q == k * p + k * (q - p);
    }
  }

  /** Adding the same `k` to both sides keeps their order. */
  lemma ShiftedOrder(k: real, p: real, q: real, a: real, b: real)
    requires a == k + p && b == k + q && p <= q
    ensures a <= b
  {
  }

  /** Two quantities equal to ordered ones are ordered the same way. */
  lemma OrderedCopies(a: real, b: real, x: real, y: real)
    requires a == x && b == y && x <= y
    ensures a <= b
  {
  }

  /** `d / np.linalg.norm(d)`. */
  function Normalized(an: Analytic, d: Vec): (e: Vec)
    requires Valid(an) && d != Zero
    ensures SameDirection(e, d)
    ensures Scale(an.norm(d), e) == d
  {
    var len := an.norm(d);
    assert len > 0.0;
    assert 1.0 / len > 0.0;
    ScaledSameDirection(1.0 / len, d);
    ScaleScaleInverse(len, d);
    Scale(1.0 / len, d)
  }

  lemma ScaledSameDirection(c: real, d: Vec)
    requires c > 0.0
    ensures SameDirection(Scale(c, d), d)
  {
  }

  lemma ScaleScaleInverse(len: real, d: Vec)
    requires len != 0.0
    ensures Scale(len, Scale(1.0 / len, d)) == d
  {
  }

  /** Multiplying `d + fa / m + fw / m` by a non-zero `m` gives `m d + fa + fw`. */
  lemma MassTimesQuotients(m: real, d: Vec, fa: Vec, fw: Vec)
    requires m != 0.0
    ensures Scale(m, Add(Add(d, Scale(1.0 / m, fa)), Scale(1.0 / m, fw)))
         == Add(Add(Scale(m, d), fa), fw)
  {
  }

  /** Reversing both vectors of a linear combination reverses the combination. */
  lemma CombineNegated(a: real, u: Vec, b: real, w: Vec)
    ensures Add(Scale(a, Neg(u)), Scale(b, Neg(w))) == Neg(Add(Scale(a, u), Scale(b, w)))
  {
  }

  /** Taking `x` and `z` back off `x + y + z` leaves `y`. */
  lemma SubtractKnownTerms(x: Vec, y: Vec, z: Vec)
    ensures Sub(Sub(Add(Add(x, y), z), x), z) == y
  {
  }

  /** The vector sum of the first `k` entries of a sequence, accumulated from the front
      as `np.sum` and `+=` do. */
  function SumTo(s: seq<Vec>, k: nat): Vec
    requires k <= |s|
  {
    if k == 0 then Zero else Add(SumTo(s, k - 1), s[k - 1])
  }

  /** The vector sum of a whole sequence. */
  function Sum(s: seq<Vec>): Vec {
    SumTo(s, |s|)
  }

  /** The sum of each row of a table: `np.sum(table, 2)` on the simulator's (2, N, N) array. */
  function RowSums(t: seq<seq<Vec>>): (r: Field)
    ensures |r| == |t|
  {
    seq(|t|, i requires 0 <= i < |t| => Sum(t[i]))
  }

  /** Every row of `t` has `|t|` entries. */
  ghost predicate Square(t: seq<seq<Vec>>) {
    forall p :: 0 <= p < |t| ==> |t[p]| == |t|
  }

  /** A square table whose entry (p, q) is the negation of entry (q, p). */
  ghost predicate Antisymmetric(t: seq<seq<Vec>>) {
    && Square(t)
    && (forall p, q :: 0 <= p < |t| && 0 <= q < |t| ==> t[p][q] == Neg(t[q][p]))
  }

  /** The sum of the leading `rows` × `cols` block of a square table. */
  function Block(t: seq<seq<Vec>>, rows: nat, cols: nat): Vec
    requires Square(t) && rows <= |t| && cols <= |t|
  {
    if rows == 0 then Zero else Add(Block(t, rows - 1, cols), SumTo(t[rows - 1], cols))
  }

  /** The sum of column `c` over the first `rows` rows of a square table. */
  function Column(t: seq<seq<Vec>>, c: nat, rows: nat): Vec
    requires Square(t) && rows <= |t| && c < |t|
  {
    if rows == 0 then Zero else Add(Column(t, c, rows - 1), t[rows - 1][c])
  }

  lemma {:induction false} BlockWiden(t: seq<seq<Vec>>, rows: nat, c: nat)
    requires Square(t) && rows <= |t| && c < |t|
    ensures Block(t, rows, c + 1) == Add(Block(t, rows, c), Column(t, c, rows))
  {
    if rows > 0 {
      BlockWiden(t, rows - 1, c);
      var b, col := Block(t, rows - 1, c), Column(t, c, rows - 1);
      var s, e := SumTo(t[rows - 1], c), t[rows - 1][c];
      assert SumTo(t[rows - 1], c + 1) == Add(s, e);
      assert Block(t, rows, c + 1) == Add(Add(b, col), Add(s, e));
      assert Block(t, rows, c) == Add(b, s);
      assert Column(t, c, rows) == Add(col, e);
    }
  }

  lemma {:induction false} ColumnIsNegatedRow(t: seq<seq<Vec>>, n: nat, rows: nat)
    requires Antisymmetric(t) && n < |t| && rows <= n
    ensures Column(t, n, rows) == Neg(SumTo(t[n], rows))
  {
    if rows > 0 {
      ColumnIsNegatedRow(t, n, rows - 1);
      var col, s := Column(t, n, rows - 1), SumTo(t[n], rows - 1);
      var e := t[n][rows - 1];
      assert t[rows - 1][n] == Neg(e);
      assert Column(t, n, rows) == Add(col, Neg(e));
      assert SumTo(t[n], rows) == Add(s, e);
      assert col == Neg(s);
    }
  }

  lemma {:induction false} SquareBlockVanishes(t: seq<seq<Vec>>, n: nat)
    requires Antisymmetric(t) && n <= |t|
    ensures Block(t, n, n) == Zero
  {
    if n > 0 {
      var m := n - 1;
      SquareBlockVanishes(t, m);
      BlockWiden(t, m, m);
      ColumnIsNegatedRow(t, m, m);
      var s, e := SumTo(t[m], m), t[m][m];
      assert e == Neg(e);
      assert SumTo(t[m], n) == Add(s, e);
      assert Block(t, m, n) == Add(Zero, Neg(s));
      assert Block(t, n, n) == Add(Block(t, m, n), Add(s, e));
    }
  }

  lemma {:induction false} RowSumsPrefix(t: seq<seq<Vec>>, k: nat)
    requires Square(t) && k <= |t|
    ensures SumTo(RowSums(t), k) == Block(t, k, |t|)
  {
    if k > 0 {
      RowSumsPrefix(t, k - 1);
      var r := RowSums(t);
      assert r[k - 1] == SumTo(t[k - 1], |t|);
      assert SumTo(r, k) == Add(SumTo(r, k - 1), r[k - 1]);
      assert Block(t, k, |t|) == Add(Block(t, k - 1, |t|), SumTo(t[k - 1], |t|));
    }
  }

  /** Newton's third law for a table of pair forces: when entry (q, p) is always the
      negation of entry (p, q), the row sums add up to the zero vector. */
  lemma AntisymmetricRowSumsCancel(t: seq<seq<Vec>>)
    requires Antisymmetric(t)
    ensures Sum(RowSums(t)) == Zero
  {
    RowSumsPrefix(t, |t|);
    SquareBlockVanishes(t, |t|);
  }

  /** `np.zeros((2, n))` as a field. */
  function ZeroField(n: nat): (z: Field)
    ensures |z| == n
  {
    seq(n, _ => Zero)
  }

  function AddF(a: Field, b: Field): (r: Field)
    requires |a| == |b|
    ensures |r| == |a|
  {
    seq(|a|, i requires 0 <= i < |a| => Add(a[i], b[i]))
  }

  function ScaleF(c: real, a: Field): (r: Field)
    ensures |r| == |a|
  {
    seq(|a|, i requires 0 <= i < |a| => Scale(c, a[i]))
  }

  /** The sum of the pointwise sum of two fields is the sum of their sums. */
  lemma {:induction false} SumToAddF(a: Field, b: Field, k: nat)
    requires |a| == |b| && k <= |a|
    ensures SumTo(AddF(a, b), k) == Add(SumTo(a, k), SumTo(b, k))
  {
    if k > 0 {
      SumToAddF(a, b, k - 1);
      var sa, sb := SumTo(a, k - 1), SumTo(b, k - 1);
      assert AddF(a, b)[k - 1] == Add(a[k - 1], b[k - 1]);
      assert SumTo(AddF(a, b), k) == Add(Add(sa, sb), Add(a[k - 1], b[k - 1]));
    }
  }

  lemma SumAddF(a: Field, b: Field)
    requires |a| == |b|
    ensures Sum(AddF(a, b)) == Add(Sum(a), Sum(b))
  {
    SumToAddF(a, b, |a|);
  }
}
