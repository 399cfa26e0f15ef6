/** The social-force model of `Differential_Equation`: contact and repulsion forces
    between agents and between agents and walls, the desired heading of every agent
    (straight to its exit, or around an interior wall), and the resulting acceleration. */
module AgentInteractions {
  import opened Planar
  import opened RoomLayout

  /** Strength and range of the exponential repulsion, the body-compression and the
      sliding-friction constants, and the desired walking speed of every agent. */
  const A := 2000.0
  const B := 0.08
  const K := 120000.0
  const Kap := 240000.0
  const DesiredSpeed := 1.5

  /** The fields of a `Differential_Equation` object. The object is never changed after
      its constructor, so it is a value. `v_0` is `DesiredSpeed` for every agent. */
  datatype DiffEq = DiffEq(
    n: nat,
    m: seq<real>,
    radius: seq<real>,
    timeStep: real,
    l: real,
    rD: seq<Vec>,
    numberOfWalls: nat,
    walls: seq<Wall>,
    wallShear: bool)

  /** What the room tables must provide for the force and heading model to be defined:
      the wall count within the table, non-degenerate walls (the wall direction is
      divided by its length), one or two destinations, and, when interior walls steer
      the agents, an interior wall after the five perimeter walls and one destination. */
  predicate RoomSuits(numberOfWalls: nat, walls: seq<Wall>, rD: seq<Vec>, wallShear: bool) {
    && numberOfWalls <= |walls|
    && NonDegenerate(walls)
    && 1 <= |rD| <= 2
    && (wallShear ==> |walls| > 5 && |rD| == 1)
  }

  /** The object is well formed: one radius and one non-zero mass per agent, a non-zero
      time step (the relaxation time divides by it) and a suitable room. */
  predicate WellFormed(de: DiffEq) {
    && |de.m| == de.n && |de.radius| == de.n
    && (forall i :: 0 <= i < de.n ==> de.m[i] != 0.0)
    && de.timeStep != 0.0
    && RoomSuits(de.numberOfWalls, de.walls, de.rD, de.wallShear)
  }

  /** The constructor: it copies the room's destinations, wall count, walls and
      `wall_shear` flag. */
  function NewDifferentialEquation(n: nat, l: real, timeStep: real, room: Room,
                                   radius: seq<real>, weights: seq<real>): (de: DiffEq)
    ensures de.n == n && de.m == weights && de.radius == radius && de.l == l
    ensures de.rD == room.destination && de.walls == room.walls
    ensures de.numberOfWalls == room.numberOfWalls && de.wallShear == room.wallShear
    ensures WellFormed(de) <==>
      && |radius| == n && |weights| == n && (forall i :: 0 <= i < n ==> weights[i] != 0.0)
      && timeStep != 0.0
      && RoomSuits(room.numberOfWalls, room.walls, room.destination, room.wallShear)
  {
    DiffEq(n, weights, radius, timeStep, l, room.destination, room.numberOfWalls,
           room.walls, room.wallShear)
  }

  /** Every catalog room of positive size suits the force model, except the one with two
      exits and an interior wall: its heading rule would treat both destinations as one
      point. */
  lemma CatalogRoomSuitsForceModel(name: string, l: real)
    requires Known(name) && l > 0.0
    ensures var room := NewRoom(name, l).value;
      RoomSuits(room.numberOfWalls, room.walls, room.destination, room.wallShear)
      <==> name != TwoExitsWall2
  {
  }

  /** The ramp `g`: zero for a negative argument and the argument itself otherwise,
      that is, the larger of the argument and zero. */
  function G(x: real): (r: real)
    ensures r >= 0.0 && r >= x
    ensures r == 0.0 || r == x
  {
    if x < 0.0 then 0.0 else x
  }

  /** The sum of the radii of agents `i` and `j`. */
  function Rad(de: DiffEq, i: nat, j: nat): (r: real)
    requires i < |de.radius| && j < |de.radius|
    ensures r == de.radius[j] + de.radius[i]
    ensures de.radius[i] > 0.0 && de.radius[j] > 0.0 ==> r > de.radius[i] && r > de.radius[j]
  {
    de.radius[i] + de.radius[j]
  }

  /** The result of `agent(i, j)`: the distance `d` between the two agents, the unit
      vector `n` from `j` to `i`, its quarter turn `t`, and the tangential velocity
      difference `dvt`. */
  datatype PairGeometry = PairGeometry(d: real, n: Vec, t: Vec, dvt: real)

  function Agent(an: Analytic, i: nat, j: nat, r: Field, v: Field): (g: PairGeometry)
    requires Valid(an) && i < |r| && j < |r| && |v| == |r| && r[i] != r[j]
    ensures g.d > 0.0 && g.d == an.norm(Sub(r[i], r[j]))
    ensures Scale(g.d, g.n) == Sub(r[i], r[j]) && SameDirection(g.n, Sub(r[i], r[j]))
    ensures g.t == Perp(g.n) && Dot(g.t, g.n) == 0.0
    ensures g.dvt == Dot(Sub(v[j], v[i]), g.t)
  {
    var diff := Sub(r[i], r[j]);
    assert diff != Zero;
    var n := Normalized(an, diff);
    var t := Perp(n);
    PairGeometry(an.norm(diff), n, t, Dot(Sub(v[j], v[i]), t))
  }

  /** The coefficients `a` (along the normal) and `b` (along the tangent) shared by the
      agent–agent and agent–wall forces, for a given overlap and tangential slip. */
  datatype Coefficients = Coefficients(a: real, b: real)

  function ContactCoefficients(an: Analytic, overlap: real, slip: real): (c: Coefficients)
    requires Valid(an)
    ensures c.a >= A * an.exp(overlap / B) > 0.0
    ensures overlap <= 0.0 ==> c.a == A * an.exp(overlap / B) && c.b == 0.0
    ensures overlap > 0.0 ==> c.a == A * an.exp(overlap / B) + K * overlap
                              && c.b == Kap * overlap * slip
  {
    Coefficients(A * an.exp(overlap / B) + K * G(overlap), Kap * G(overlap) * slip)
  }

  /** Agents `j` and `i` are at different positions, so their distance is not zero. */
  predicate Apart(r: Field, i: nat, j: nat)
    requires i < |r| && j < |r|
  {
    r[i] != r[j]
  }

  /** `f_ij`: the force agent `j` exerts on agent `i`. */
  function PairForce(an: Analytic, de: DiffEq, i: nat, j: nat, r: Field, v: Field): (f: Vec)
    requires Valid(an) && |de.radius| == |r| == |v| && i < |r| && j < |r| && Apart(r, i, j)
    ensures var g := Agent(an, i, j, r, v);
      Rad(de, i, j) <= g.d ==> f == Scale(A * an.exp((Rad(de, i, j) - g.d) / B), g.n)
    ensures Rad(de, i, j) <= an.norm(Sub(r[i], r[j])) ==> SameDirection(f, Sub(r[i], r[j]))
    ensures var g := Agent(an, i, j, r, v);
      var c := ContactCoefficients(an, Rad(de, i, j) - g.d, g.dvt);
      f == Add(Scale(c.a, g.n), Scale(c.b, g.t))
  {
    var g := Agent(an, i, j, r, v);
    var c := ContactCoefficients(an, Rad(de, i, j) - g.d, g.dvt);
    var f := Add(Scale(c.a, g.n), Scale(c.b, g.t));
    if Rad(de, i, j) <= g.d then
      NoContactRepels(c.a, g.n, Sub(r[i], r[j]), g.d, g.t);
      f
    else
      f
  }

  /** With no tangential part, a positive multiple of a unit vector pointing along
      `diff` points along `diff` too. */
  lemma NoContactRepels(a: real, n: Vec, diff: Vec, d: real, t: Vec)
    requires a > 0.0 && d > 0.0 && Scale(d, n) == diff
    ensures Add(Scale(a, n), Scale(0.0, t)) == Scale(a, n)
    ensures SameDirection(Scale(a, n), diff)
  {
    ScaleScaleInverse(d, n);
    var c := a * (1.0 / d);
    assert 1.0 / d > 0.0;
    assert c > 0.0;
    assert Scale(a, n) == Scale(c, diff) by {
      assert n == Scale(1.0 / d, diff) by {
        assert Scale(1.0 / d, Scale(d, n)) == Scale((1.0 / d) * d, n);
      }
      assert Scale(a, Scale(1.0 / d, diff)) == Scale(a * (1.0 / d), diff);
    }
  }

  /** Swapping the two agents keeps the distance and the tangential velocity difference
      and reverses the normal and the tangent. */
  lemma {:induction false} AgentSwapped(an: Analytic, i: nat, j: nat, r: Field, v: Field)
    requires Valid(an) && i < |r| && j < |r| && |v| == |r| && r[i] != r[j]
    ensures var g, h := Agent(an, i, j, r, v), Agent(an, j, i, r, v);
      h.d == g.d && h.n == Neg(g.n) && h.t == Neg(g.t) && h.dvt == g.dvt
  {
    var diff := Sub(r[i], r[j]);
    assert Sub(r[j], r[i]) == Neg(diff);
    var g, h := Agent(an, i, j, r, v), Agent(an, j, i, r, v);
    assert h.d == g.d;
    assert h.n == Neg(g.n);
    assert h.t == Neg(g.t);
    var w := Sub(v[j], v[i]);
    assert Sub(v[i], v[j]) == Neg(w);
    assert h.dvt == Dot(Neg(w), Neg(g.t));
  }

  /** Newton's third law for the agent–agent force: the force `i` exerts on `j` is the
      negation of the force `j` exerts on `i`. */
  lemma PairForceAntisymmetric(an: Analytic, de: DiffEq, i: nat, j: nat, r: Field, v: Field)
    requires Valid(an) && |de.radius| == |r| == |v| && i < |r| && j < |r| && Apart(r, i, j)
    ensures PairForce(an, de, j, i, r, v) == Neg(PairForce(an, de, i, j, r, v))
  {
    AgentSwapped(an, i, j, r, v);
    var g, h := Agent(an, i, j, r, v), Agent(an, j, i, r, v);
    assert Rad(de, j, i) == Rad(de, i, j);
    var c := ContactCoefficients(an, Rad(de, i, j) - g.d, g.dvt);
    assert ContactCoefficients(an, Rad(de, j, i) - h.d, h.dvt) == c;
    CombineNegated(c.a, g.n, c.b, g.t);
  }

  /** `temp` before clamping: the projection of `p - w.p0` on the wall direction, over
      the wall length, both vectors first divided by that length. */
  function RawParameter(an: Analytic, w: Wall, p: Vec): real
    requires Valid(an) && w.p0 != w.p1
  {
    var lineVec := Sub(w.p1, w.p0);
    var lineLen := an.norm(lineVec);
    assert lineVec != Zero;
    Dot(Scale(1.0 / lineLen, lineVec), Scale(1.0 / lineLen, Sub(p, w.p0)))
  }

  /** The distance between two points of the real line. */
  function Dist1(a: real, b: real): (d: real)
    ensures d >= 0.0
  {
    Abs(a - b)
  }

  /** The clamping of `temp` to `[0, 1]`: the point of `[0, 1]` nearest to `x`. */
  function Clamp01(x: real): (c: real)
    ensures 0.0 <= c <= 1.0
    ensures 0.0 <= x <= 1.0 ==> c == x
    ensures forall y :: 0.0 <= y <= 1.0 ==> Dist1(c, x) <= Dist1(y, x)
  {
    if x < 0.0 then 0.0 else if x > 1.0 then 1.0 else x
  }

  /** The point of the wall `nearest` to `p`: the wall start plus the clamped parameter
      times the wall vector. */
  function NearestOnWall(an: Analytic, w: Wall, p: Vec): (q: Vec)
    requires Valid(an) && w.p0 != w.p1
    ensures OnSegment(q, w)
  {
    var s := Clamp01(RawParameter(an, w, p));
    var q := Add(Scale(s, Sub(w.p1, w.p0)), w.p0);
    assert q == Lerp(w.p0, w.p1, s);
    q
  }

  /** Agent `i` is not on wall `j`, so its distance to the wall is not zero. */
  predicate ClearOfWall(an: Analytic, de: DiffEq, r: Field, i: nat, j: nat)
    requires Valid(an) && i < |r| && j < |de.walls| && de.walls[j].p0 != de.walls[j].p1
  {
    r[i] != NearestOnWall(an, de.walls[j], r[i])
  }

  /** The result of `wall_distance(i, j)`: the distance from agent `i` to wall `j`, the
      unit vector `n` from the wall to the agent, its quarter turn `t`, and the nearest
      point of the wall. */
  datatype WallGeometry = WallGeometry(distance: real, n: Vec, t: Vec, nearest: Vec)

  function WallDistance(an: Analytic, de: DiffEq, i: nat, j: nat, r: Field): (g: WallGeometry)
    requires Valid(an) && i < |r| && j < |de.walls| && de.walls[j].p0 != de.walls[j].p1
    requires ClearOfWall(an, de, r, i, j)
    ensures OnSegment(g.nearest, de.walls[j]) && g.nearest == NearestOnWall(an, de.walls[j], r[i])
    ensures g.distance > 0.0 && g.distance == an.norm(Sub(r[i], g.nearest))
    ensures Scale(g.distance, g.n) == Sub(r[i], g.nearest)
    ensures SameDirection(g.n, Sub(r[i], g.nearest))
    ensures g.t == Perp(g.n)
  {
    var w := de.walls[j];
    var lineVec := Sub(w.p1, w.p0);
    var pntVec := Sub(r[i], w.p0);
    var temp := Clamp01(RawParameter(an, w, r[i]));
    var along := Scale(temp, lineVec);
    var dist := Sub(pntVec, along);
    var nearest := Add(along, w.p0);
    assert nearest == NearestOnWall(an, w, r[i]);
    assert dist == Sub(r[i], nearest);
    var n := Normalized(an, dist);
    WallGeometry(an.norm(dist), n, Perp(n), nearest)
  }

  /** With the Euclidean norm, `nearest` is the point of the wall closest to the agent:
      no point of the segment is nearer than `distance`. */
  lemma WallDistanceIsSmallest(an: Analytic, de: DiffEq, i: nat, j: nat, r: Field, q: Vec)
    requires Valid(an) && Euclidean(an) && i < |r| && j < |de.walls|
    requires de.walls[j].p0 != de.walls[j].p1 && ClearOfWall(an, de, r, i, j)
    requires OnSegment(q, de.walls[j])
    ensures WallDistance(an, de, i, j, r).distance <= an.norm(Sub(r[i], q))
  {
    NearestOnWallIsClosest(an, de.walls[j], r[i], q);
  }

  /** With the Euclidean norm, no point `q` of the wall is nearer to `x` than the
      `nearest` point of `wall_distance`. */
  lemma NearestOnWallIsClosest(an: Analytic, w: Wall, x: Vec, q: Vec)
    requires Valid(an) && Euclidean(an) && w.p0 != w.p1 && OnSegment(q, w)
    ensures an.norm(Sub(x, NearestOnWall(an, w, x))) <= an.norm(Sub(x, q))
  {
    var s :| 0.0 <= s <= 1.0 && q == Lerp(w.p0, w.p1, s);
    RawParameterIsProjection(an, w, x);
    NearestOnWallAt(an, w, x);
    ClampedPointClosest(x, w.p0, w.p1, RawParameter(an, w, x), s);
    NormOrder(an, Sub(x, NearestOnWall(an, w, x)), Sub(x, q));
  }

  /** With the Euclidean norm, lengths are ordered as their squares are. */
  lemma NormOrder(an: Analytic, near: Vec, far: Vec)
    requires Valid(an) && Euclidean(an) && Dot(near, near) <= Dot(far, far)
    ensures an.norm(near) <= an.norm(far)
  {
    assert an.norm(near) * an.norm(near) == Dot(near, near);
    assert an.norm(far) * an.norm(far) == Dot(far, far);
    OrderedCopies(an.norm(near) * an.norm(near), an.norm(far) * an.norm(far),
                  Dot(near, near), Dot(far, far));
    SquareMonotone(an.norm(near), an.norm(far));
  }

  /** The `nearest` point of `wall_distance` is the point of the segment at the clamped
      parameter. */
  lemma NearestOnWallAt(an: Analytic, w: Wall, p: Vec)
    requires Valid(an) && w.p0 != w.p1
    ensures NearestOnWall(an, w, p) == Lerp(w.p0, w.p1, Clamp01(RawParameter(an, w, p)))
  {
  }

  /** With the Euclidean norm, the raw parameter of `wall_distance` is the projection
      `(u · d) / (u · u)` of `d = p - w.p0` on the wall vector `u`, and `u · u` is
      positive. */
  lemma RawParameterIsProjection(an: Analytic, w: Wall, p: Vec)
    requires Valid(an) && Euclidean(an) && w.p0 != w.p1
    ensures var u := Sub(w.p1, w.p0);
      Dot(u, u) > 0.0 && RawParameter(an, w, p) == Dot(u, Sub(p, w.p0)) / Dot(u, u)
  {
    var u, d := Sub(w.p1, w.p0), Sub(p, w.p0);
    assert u != Zero;
    var len := an.norm(u);
    assert len > 0.0 && len * len == Dot(u, u);
    ProductPositive(len, len);
    ScaledDot(1.0 / len, u, d);
    InverseSquared(len, Dot(u, d));
  }

  /** `(1/l)² x` is `x / l²`. */
  lemma InverseSquared(len: real, x: real)
    requires len != 0.0
    ensures (1.0 / len) * (1.0 / len) * x == x / (len * len)
  {
  }

  /** Scaling both vectors by `k` scales their dot product by `k²`. */
  lemma ScaledDot(k: real, a: Vec, b: Vec)
    ensures Dot(Scale(k, a), Scale(k, b)) == k * k * Dot(a, b)
  {
  }

  /** The quadratic `pp - 2 s up + s² uu`. */
  function Quadratic(uu: real, up: real, pp: real, s: real): real {
    pp - 2.0 * s * up + s * s * uu
  }

  /** On the segment from `a` to `b`, the point at the clamped projection parameter of
      `x` is at least as close to `x` as the point at any parameter `s` of `[0, 1]`
      (distances compared through their squares). */
  lemma ClampedPointClosest(x: Vec, a: Vec, b: Vec, t: real, s: real)
    requires a != b && 0.0 <= s <= 1.0
    requires var u := Sub(b, a); Dot(u, u) > 0.0 && t == Dot(u, Sub(x, a)) / Dot(u, u)
    ensures var near, far := Sub(x, Lerp(a, b, Clamp01(t))), Sub(x, Lerp(a, b, s));
      Dot(near, near) <= Dot(far, far)
  {
    var u, p := Sub(b, a), Sub(x, a);
    var c := Clamp01(t);
    assert Dist1(c, t) <= Dist1(s, t);
    QuadraticCloser(Dot(u, u), Dot(u, p), Dot(p, p), c, s);
    SquaredDistanceAt(x, a, b, c);
    SquaredDistanceAt(x, a, b, s);
  }

  /** The squared distance from `x` to the point at parameter `s` of the segment, as a
      quadratic in `s`. */
  lemma SquaredDistanceAt(x: Vec, a: Vec, b: Vec, s: real)
    ensures var d, u, p := Sub(x, Lerp(a, b, s)), Sub(b, a), Sub(x, a);
      Dot(d, d) == Quadratic(Dot(u, u), Dot(u, p), Dot(p, p), s)
  {
  }

  /** For `uu > 0` the quadratic is smaller the closer `s` is to its lowest point
      `up / uu`. */
  lemma QuadraticCloser(uu: real, up: real, pp: real, c: real, s: real)
    requires uu > 0.0 && Dist1(c, up / uu) <= Dist1(s, up / uu)
    ensures Quadratic(uu, up, pp, c) <= Quadratic(uu, up, pp, s)
  {
    var t := up / uu;
    var dc, ds := Dist1(c, t), Dist1(s, t);
    SquareNonDecreasing(dc, ds);
    ProductMonotone(uu, dc * dc, ds * ds);
    CompletedSquare(uu, up, pp, c);
    CompletedSquare(uu, up, pp, s);
    ShiftedOrder(pp - t * t * uu, uu * (dc * dc), uu * (ds * ds),
                 Quadratic(uu, up, pp, c), Quadratic(uu, up, pp, s));
  }

  /** Completing the square: `pp - 2 x up + x² uu` is its lowest value plus `uu` times
      the squared distance from `x` to `up / uu`. */
  lemma CompletedSquare(uu: real, up: real, pp: real, x: real)
    requires uu > 0.0
    ensures var t := up / uu;
      Quadratic(uu, up, pp, x) == pp - t * t * uu + uu * (Dist1(x, t) * Dist1(x, t))
  {
    var t := up / uu;
    assert up == t * uu;
    assert Dist1(x, t) * Dist1(x, t) == (x - t) * (x - t);
  }

  /** `f_iW`: the force wall `j` exerts on agent `i`. */
  function WallForce(an: Analytic, de: DiffEq, i: nat, j: nat, r: Field, v: Field): (f: Vec)
    requires Valid(an) && |de.radius| == |r| == |v| && i < |r| && j < |de.walls|
    requires de.walls[j].p0 != de.walls[j].p1 && ClearOfWall(an, de, r, i, j)
    ensures var g := WallDistance(an, de, i, j, r);
      de.radius[i] <= g.distance ==>
        && f == Scale(A * an.exp((de.radius[i] - g.distance) / B), g.n)
        && SameDirection(f, Sub(r[i], g.nearest))
    ensures var g := WallDistance(an, de, i, j, r);
      var c := ContactCoefficients(an, de.radius[i] - g.distance, Dot(v[i], g.t));
      f == Sub(Scale(c.a, g.n), Scale(c.b, g.t))
  {
    var g := WallDistance(an, de, i, j, r);
    var c := ContactCoefficients(an, de.radius[i] - g.distance, Dot(v[i], g.t));
    var f := Sub(Scale(c.a, g.n), Scale(c.b, g.t));
    if de.radius[i] <= g.distance then
      NoContactRepels(c.a, g.n, Sub(r[i], g.nearest), g.distance, g.t);
      assert f == Add(Scale(c.a, g.n), Scale(0.0, g.t));
      f
    else
      f
  }

  /** The walls the force loop visits are in the table and none is a single point. */
  predicate WallsUsable(de: DiffEq) {
    && de.numberOfWalls <= |de.walls|
    && (forall j :: 0 <= j < de.numberOfWalls ==> de.walls[j].p0 != de.walls[j].p1)
  }

  /** Every agent is clear of every wall the force loop visits. */
  predicate ClearOfAllWalls(an: Analytic, de: DiffEq, r: Field)
    requires Valid(an) && WallsUsable(de) && |r| == de.n
  {
    forall i, j :: 0 <= i < de.n && 0 <= j < de.numberOfWalls ==> ClearOfWall(an, de, r, i, j)
  }

  /** Everything the wall-force loop reads is there and everything it divides by is
      non-zero: one radius, position and velocity per agent, usable walls, and no agent
      on a wall. */
  ghost predicate WallForcesDefined(an: Analytic, de: DiffEq, r: Field, v: Field) {
    && Valid(an) && |de.radius| == |r| == |v| == de.n && WallsUsable(de)
    && ClearOfAllWalls(an, de, r)
  }

  /** The forces of walls `0 .. number_of_walls - 1` on agent `i`, in loop order. */
  function WallForces(an: Analytic, de: DiffEq, r: Field, v: Field, i: nat): (fs: seq<Vec>)
    requires WallForcesDefined(an, de, r, v) && i < de.n
    ensures |fs| == de.numberOfWalls
  {
    seq(de.numberOfWalls, j requires 0 <= j < de.numberOfWalls => WallForce(an, de, i, j, r, v))
  }

  /** The inner loop of `f_wa` for agent `i`: the forces of walls
      `0 .. number_of_walls - 1` added up in turn, starting from zero. */
  method WallForceSum(an: Analytic, de: DiffEq, r: Field, v: Field, i: nat) returns (total: Vec)
    requires WallForcesDefined(an, de, r, v) && i < de.n
    ensures total == Sum(WallForces(an, de, r, v, i))
  {
    ghost var fs := WallForces(an, de, r, v, i);
    total := Zero;
    var j := 0;
    while j < de.numberOfWalls
      invariant 0 <= j <= de.numberOfWalls
      invariant total == SumTo(fs, j)
    {
      var f := WallForce(an, de, i, j, r, v);
      assert fs[j] == f;
      total := Add(total, f);
      j := j + 1;
    }
  }

  /** `f_wa`: a zeroed array with one entry per agent; entry `i` receives the sum of the
      forces of all walls on agent `i`. */
  method FWa(an: Analytic, de: DiffEq, r: Field, v: Field) returns (fWall: Field)
    requires WallForcesDefined(an, de, r, v)
    ensures |fWall| == de.n
    ensures forall i :: 0 <= i < de.n ==> fWall[i] == Sum(WallForces(an, de, r, v, i))
  {
    var acc := new Vec[de.n](_ => Zero);
    var i := 0;
    while i < de.n
      invariant 0 <= i <= de.n
      invariant forall p :: 0 <= p < i ==> acc[p] == Sum(WallForces(an, de, r, v, p))
    {
      var total := WallForceSum(an, de, r, v, i);
      acc[i] := total;
      i := i + 1;
    }
    fWall := acc[..];
  }

  /** No two agents share a position. */
  predicate AllApart(r: Field) {
    forall p, q :: 0 <= p < |r| && 0 <= q < |r| && p != q ==> Apart(r, p, q)
  }

  /** Entry (p, q) of the table `fij` that `f_ag` fills: the pair force above the
      diagonal, its negation below, zero on the diagonal. */
  function PairEntry(an: Analytic, de: DiffEq, r: Field, v: Field, p: nat, q: nat): Vec
    requires Valid(an) && |de.radius| == |r| == |v| && p < |r| && q < |r| && AllApart(r)
  {
    if p < q then PairForce(an, de, p, q, r, v)
    else if q < p then Neg(PairForce(an, de, q, p, r, v))
    else Zero
  }

  /** The table `fij` after the nested loop of `f_ag`. */
  function PairTable(an: Analytic, de: DiffEq, r: Field, v: Field): (t: seq<seq<Vec>>)
    requires Valid(an) && |de.radius| == |r| == |v| && AllApart(r)
    ensures |t| == |r| && Square(t)
    ensures forall p, q :: 0 <= p < |r| && 0 <= q < |r| ==> t[p][q] == PairEntry(an, de, r, v, p, q)
  {
    seq(|r|, p requires 0 <= p < |r| =>
      seq(|r|, q requires 0 <= q < |r| => PairEntry(an, de, r, v, p, q)))
  }

  /** Entry (p, q) is the negation of entry (q, p). */
  lemma PairEntryAntisymmetric(an: Analytic, de: DiffEq, r: Field, v: Field, p: nat, q: nat)
    requires Valid(an) && |de.radius| == |r| == |v| && p < |r| && q < |r| && AllApart(r)
    ensures PairEntry(an, de, r, v, p, q) == Neg(PairEntry(an, de, r, v, q, p))
  {
  }

  /** Off the diagonal, entry (p, q) is the force agent q exerts on agent p. */
  lemma PairEntryIsPairForce(an: Analytic, de: DiffEq, r: Field, v: Field, p: nat, q: nat)
    requires Valid(an) && |de.radius| == |r| == |v| && p < |r| && q < |r| && AllApart(r)
    requires p != q
    ensures PairEntry(an, de, r, v, p, q) == PairForce(an, de, p, q, r, v)
  {
    if q < p {
      assert Apart(r, q, p);
      PairForceAntisymmetric(an, de, q, p, r, v);
    }
  }

  /** The table that `f_ag` fills is antisymmetric. */
  lemma PairTableAntisymmetric(an: Analytic, de: DiffEq, r: Field, v: Field)
    requires Valid(an) && |de.radius| == |r| == |v| && AllApart(r)
    ensures Antisymmetric(PairTable(an, de, r, v))
  {
    var t := PairTable(an, de, r, v);
    forall p, q | 0 <= p < |r| && 0 <= q < |r|
      ensures t[p][q] == Neg(t[q][p])
    {
      PairEntryAntisymmetric(an, de, r, v, p, q);
    }
  }

  /** Above the diagonal the table holds the pair force, and its mirror entry holds
      the negation. */
  lemma PairTableAboveDiagonal(an: Analytic, de: DiffEq, r: Field, v: Field, p: nat, q: nat)
    requires Valid(an) && |de.radius| == |r| == |v| && AllApart(r) && p < q < |r|
    ensures var t := PairTable(an, de, r, v);
      t[p][q] == PairForce(an, de, p, q, r, v) && t[q][p] == Neg(t[p][q])
  {
  }

  /** The diagonal of the table keeps the zero it was allocated with: no agent exerts a
      force on itself. */
  lemma PairTableDiagonal(an: Analytic, de: DiffEq, r: Field, v: Field, p: nat)
    requires Valid(an) && |de.radius| == |r| == |v| && AllApart(r) && p < |r|
    ensures PairTable(an, de, r, v)[p][p] == Zero
  {
  }

  /** The per-agent sum of the forces the other agents exert on it. */
  function AgentForces(an: Analytic, de: DiffEq, r: Field, v: Field): (fs: Field)
    requires Valid(an) && |de.radius| == |r| == |v| && AllApart(r)
    ensures |fs| == |r|
    ensures Sum(fs) == Zero
  {
    PairTableAntisymmetric(an, de, r, v);
    AntisymmetricRowSumsCancel(PairTable(an, de, r, v));
    RowSums(PairTable(an, de, r, v))
  }

  /** Cell (p, q) of the table has been written by the loop of `f_ag` once row `i` is
      being filled and `jj` of its entries right of the diagonal are done. */
  ghost predicate Filled(i: nat, jj: nat, p: nat, q: nat) {
    (p != q && (p < i || q < i)) || (p == i && i < q <= i + jj) || (q == i && i < p <= i + jj)
  }

  /** One pass of the outer loop of `f_ag`: write the pair forces of agent `i` with
      every later agent into row `i`, and their negations into column `i`. */
  method FillPairRow(an: Analytic, de: DiffEq, r: Field, v: Field, fij: array2<Vec>, i: nat,
                     ghost t: seq<seq<Vec>>)
    requires Valid(an) && |de.radius| == |r| == |v| && AllApart(r)
    requires t == PairTable(an, de, r, v)
    requires fij.Length0 == |r| && fij.Length1 == |r| && i + 1 < |r|
    requires forall p, q :: 0 <= p < |r| && 0 <= q < |r| ==>
      fij[p, q] == if Filled(i, 0, p, q) then t[p][q] else Zero
    modifies fij
    ensures forall p, q :: 0 <= p < |r| && 0 <= q < |r| ==>
      fij[p, q] == if Filled(i + 1, 0, p, q) then t[p][q] else Zero
  {
    var n := |r|;
    var jj := 0;
    while jj < n - 1 - i
      invariant 0 <= jj <= n - 1 - i
      invariant forall p, q :: 0 <= p < n && 0 <= q < n ==>
        fij[p, q] == if Filled(i, jj, p, q) then t[p][q] else Zero
    {
      var q := jj + i + 1;
      PairTableAboveDiagonal(an, de, r, v, i, q);
      assert forall p, p' :: Filled(i, jj + 1, p, p') <==>
        Filled(i, jj, p, p') || (p == i && p' == q) || (p == q && p' == i);
      fij[i, q] := PairForce(an, de, i, q, r, v);
      fij[q, i] := Neg(fij[i, q]);
      jj := jj + 1;
    }
    assert forall p, q :: 0 <= p < n && 0 <= q < n ==>
      (Filled(i, jj, p, q) <==> Filled(i + 1, 0, p, q));
  }

  /** The nested loop of `f_ag`: over `i < number_of_agents - 1` and the agents after
      `i`, write each pair force above the diagonal and its negation below; the
      diagonal keeps the zero it was allocated with. */
  method FillPairTable(an: Analytic, de: DiffEq, r: Field, v: Field) returns (fij: array2<Vec>)
    requires Valid(an) && |de.radius| == |r| == |v| && AllApart(r)
    ensures fresh(fij) && fij.Length0 == |r| && fij.Length1 == |r|
    ensures forall p, q :: 0 <= p < |r| && 0 <= q < |r| ==> fij[p, q] == PairTable(an, de, r, v)[p][q]
  {
    var n := |r|;
    ghost var t := PairTable(an, de, r, v);
    fij := new Vec[n, n]((_, _) => Zero);
    var i := 0;
    while i + 1 < n
      invariant 0 <= i <= n && (n > 0 ==> i <= n - 1)
      invariant forall p, q :: 0 <= p < n && 0 <= q < n ==>
        fij[p, q] == if Filled(i, 0, p, q) then t[p][q] else Zero
    {
      FillPairRow(an, de, r, v, fij, i, t);
      i := i + 1;
    }
    forall p, q | 0 <= p < n && 0 <= q < n ensures fij[p, q] == t[p][q] {
      assert Filled(i, 0, p, q) || p == q;
    }
  }

  /** `f_ag`: fill the antisymmetric table of pair forces, then sum each row. The
      agents' forces on each other add up to zero. */
  method FAg(an: Analytic, de: DiffEq, r: Field, v: Field) returns (fAgent: Field)
    requires Valid(an) && |de.radius| == |r| == |v| && AllApart(r)
    ensures fAgent == AgentForces(an, de, r, v)
    ensures Sum(fAgent) == Zero
  {
    var n := |r|;
    var fij := FillPairTable(an, de, r, v);
    var rows := seq(n, p requires 0 <= p < n reads fij =>
      seq(n, q requires 0 <= q < n reads fij => fij[p, q]));
    ghost var t := PairTable(an, de, r, v);
    forall p | 0 <= p < n ensures rows[p] == t[p] {
      assert |rows[p]| == |t[p]| == n;
      forall q | 0 <= q < n ensures rows[p][q] == t[p][q] {
      }
    }
    assert rows == t;
    fAgent := RowSums(rows);
  }

  /** `denom` of `seg_intersect`: zero exactly when the two lines are parallel. */
  function Denom(a1: Vec, a2: Vec, b1: Vec, b2: Vec): real {
    Dot(Perp(Sub(a2, a1)), Sub(b2, b1))
  }

  /** `seg_intersect`: the intersection of the line through `a1, a2` with the line
      through `b1, b2`, found on the second line. */
  function SegIntersect(a1: Vec, a2: Vec, b1: Vec, b2: Vec): (p: Vec)
    requires Denom(a1, a2, b1, b2) != 0.0
    ensures Dot(Perp(Sub(a2, a1)), Sub(p, a1)) == 0.0
    ensures Cross(Sub(p, b1), Sub(b2, b1)) == 0.0
  {
    var da, db, dp := Sub(a2, a1), Sub(b2, b1), Sub(a1, b1);
    var dap := Perp(da);
    var denom, num := Dot(dap, db), Dot(dap, dp);
    var s := num / denom;
    var p := Add(Scale(s, db), b1);
    assert Sub(p, a1) == Sub(Scale(s, db), dp);
    assert Dot(dap, Sub(Scale(s, db), dp)) == s * denom - num;
    assert s * denom == num;
    assert Sub(p, b1) == Scale(s, db);
    assert Cross(Scale(s, db), db) == s * (db.x * db.y - db.y * db.x);
    p
  }

  /** `is_between`: `c` lies between `a` and `b` when going through it costs no extra
      length. */
  function IsBetween(an: Analytic, a: Vec, b: Vec, c: Vec): (between: bool)
    requires Valid(an)
    ensures c == a || c == b ==> between
  {
    assert Sub(a, a) == Zero && Sub(b, b) == Zero;
    an.norm(Sub(a, c)) + an.norm(Sub(c, b)) == an.norm(Sub(a, b))
  }

  /** For a homogeneous norm, every point of the closed segment from `a` to `b` passes
      `is_between`: at parameter `s` the two legs have lengths `s` and `1 - s` times the
      whole. */
  lemma OnSegmentIsBetween(an: Analytic, a: Vec, b: Vec, c: Vec)
    requires Valid(an) && Homogeneous(an) && OnSegment(c, Wall(a, b))
    ensures IsBetween(an, a, b, c)
  {
    var s :| 0.0 <= s <= 1.0 && c == Lerp(a, b, s);
    LegsOfSegment(a, b, s);
    var ab := Sub(a, b);
    assert an.norm(Scale(s, ab)) == s * an.norm(ab);
    assert an.norm(Scale(1.0 - s, ab)) == (1.0 - s) * an.norm(ab);
  }

  /** The legs from `a` to the point at parameter `s` and from there to `b` are `s` and
      `1 - s` times `a - b`. */
  lemma LegsOfSegment(a: Vec, b: Vec, s: real)
    ensures Sub(a, Lerp(a, b, s)) == Scale(s, Sub(a, b))
    ensures Sub(Lerp(a, b, s), b) == Scale(1.0 - s, Sub(a, b))
  {
  }

  /** Which destination `e_0` steers agent `i` to: with two destinations the first half
      of the agents (`i < N / 2`) take the first one and the others the second. */
  function DestinationIndex(de: DiffEq, i: nat): (k: nat)
    requires 1 <= |de.rD| <= 2
    ensures k < |de.rD|
    ensures |de.rD| == 2 ==> (k == 0 <==> 2 * i < de.n)
    ensures |de.rD| == 1 ==> k == 0
  {
    if |de.rD| == 2 && 2 * i >= de.n then 1 else 0
  }

  /** `e_0`: the unit vector from the agent's position straight to its destination. */
  function E0(an: Analytic, de: DiffEq, ri: Vec, i: nat): (e: Vec)
    requires Valid(an) && 1 <= |de.rD| <= 2 && ri != de.rD[DestinationIndex(de, i)]
    ensures var target := Sub(de.rD[DestinationIndex(de, i)], ri);
      SameDirection(e, target) && Scale(an.norm(target), e) == target
  {
    var target := Sub(de.rD[DestinationIndex(de, i)], ri);
    assert target != Zero;
    Normalized(an, target)
  }

  /** The point `p` of `nearest_path`: twice the agent's radius past the wall endpoint
      with the shorter route (agent to endpoint to destination), the first endpoint on a
      tie. With the wall direction of `direction`, the point lies on the wall's line,
      beyond the chosen endpoint. */
  function DetourPoint(an: Analytic, de: DiffEq, w: Wall, wallNorm: Vec, ri: Vec, i: nat): (p: Vec)
    requires Valid(an) && |de.rD| == 1 && i < |de.radius| && w.p0 != w.p1
    ensures var goal := de.rD[0];
      var via0 := an.norm(Sub(goal, w.p0)) + an.norm(Sub(ri, w.p0));
      var via1 := an.norm(Sub(goal, w.p1)) + an.norm(Sub(ri, w.p1));
      wallNorm == Normalized(an, Sub(w.p0, w.p1)) && de.radius[i] > 0.0 ==>
        && (via0 <= via1 ==> PastEnd(p, w.p0, w.p1))
        && (via1 < via0 ==> PastEnd(p, w.p1, w.p0))
  {
    var goal := de.rD[0];
    var via0 := an.norm(Sub(goal, w.p0)) + an.norm(Sub(ri, w.p0));
    var via1 := an.norm(Sub(goal, w.p1)) + an.norm(Sub(ri, w.p1));
    var offset := Scale(2.0 * de.radius[i], wallNorm);
    var p := if via0 <= via1 then Add(w.p0, offset) else Sub(w.p1, offset);
    if wallNorm == Normalized(an, Sub(w.p0, w.p1)) && de.radius[i] > 0.0 then
      DetourBeyond(an, w, 2.0 * de.radius[i]);
      p
    else
      p
  }

  /** Moving a positive length along the wall direction from the first endpoint, or
      against it from the second, leaves the segment past that endpoint. */
  lemma DetourBeyond(an: Analytic, w: Wall, c: real)
    requires Valid(an) && w.p0 != w.p1 && c > 0.0
    ensures var u := Normalized(an, Sub(w.p0, w.p1));
      PastEnd(Add(w.p0, Scale(c, u)), w.p0, w.p1) && PastEnd(Sub(w.p1, Scale(c, u)), w.p1, w.p0)
  {
    var d := Sub(w.p0, w.p1);
    assert d != Zero;
    var len := an.norm(d);
    var u := Normalized(an, d);
    var s := c * (1.0 / len);
    assert 1.0 / len > 0.0;
    assert s > 0.0;
    assert Scale(c, u) == Scale(s, d);
    assert Add(w.p0, Scale(c, u)) == Add(w.p0, Scale(s, Sub(w.p0, w.p1)));
    assert Sub(w.p1, Scale(c, u)) == Add(w.p1, Scale(s, Sub(w.p1, w.p0)));
  }

  /** `nearest_path`: the unit vector from the agent to the detour point. (The source
      also passes `t_or_f` and `point`, which it does not use.) */
  function NearestPath(an: Analytic, de: DiffEq, w: Wall, wallNorm: Vec, ri: Vec, i: nat): (e: Vec)
    requires Valid(an) && |de.rD| == 1 && i < |de.radius| && w.p0 != w.p1
    requires DetourPoint(an, de, w, wallNorm, ri, i) != ri
    ensures var toDetour := Sub(DetourPoint(an, de, w, wallNorm, ri, i), ri);
      SameDirection(e, toDetour) && Scale(an.norm(toDetour), e) == toDetour
  {
    var toDetour := Sub(DetourPoint(an, de, w, wallNorm, ri, i), ri);
    assert toDetour != Zero;
    Normalized(an, toDetour)
  }

  /** The condition under which `direction` sends agent `i` around wall `j`: its path to
      the exit crosses the wall closer to the exit than itself (within a radius), or it
      is closer than its diameter to an endpoint and farther from the exit than the
      crossing point. */
  function Blocked(an: Analytic, de: DiffEq, i: nat, j: nat, r: Field): bool
    requires Valid(an) && |de.rD| == 1 && |de.radius| == |r| && i < |r| && j < |de.walls|
    requires Denom(r[i], de.rD[0], de.walls[j].p0, de.walls[j].p1) != 0.0
  {
    var w, goal, ri := de.walls[j], de.rD[0], r[i];
    var point := SegIntersect(ri, goal, w.p0, w.p1);
    var crosses := IsBetween(an, w.p0, w.p1, point);
    (crosses && an.norm(Sub(goal, ri)) + de.radius[i] > an.norm(Sub(goal, point)))
    || (Min(an.norm(Sub(ri, w.p0)), an.norm(Sub(ri, w.p1))) < Abs(2.0 * de.radius[i])
        && an.norm(Sub(goal, ri)) > an.norm(Sub(goal, point)))
  }

  /** Everything `direction(i, j)` divides by is non-zero. */
  predicate DirectionDefined(an: Analytic, de: DiffEq, i: nat, j: nat, r: Field)
    requires Valid(an) && WellFormed(de) && |r| == de.n
  {
    && |de.rD| == 1 && i < |r| && j < |de.walls|
    && Denom(r[i], de.rD[0], de.walls[j].p0, de.walls[j].p1) != 0.0
    && (if Blocked(an, de, i, j, r)
        then DetourPoint(an, de, de.walls[j], Normalized(an, Sub(de.walls[j].p0, de.walls[j].p1)), r[i], i) != r[i]
        else r[i] != de.rD[0])
  }

  /** `direction(i, j)`: around wall `j` when it blocks the agent, else straight on. */
  function Direction(an: Analytic, de: DiffEq, i: nat, j: nat, r: Field): (e: Vec)
    requires Valid(an) && WellFormed(de) && |r| == de.n && DirectionDefined(an, de, i, j, r)
    ensures var w := de.walls[j];
      var wallNorm := Normalized(an, Sub(w.p0, w.p1));
      if Blocked(an, de, i, j, r)
      then SameDirection(e, Sub(DetourPoint(an, de, w, wallNorm, r[i], i), r[i]))
      else e == E0(an, de, r[i], i)
  {
    var w := de.walls[j];
    assert Sub(w.p0, w.p1) != Zero;
    var wallNorm := Normalized(an, Sub(w.p0, w.p1));
    if Blocked(an, de, i, j, r) then NearestPath(an, de, w, wallNorm, r[i], i)
    else E0(an, de, r[i], i)
  }

  /** `np.argmin`: the first index of a smallest entry. */
  function ArgMin(s: seq<real>): (k: nat)
    requires |s| > 0
    ensures k < |s|
    ensures forall q :: 0 <= q < |s| ==> s[k] <= s[q]
    ensures forall q :: 0 <= q < k ==> s[q] > s[k]
  {
    if |s| == 1 then 0
    else
      var k := ArgMin(s[..|s| - 1]);
      assert forall q :: 0 <= q < |s| - 1 ==> s[..|s| - 1][q] == s[q];
      if s[|s| - 1] < s[k] then |s| - 1 else k
  }

  /** The line from every agent position in `r` to the (first) destination crosses the
      line of every wall from index 5 on. */
  predicate CrossesInteriorWalls(de: DiffEq, ri: Vec)
    requires 1 <= |de.rD|
  {
    forall j :: 5 <= j < |de.walls| ==> Denom(ri, de.rD[0], de.walls[j].p0, de.walls[j].p1) != 0.0
  }

  /** `distance[j - 5]` of `nearest_wall`: how far the agent would walk toward the exit
      before meeting the line of wall `j`. */
  function ObstacleDistance(an: Analytic, de: DiffEq, ri: Vec, j: nat): real
    requires 1 <= |de.rD| && 5 <= j < |de.walls| && CrossesInteriorWalls(de, ri)
  {
    var w := de.walls[j];
    an.norm(Sub(SegIntersect(ri, de.rD[0], w.p0, w.p1), ri))
  }

  /** The distances `nearest_wall` computes, one per wall from index 5 on. */
  function ObstacleDistances(an: Analytic, de: DiffEq, ri: Vec): (ds: seq<real>)
    requires 1 <= |de.rD| && 5 <= |de.walls| && CrossesInteriorWalls(de, ri)
    ensures |ds| == |de.walls| - 5
    ensures forall q :: 0 <= q < |ds| ==> ds[q] == ObstacleDistance(an, de, ri, q + 5)
  {
    seq(|de.walls| - 5, q requires 0 <= q < |de.walls| - 5 => ObstacleDistance(an, de, ri, q + 5))
  }

  /** The wall `nearest_wall` picks: 5 plus the argmin of the distances. */
  function NearestWallIndex(an: Analytic, de: DiffEq, ri: Vec): nat
    requires 1 <= |de.rD| && 5 < |de.walls| && CrossesInteriorWalls(de, ri)
  {
    5 + ArgMin(ObstacleDistances(an, de, ri))
  }

  /** The loop of `np.argmin` over an array: the first index of a smallest entry. */
  method ArgMinIndex(distance: array<real>) returns (best: nat)
    requires distance.Length > 0
    ensures best == ArgMin(distance[..])
  {
    best := 0;
    var q := 1;
    while q < distance.Length
      invariant 1 <= q <= distance.Length
      invariant best == ArgMin(distance[..q])
    {
      assert distance[..q + 1][..q] == distance[..q];
      if distance[q] < distance[best] {
        best := q;
      }
      q := q + 1;
    }
    assert distance[..q] == distance[..];
  }

  /** `nearest_wall`: of the walls from index 5 on, the first one whose line the agent
      meets soonest on its way to the exit. */
  method NearestWall(an: Analytic, de: DiffEq, ri: Vec) returns (j: nat)
    requires 1 <= |de.rD| && 5 < |de.walls| && CrossesInteriorWalls(de, ri)
    ensures 5 <= j < |de.walls|
    ensures forall q :: 5 <= q < |de.walls| ==>
      ObstacleDistance(an, de, ri, j) <= ObstacleDistance(an, de, ri, q)
    ensures forall q :: 5 <= q < j ==>
      ObstacleDistance(an, de, ri, q) > ObstacleDistance(an, de, ri, j)
    ensures j == NearestWallIndex(an, de, ri)
  {
    var count := |de.walls| - 5;
    var distance := new real[count];
    var q := 0;
    while q < count
      invariant 0 <= q <= count
      invariant forall p :: 0 <= p < q ==> distance[p] == ObstacleDistance(an, de, ri, p + 5)
    {
      var w := de.walls[q + 5];
      distance[q] := an.norm(Sub(SegIntersect(ri, de.rD[0], w.p0, w.p1), ri));
      q := q + 1;
    }
    ghost var ds := ObstacleDistances(an, de, ri);
    assert distance[..] == ds;
    var best := ArgMinIndex(distance);
    j := 5 + best;
    forall q | 5 <= q < |de.walls| ensures ds[q - 5] == ObstacleDistance(an, de, ri, q) {
    }
  }

  /** Everything the heading of agent `i` divides by is non-zero: its destination when
      no interior walls steer, otherwise the wall crossings and the chosen direction. */
  predicate HeadingDefined(an: Analytic, de: DiffEq, r: Field, i: nat)
    requires Valid(an) && WellFormed(de) && |r| == de.n && i < de.n
  {
    if !de.wallShear then r[i] != de.rD[DestinationIndex(de, i)]
    else CrossesInteriorWalls(de, r[i])
         && DirectionDefined(an, de, i, NearestWallIndex(an, de, r[i]), r)
  }

  /** Column `i` of `e_t`: the agent's desired direction. */
  function Heading(an: Analytic, de: DiffEq, r: Field, i: nat): Vec
    requires Valid(an) && WellFormed(de) && |r| == de.n && i < de.n && HeadingDefined(an, de, r, i)
  {
    if !de.wallShear then E0(an, de, r[i], i)
    else Direction(an, de, i, NearestWallIndex(an, de, r[i]), r)
  }

  predicate AllHeadingsDefined(an: Analytic, de: DiffEq, r: Field)
    requires Valid(an) && WellFormed(de) && |r| == de.n
  {
    forall i :: 0 <= i < de.n ==> HeadingDefined(an, de, r, i)
  }

  /** Every agent's heading is defined, in a well-formed object. */
  ghost predicate HeadingsDefined(an: Analytic, de: DiffEq, r: Field) {
    Valid(an) && WellFormed(de) && |r| == de.n && AllHeadingsDefined(an, de, r)
  }

  /** The desired direction of every agent. */
  function Headings(an: Analytic, de: DiffEq, r: Field): (hs: Field)
    requires HeadingsDefined(an, de, r)
    ensures |hs| == de.n
  {
    seq(de.n, i requires 0 <= i < de.n => Heading(an, de, r, i))
  }

  /** One pass of the second loop of `e_t`: the direction of agent `i` around the
      interior wall it meets first. */
  method SteeredHeading(an: Analytic, de: DiffEq, r: Field, i: nat) returns (e: Vec)
    requires HeadingsDefined(an, de, r) && i < de.n && de.wallShear
    ensures e == Headings(an, de, r)[i]
  {
    assert HeadingDefined(an, de, r, i);
    var j := NearestWall(an, de, r[i]);
    e := Direction(an, de, i, j, r);
    assert e == Heading(an, de, r, i);
  }

  /** The first loop of `e_t`, for rooms without interior walls: column `i` of the
      zeroed array becomes the straight heading of agent `i` to its destination. */
  method StraightHeadings(an: Analytic, de: DiffEq, r: Field, eTemp: array<Vec>)
    requires HeadingsDefined(an, de, r)
    requires !de.wallShear && eTemp.Length == de.n
    modifies eTemp
    ensures eTemp[..] == Headings(an, de, r)
  {
    ghost var hs := Headings(an, de, r);
    for i := 0 to de.n
      invariant forall p :: 0 <= p < i ==> eTemp[p] == hs[p]
    {
      assert HeadingDefined(an, de, r, i);
      eTemp[i] := E0(an, de, r[i], i);
      assert eTemp[i] == hs[i];
    }
  }

  /** The second loop of `e_t`, for rooms with interior walls: column `i` becomes the
      heading of agent `i` around the interior wall it meets first. */
  method SteeredHeadings(an: Analytic, de: DiffEq, r: Field, eTemp: array<Vec>)
    requires HeadingsDefined(an, de, r)
    requires de.wallShear && eTemp.Length == de.n
    modifies eTemp
    ensures eTemp[..] == Headings(an, de, r)
  {
    ghost var hs := Headings(an, de, r);
    for i := 0 to de.n
      invariant eTemp[..i] == hs[..i]
    {
      var e := SteeredHeading(an, de, r, i);
      eTemp[i] := e;
      assert eTemp[..i + 1] == eTemp[..i] + [e];
    }
    assert eTemp[..] == eTemp[..de.n];
  }

  /** `e_t`: the desired direction of every agent, written column by column into a
      zeroed array: straight to its exit when the room has no interior walls, otherwise
      steered by the nearest interior wall. */
  method ET(an: Analytic, de: DiffEq, r: Field) returns (eTemp: Field)
    requires HeadingsDefined(an, de, r)
    ensures eTemp == Headings(an, de, r)
  {
    var e := new Vec[de.n](_ => Zero);
    if !de.wallShear {
      StraightHeadings(an, de, r, e);
    } else {
      SteeredHeadings(an, de, r, e);
    }
    eTemp := e[..];
  }

  /** Everything `f` divides by is non-zero: no two agents share a position, no agent
      sits on a wall, and every heading is defined. */
  ghost predicate ForcesDefined(an: Analytic, de: DiffEq, r: Field, v: Field) {
    && Valid(an) && WellFormed(de) && |r| == |v| == de.n
    && AllApart(r) && ClearOfAllWalls(an, de, r) && AllHeadingsDefined(an, de, r)
  }

  /** The driving term: the gap between the desired velocity `v_0 e` and the velocity,
      over the relaxation time, which the source takes to be `time_step`. */
  function Drive(de: DiffEq, e: Vec, vi: Vec): Vec
    requires de.timeStep != 0.0
  {
    Scale(1.0 / de.timeStep, Sub(Scale(DesiredSpeed, e), vi))
  }

  /** The value of `f(r, v)`: per agent, the driving term plus the agent and wall forces
      divided by the agent's mass. */
  function Acceleration(an: Analytic, de: DiffEq, r: Field, v: Field): (acc: Field)
    requires ForcesDefined(an, de, r, v)
    ensures |acc| == de.n
  {
    var fag := AgentForces(an, de, r, v);
    seq(de.n, i requires 0 <= i < de.n =>
      Add(Add(Drive(de, Heading(an, de, r, i), v[i]), Scale(1.0 / de.m[i], fag[i])),
          Scale(1.0 / de.m[i], Sum(WallForces(an, de, r, v, i)))))
  }

  /** `f`: the acceleration of every agent. */
  method F(an: Analytic, de: DiffEq, r: Field, v: Field) returns (acc: Field)
    requires ForcesDefined(an, de, r, v)
    ensures acc == Acceleration(an, de, r, v)
  {
    var eTemp := ET(an, de, r);
    var fag := FAg(an, de, r, v);
    var fwa := FWa(an, de, r, v);
    acc := seq(de.n, i requires 0 <= i < de.n =>
      Add(Add(Scale(1.0 / de.timeStep, Sub(Scale(DesiredSpeed, eTemp[i]), v[i])),
              Scale(1.0 / de.m[i], fag[i])),
          Scale(1.0 / de.m[i], fwa[i])));
  }

  /** Mass times the acceleration of agent `i` is its mass times the driving term plus
      the total force of the other agents and of the walls on it. */
  lemma {:induction false} NewtonSecondLaw(an: Analytic, de: DiffEq, r: Field, v: Field, i: nat)
    requires ForcesDefined(an, de, r, v) && i < de.n
    ensures var acc, m := Acceleration(an, de, r, v), de.m[i];
      Scale(m, acc[i]) == Add(Add(Scale(m, Drive(de, Heading(an, de, r, i), v[i])),
                                  AgentForces(an, de, r, v)[i]),
                              Sum(WallForces(an, de, r, v, i)))
  {
    var m := de.m[i];
    var d := Drive(de, Heading(an, de, r, i), v[i]);
    var fa, fw := AgentForces(an, de, r, v)[i], Sum(WallForces(an, de, r, v, i));
    assert Acceleration(an, de, r, v)[i] == Add(Add(d, Scale(1.0 / m, fa)), Scale(1.0 / m, fw));
    MassTimesQuotients(m, d, fa, fw);
  }

  /** What is left of mass times acceleration of each agent once its mass times the
      driving term and the wall forces on it are taken away. */
  function Remainders(an: Analytic, de: DiffEq, r: Field, v: Field): (rest: Field)
    requires ForcesDefined(an, de, r, v)
    ensures |rest| == de.n
  {
    var acc := Acceleration(an, de, r, v);
    seq(de.n, i requires 0 <= i < de.n =>
      Sub(Sub(Scale(de.m[i], acc[i]), Scale(de.m[i], Drive(de, Heading(an, de, r, i), v[i]))),
          Sum(WallForces(an, de, r, v, i))))
  }

  /** The remainder of each agent is the total force the other agents exert on it. */
  lemma RemaindersAreAgentForces(an: Analytic, de: DiffEq, r: Field, v: Field)
    requires ForcesDefined(an, de, r, v)
    ensures Remainders(an, de, r, v) == AgentForces(an, de, r, v)
  {
    var rest, fag := Remainders(an, de, r, v), AgentForces(an, de, r, v);
    var acc := Acceleration(an, de, r, v);
    forall i | 0 <= i < de.n ensures rest[i] == fag[i] {
      NewtonSecondLaw(an, de, r, v, i);
      var md := Scale(de.m[i], Drive(de, Heading(an, de, r, i), v[i]));
      var fw := Sum(WallForces(an, de, r, v, i));
      assert rest[i] == Sub(Sub(Scale(de.m[i], acc[i]), md), fw);
      SubtractKnownTerms(md, fag[i], fw);
    }
  }

  /** The forces between agents are internal: summed over all agents, what is left of
      mass times acceleration after the driving terms and the wall forces is zero. */
  lemma AccelerationBalance(an: Analytic, de: DiffEq, r: Field, v: Field)
    requires ForcesDefined(an, de, r, v)
    ensures Sum(Remainders(an, de, r, v)) == Zero
  {
    RemaindersAreAgentForces(an, de, r, v);
  }

  /** `nearest_wall` scans the walls from index 5 on, but in the seven-wall rooms index 5
      is still the bottom side of the room (`SeventhWallRoomsKeepPerimeterAtFive`). So in
      those rooms the wall that steers an agent is the bottom side, not the interior
      wall, exactly when the line toward the exit meets the bottom side's line no farther
      away than the interior wall's line. */
  lemma NearestWallPicksBottomSide(an: Analytic, de: DiffEq, ri: Vec)
    requires 1 <= |de.rD| && |de.walls| == 7 && CrossesInteriorWalls(de, ri)
    ensures NearestWallIndex(an, de, ri) == 5
            <==> ObstacleDistance(an, de, ri, 5) <= ObstacleDistance(an, de, ri, 6)
    ensures NearestWallIndex(an, de, ri) == 6
            <==> ObstacleDistance(an, de, ri, 6) < ObstacleDistance(an, de, ri, 5)
  {
  }
}
