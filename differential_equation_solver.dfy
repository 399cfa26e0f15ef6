/** The leap-frog integrator of the evacuation run, with its escape bookkeeping: an
    agent within `EscapeRadius` of any destination has escaped, is moved far away and
    counted. */
module DifferentialEquationSolver {
  import opened Planar

  /** An agent closer than this to a destination has escaped. */
  const EscapeRadius := 0.1

  /** `np.amin`: the smallest entry, taken from the front. */
  function MinOf(s: seq<real>): real
    requires |s| > 0
  {
    if |s| == 1 then s[0] else Min(MinOf(s[..|s| - 1]), s[|s| - 1])
  }

  /** `MinOf` is one of the entries and no entry is smaller. */
  lemma {:induction false} MinOfIsSmallest(s: seq<real>)
    requires |s| > 0
    ensures exists k :: 0 <= k < |s| && s[k] == MinOf(s)
    ensures forall k :: 0 <= k < |s| ==> MinOf(s) <= s[k]
  {
    if |s| > 1 {
      var front := s[..|s| - 1];
      MinOfIsSmallest(front);
      assert MinOf(s) == Min(MinOf(front), s[|s| - 1]);
      forall k | 0 <= k < |s| - 1 ensures MinOf(s) <= s[k] {
        assert front[k] == s[k];
      }
      if MinOf(front) <= s[|s| - 1] {
        var k :| 0 <= k < |front| && front[k] == MinOf(front);
        assert s[k] == MinOf(s);
      } else {
        assert s[|s| - 1] == MinOf(s);
      }
    } else {
      assert s[0] == MinOf(s);
    }
  }

  /** The array `destination` of the escape check: the distance from `p` to each
      destination, in order. */
  function DestinationDistances(an: Analytic, p: Vec, dests: seq<Vec>): (ds: seq<real>)
    ensures |ds| == |dests|
    ensures forall c :: 0 <= c < |dests| ==> ds[c] == an.norm(Sub(p, dests[c]))
  {
    seq(|dests|, c requires 0 <= c < |dests| => an.norm(Sub(p, dests[c])))
  }

  /** The escape test: the smallest of the agent's distances to the destinations is
      below `EscapeRadius`. */
  predicate Escaped(an: Analytic, p: Vec, dests: seq<Vec>)
    requires |dests| > 0
  {
    MinOf(DestinationDistances(an, p, dests)) < EscapeRadius
  }

  /** An agent passes the escape test exactly when some destination is closer to it than
      `EscapeRadius`. */
  lemma EscapedIffNearSomeDestination(an: Analytic, p: Vec, dests: seq<Vec>)
    requires |dests| > 0
    ensures Escaped(an, p, dests)
        <==> exists c :: 0 <= c < |dests| && an.norm(Sub(p, dests[c])) < EscapeRadius
  {
    var ds := DestinationDistances(an, p, dests);
    MinOfIsSmallest(ds);
    if Escaped(an, p, dests) {
      var k :| 0 <= k < |ds| && ds[k] == MinOf(ds);
      assert an.norm(Sub(p, dests[k])) < EscapeRadius;
    }
  }

  /** The inner loop of the escape check for one agent: fill `destination` with the
      distances to every destination, then take the smallest. */
  method NearestDestinationDistance(an: Analytic, p: Vec, dests: seq<Vec>) returns (distance: real)
    requires |dests| > 0
    ensures distance == MinOf(DestinationDistances(an, p, dests))
    ensures forall c :: 0 <= c < |dests| ==> distance <= an.norm(Sub(p, dests[c]))
    ensures exists c :: 0 <= c < |dests| && distance == an.norm(Sub(p, dests[c]))
  {
    var destination := new real[|dests|](_ => 0.0);
    var count := 0;
    while count < |dests|
      invariant 0 <= count <= |dests|
      invariant forall c :: 0 <= c < count ==> destination[c] == an.norm(Sub(p, dests[c]))
    {
      destination[count] := an.norm(Sub(p, dests[count]));
      count := count + 1;
    }
    assert destination[..] == DestinationDistances(an, p, dests);
    distance := MinOf(destination[..]);
    MinOfIsSmallest(destination[..]);
  }

  /** The test the escape check applies to one agent. */
  method CheckAgent(an: Analytic, p: Vec, dests: seq<Vec>) returns (escaped: bool)
    requires |dests| > 0
    ensures escaped <==> Escaped(an, p, dests)
  {
    var distance := NearestDestinationDistance(an, p, dests);
    escaped := distance < EscapeRadius;
  }

  /** The positions once the escape check of step `k` has visited agents `0..n-1` in
      order: each visited agent that has escaped is at `far(k, i)`, every other agent
      is where it was. */
  function RelocatedUpTo(an: Analytic, y: Field, dests: seq<Vec>, far: (nat, nat) -> Vec, k: nat, n: nat): (moved: Field)
    requires |dests| > 0 && n <= |y|
    ensures |moved| == |y|
  {
    if n == 0 then y
    else
      var before := RelocatedUpTo(an, y, dests, far, k, n - 1);
      if Escaped(an, y[n - 1], dests) then before[n - 1 := far(k, n - 1)] else before
  }

  /** The positions after the whole escape check of step `k`. */
  function Relocated(an: Analytic, y: Field, dests: seq<Vec>, far: (nat, nat) -> Vec, k: nat): (moved: Field)
    requires |dests| > 0
    ensures |moved| == |y|
  {
    RelocatedUpTo(an, y, dests, far, k, |y|)
  }

  /** Agent `i` after the first `n` agents have been visited. */
  lemma {:induction false} RelocatedUpToAt(an: Analytic, y: Field, dests: seq<Vec>, far: (nat, nat) -> Vec,
                                           k: nat, n: nat, i: nat)
    requires |dests| > 0 && n <= |y| && i < |y|
    ensures RelocatedUpTo(an, y, dests, far, k, n)[i]
         == if i < n && Escaped(an, y[i], dests) then far(k, i) else y[i]
  {
    if n > 0 {
      RelocatedUpToAt(an, y, dests, far, k, n - 1, i);
    }
  }

  /** The escape check moves exactly the escaped agents, each to its own target, and
      leaves every other agent where it is. */
  lemma RelocatedMovesExactlyEscaped(an: Analytic, y: Field, dests: seq<Vec>, far: (nat, nat) -> Vec, k: nat, i: nat)
    requires |dests| > 0 && i < |y|
    ensures Escaped(an, y[i], dests) ==> Relocated(an, y, dests, far, k)[i] == far(k, i)
    ensures !Escaped(an, y[i], dests) ==> Relocated(an, y, dests, far, k)[i] == y[i]
  {
    RelocatedUpToAt(an, y, dests, far, k, |y|, i);
  }

  /** When no teleport target is itself at an exit, no agent is at an exit after the
      escape check. */
  lemma RelocatedLeavesNoneEscaped(an: Analytic, y: Field, dests: seq<Vec>, far: (nat, nat) -> Vec, k: nat)
    requires |dests| > 0
    requires forall i :: 0 <= i < |y| ==> !Escaped(an, far(k, i), dests)
    ensures forall i :: 0 <= i < |y| ==> !Escaped(an, Relocated(an, y, dests, far, k)[i], dests)
  {
    forall i | 0 <= i < |y| ensures !Escaped(an, Relocated(an, y, dests, far, k)[i], dests) {
      RelocatedMovesExactlyEscaped(an, y, dests, far, k, i);
    }
  }

  /** How many of agents `0..n-1` have escaped, counted in index order as the agent
      loop increments `escaped_counter`. */
  function EscapedUpTo(an: Analytic, y: Field, dests: seq<Vec>, n: nat): (c: nat)
    requires |dests| > 0 && n <= |y|
    ensures c <= n
  {
    if n == 0 then 0
    else EscapedUpTo(an, y, dests, n - 1) + (if Escaped(an, y[n - 1], dests) then 1 else 0)
  }

  /** How many agents the escape check counts. */
  function EscapeCount(an: Analytic, y: Field, dests: seq<Vec>): (c: nat)
    requires |dests| > 0
    ensures c <= |y|
  {
    EscapedUpTo(an, y, dests, |y|)
  }

  /** How many of `0..n-1` satisfy `f`. */
  function CountWhere(f: nat -> bool, n: nat): (c: nat)
    ensures c <= n
  {
    if n == 0 then 0 else CountWhere(f, n - 1) + (if f(n - 1) then 1 else 0)
  }

  /** Counting one index at a time gives the size of the set of indices counted. */
  lemma {:induction false} CountWhereIsCardinality(f: nat -> bool, n: nat)
    ensures CountWhere(f, n) == |set i: nat | i < n && f(i)|
  {
    if n > 0 {
      CountWhereIsCardinality(f, n - 1);
      var before := set i: nat | i < n - 1 && f(i);
      var after := set i: nat | i < n && f(i);
      if f(n - 1) {
        assert after == before + {n - 1};
      } else {
        assert after == before;
      }
    }
  }

  /** The escape counter over the first `n` agents counts the escaped agents among them. */
  lemma {:induction false} EscapedUpToCounts(an: Analytic, y: Field, dests: seq<Vec>, n: nat)
    requires |dests| > 0 && n <= |y|
    ensures EscapedUpTo(an, y, dests, n) == CountWhere((i: nat) => if i < |y| then Escaped(an, y[i], dests) else false, n)
  {
    if n > 0 {
      EscapedUpToCounts(an, y, dests, n - 1);
    }
  }

  /** The counter's increment at one step is the number of distinct escaped agents. */
  lemma EscapeCountIsCardinality(an: Analytic, y: Field, dests: seq<Vec>)
    requires |dests| > 0
    ensures EscapeCount(an, y, dests) == |set i: nat | i < |y| && Escaped(an, y[i], dests)|
  {
    var f := (i: nat) => if i < |y| then Escaped(an, y[i], dests) else false;
    EscapedUpToCounts(an, y, dests, |y|);
    CountWhereIsCardinality(f, |y|);
    assert (set i: nat | i < |y| && f(i)) == set i: nat | i < |y| && Escaped(an, y[i], dests);
  }

  /** The escape check of one step: for each agent in turn, compare its smallest
      distance to a destination with `EscapeRadius`; move it to `far(k, i)` and add one
      to the running counter if it is below. */
  method CheckEscapes(an: Analytic, pos: Field, dests: seq<Vec>, far: (nat, nat) -> Vec, k: nat,
                      counter: nat)
    returns (moved: Field, counter': nat)
    requires |dests| > 0
    ensures moved == Relocated(an, pos, dests, far, k)
    ensures counter' == counter + EscapeCount(an, pos, dests)
    ensures counter <= counter' <= counter + |pos|
  {
    moved := pos;
    counter' := counter;
    var i := 0;
    while i < |pos|
      invariant 0 <= i <= |pos|
      invariant moved == RelocatedUpTo(an, pos, dests, far, k, i)
      invariant counter' == counter + EscapedUpTo(an, pos, dests, i)
    {
      RelocatedUpToAt(an, pos, dests, far, k, i, i);
      var escaped := CheckAgent(an, moved[i], dests);
      if escaped {
        moved := moved[i := far(k, i)];
        counter' := counter' + 1;
      }
      i := i + 1;
    }
  }

  /** `f` gives one acceleration per agent. */
  ghost predicate PreservesShape(accel: (Field, Field) -> Field) {
    forall y, w :: |y| == |w| ==> |accel(y, w)| == |y|
  }

  /** The position update `y + dt v`. */
  function Drift(y: Field, v: Field, dt: real): (z: Field)
    requires |y| == |v|
    ensures |z| == |y|
  {
    AddF(y, ScaleF(dt, v))
  }

  /** The first velocity slot as the source writes it: `v[:, :, 0]` is all zeros when
      `+=` adds the half step, so `f` is evaluated at zero velocity and the given
      initial velocity is not used. */
  function StartVelocityAsWritten(y0: Field, v0: Field, accel: (Field, Field) -> Field, dt: real): (v: Field)
    requires |y0| == |v0| && PreservesShape(accel)
    ensures |v| == |y0|
  {
    var zero := ZeroField(|y0|);
    AddF(zero, ScaleF(0.5 * dt, accel(y0, zero)))
  }

  /** The start velocity as written does not depend on the initial velocity at all. */
  lemma StartVelocityAsWrittenIgnoresInitialVelocity(y0: Field, v0: Field, w0: Field,
                                                    accel: (Field, Field) -> Field, dt: real)
    requires |y0| == |v0| == |w0| && PreservesShape(accel)
    ensures StartVelocityAsWritten(y0, v0, accel, dt) == StartVelocityAsWritten(y0, w0, accel, dt)
  {
  }

  /** The half-step start velocity of leap-frog: the initial velocity plus half a step
      of the acceleration at the initial state. */
  function StartVelocity(y0: Field, v0: Field, accel: (Field, Field) -> Field, dt: real): (v: Field)
    requires |y0| == |v0| && PreservesShape(accel)
    ensures |v| == |y0|
  {
    AddF(v0, ScaleF(0.5 * dt, accel(y0, v0)))
  }

  /** Taking back the half step of acceleration from the start velocity gives the
      initial velocity. */
  lemma StartVelocityKeepsInitialVelocity(y0: Field, v0: Field, accel: (Field, Field) -> Field, dt: real)
    requires |y0| == |v0| && PreservesShape(accel)
    ensures AddF(StartVelocity(y0, v0, accel, dt), ScaleF(-0.5 * dt, accel(y0, v0))) == v0
  {
  }

  /** One agent at rest at the origin, with initial velocity `(1, 0)`, no acceleration
      and a unit step: the start velocity as written is zero, not `(1, 0)`. */
  lemma StartVelocityAsWrittenDropsInitialVelocity()
    ensures var accel := (y: Field, w: Field) => ZeroField(|y|);
      StartVelocityAsWritten([Zero], [Vec(1.0, 0.0)], accel, 1.0) == [Zero]
      && StartVelocity([Zero], [Vec(1.0, 0.0)], accel, 1.0) == [Vec(1.0, 0.0)]
  {
  }

  /** The velocity update of leap-frog at step `k`: the acceleration at the drifted
      position and at the velocity advanced by a full step of `a[k]`. */
  function NextVelocity(accel: (Field, Field) -> Field, y: Field, v: Field, a: Field, dt: real): (w: Field)
    requires |y| == |v| == |a| && PreservesShape(accel)
    ensures |w| == |v|
  {
    AddF(v, ScaleF(dt, accel(Drift(y, v, dt), AddF(v, ScaleF(dt, a)))))
  }

  /** The fixed inputs of a run: the analytic functions, the force law `f` (as an
      acceleration of positions and velocities), the step size, the exits, and the
      far-away point each escaped agent is moved to at each step. */
  datatype Setting = Setting(an: Analytic, accel: (Field, Field) -> Field, dt: real,
                             dests: seq<Vec>, far: (nat, nat) -> Vec)

  /** `f` returns one vector per agent and the room has at least one exit. */
  ghost predicate Admissible(st: Setting) {
    PreservesShape(st.accel) && |st.dests| > 0
  }

  /** What slot `k` of the integrator holds: positions, velocities and the running
      count of escaped agents. */
  datatype Phase = Phase(y: Field, v: Field, escaped: nat)

  /** One pass of the step loop from slot `k` to slot `k + 1`: drift the positions,
      advance the velocities, then run the escape check on the drifted positions and add
      its count to the running total. */
  function Step(st: Setting, s: Phase, k: nat): (t: Phase)
    requires Admissible(st) && |s.y| == |s.v|
    ensures |t.y| == |t.v| == |s.y|
    ensures t.escaped >= s.escaped
  {
    var drifted := Drift(s.y, s.v, st.dt);
    Phase(Relocated(st.an, drifted, st.dests, st.far, k),
          NextVelocity(st.accel, s.y, s.v, st.accel(s.y, s.v), st.dt),
          s.escaped + EscapeCount(st.an, drifted, st.dests))
  }

  /** Slot `k` of a run whose slot 0 holds the positions `y0` and the velocities `w0`:
      the reference definition the integrator is proved against. */
  function PhaseAt(st: Setting, y0: Field, w0: Field, k: nat): (s: Phase)
    requires Admissible(st) && |y0| == |w0|
    ensures |s.y| == |s.v| == |y0|
  {
    if k == 0 then Phase(y0, w0, 0)
    else Step(st, PhaseAt(st, y0, w0, k - 1), k - 1)
  }

  /** The run as written is the intended run started from rest: slot 0 of `leap_frog`
      holds the intended start velocity for a zero initial velocity, whatever velocity
      was given. */
  lemma AsWrittenStartsFromRest(st: Setting, y0: Field, v0: Field, k: nat)
    requires Admissible(st) && |y0| == |v0|
    ensures var z := ZeroField(|y0|);
      StartVelocityAsWritten(y0, v0, st.accel, st.dt) == StartVelocity(y0, z, st.accel, st.dt)
      && PhaseAt(st, y0, StartVelocityAsWritten(y0, v0, st.accel, st.dt), k)
         == PhaseAt(st, y0, StartVelocity(y0, z, st.accel, st.dt), k)
  {
  }

  /** The running count of escaped agents never drops. */
  lemma {:induction false} EscapedCountNeverDrops(st: Setting, y0: Field, w0: Field, k: nat, k': nat)
    requires Admissible(st) && |y0| == |w0| && k <= k'
    ensures PhaseAt(st, y0, w0, k).escaped <= PhaseAt(st, y0, w0, k').escaped
    decreases k' - k
  {
    if k < k' {
      EscapedCountNeverDrops(st, y0, w0, k + 1, k');
    }
  }

  /** After `k` steps at most `k` times the number of agents have been counted, since
      each check counts every agent at most once. */
  lemma {:induction false} EscapedCountBounded(st: Setting, y0: Field, w0: Field, k: nat)
    requires Admissible(st) && |y0| == |w0|
    ensures PhaseAt(st, y0, w0, k).escaped <= k * |y0|
  {
    if k > 0 {
      EscapedCountBounded(st, y0, w0, k - 1);
      var s := PhaseAt(st, y0, w0, k - 1);
      var c := EscapeCount(st.an, Drift(s.y, s.v, st.dt), st.dests);
      assert PhaseAt(st, y0, w0, k).escaped == s.escaped + c;
      assert c <= |y0|;
      OneMoreRound(k - 1, |y0|);
    }
  }

  /** `(k + 1) n` is `k n` plus `n`. */
  lemma OneMoreRound(k: nat, n: nat)
    ensures k * n + n == (k + 1) * n
  {
  }

  /** Each step moves exactly the agents its escape check finds at an exit: agent `i`
      ends slot `k + 1` at `far(k, i)` if its drifted position is within
      `EscapeRadius` of an exit, and at the drifted position otherwise. */
  lemma StepMovesEscapedAgents(st: Setting, y0: Field, w0: Field, k: nat, i: nat)
    requires Admissible(st) && |y0| == |w0| && i < |y0|
    ensures var s := PhaseAt(st, y0, w0, k);
      var drifted := Drift(s.y, s.v, st.dt)[i];
      PhaseAt(st, y0, w0, k + 1).y[i]
        == if Escaped(st.an, drifted, st.dests) then st.far(k, i) else drifted
  {
    var s := PhaseAt(st, y0, w0, k);
    RelocatedMovesExactlyEscaped(st.an, Drift(s.y, s.v, st.dt), st.dests, st.far, k, i);
  }

  /** The count of step `k` adds exactly the number of distinct agents whose drifted
      position is at an exit, so it grows by at most the number of agents. */
  lemma StepEscapeIncrement(st: Setting, y0: Field, w0: Field, k: nat)
    requires Admissible(st) && |y0| == |w0|
    ensures var s := PhaseAt(st, y0, w0, k);
      var drifted := Drift(s.y, s.v, st.dt);
      var added := PhaseAt(st, y0, w0, k + 1).escaped - s.escaped;
      && added == |set i: nat | i < |y0| && Escaped(st.an, drifted[i], st.dests)|
      && 0 <= added <= |y0|
  {
    var s := PhaseAt(st, y0, w0, k);
    EscapeCountIsCardinality(st.an, Drift(s.y, s.v, st.dt), st.dests);
  }

  /** The buffers of the step loop once slot `k` is filled: slots `0 .. k` of the
      positions, velocities and counts agree with `PhaseAt`, the accelerations of the
      earlier slots are `f` there, and the others are still zero. */
  ghost predicate Slots(st: Setting, y0: Field, w0: Field, y: seq<Field>, v: seq<Field>,
                        a: seq<Field>, esc: seq<nat>, k: nat) {
    && Admissible(st) && |y0| == |w0|
    && |y| == |v| == |a| == |esc| && k < |y|
    && (forall p :: 0 <= p <= k ==> Phase(y[p], v[p], esc[p]) == PhaseAt(st, y0, w0, p))
    && (forall p :: 0 <= p < k ==> a[p] == st.accel(y[p], v[p]))
    && (forall p :: k <= p < |a| ==> a[p] == ZeroField(|y0|))
  }

  /** Writing slot `k + 1` and the acceleration of slot `k` as the step loop does keeps
      the buffers in agreement with `PhaseAt`. */
  lemma SlotsExtend(st: Setting, y0: Field, w0: Field, y: seq<Field>, v: seq<Field>,
                    a: seq<Field>, esc: seq<nat>, k: nat, next: Phase, ak: Field)
    requires Slots(st, y0, w0, y, v, a, esc, k) && k + 1 < |y|
    requires next == Step(st, PhaseAt(st, y0, w0, k), k) && ak == st.accel(y[k], v[k])
    ensures Slots(st, y0, w0, y[k + 1 := next.y], v[k + 1 := next.v], a[k := ak],
                  esc[k + 1 := next.escaped], k + 1)
  {
    var y', v', a', esc' := y[k + 1 := next.y], v[k + 1 := next.v], a[k := ak], esc[k + 1 := next.escaped];
    assert PhaseAt(st, y0, w0, k + 1) == next;
    forall p | 0 <= p <= k + 1 ensures Phase(y'[p], v'[p], esc'[p]) == PhaseAt(st, y0, w0, p) {
      if p <= k {
        assert y'[p] == y[p] && v'[p] == v[p] && esc'[p] == esc[p];
      }
    }
    forall p | 0 <= p < k + 1 ensures a'[p] == st.accel(y'[p], v'[p]) {
      assert y'[p] == y[p] && v'[p] == v[p];
    }
    forall p | k + 1 <= p < |a'| ensures a'[p] == ZeroField(|y0|) {
      assert a'[p] == a[p];
    }
  }

  /** Zeroed buffers holding the initial positions, a start velocity `w0` and a zero
      count in slot 0 are the buffers of the step loop before its first pass. */
  lemma SlotsStart(st: Setting, y0: Field, w0: Field, y: seq<Field>, v: seq<Field>,
                   a: seq<Field>, esc: seq<nat>)
    requires Admissible(st) && |y0| == |w0|
    requires |y| == |v| == |a| == |esc| > 0
    requires y[0] == y0 && v[0] == w0 && esc[0] == 0
    requires forall p :: 0 <= p < |a| ==> a[p] == ZeroField(|y0|)
    ensures Slots(st, y0, w0, y, v, a, esc, 0)
  {
  }

  /** Once the last slot is filled, every slot agrees with `PhaseAt`, the stored
      accelerations are `f` at their slot except in the last, still zero, slot, and
      the running count never drops. */
  lemma SlotsFinal(st: Setting, y0: Field, w0: Field, y: seq<Field>, v: seq<Field>,
                   a: seq<Field>, esc: seq<nat>)
    requires |y| > 0 && Slots(st, y0, w0, y, v, a, esc, |y| - 1)
    ensures forall k :: 0 <= k < |y| ==> Phase(y[k], v[k], esc[k]) == PhaseAt(st, y0, w0, k)
    ensures forall k :: 0 <= k < |y| - 1 ==> a[k] == st.accel(y[k], v[k])
    ensures a[|y| - 1] == ZeroField(|y0|)
    ensures forall k, k' :: 0 <= k <= k' < |y| ==> esc[k] <= esc[k']
  {
    forall k, k' | 0 <= k <= k' < |y| ensures esc[k] <= esc[k'] {
      EscapedCountNeverDrops(st, y0, w0, k, k');
    }
  }

  /** One pass of the step loop of `leap_frog`: drift slot `k` into slot `k + 1`, store
      `f` at slot `k` in `a[k]`, advance the velocity from the pre-escape positions, then
      run the escape check on slot `k + 1` and store the running count. */
  method StepSlot(st: Setting, ghost y0: Field, ghost w0: Field, y: array<Field>, v: array<Field>,
                  a: array<Field>, agentsEscaped: array<nat>, k: nat, counter: nat)
    returns (counter': nat)
    requires y != v && y != a && v != a
    requires Slots(st, y0, w0, y[..], v[..], a[..], agentsEscaped[..], k) && k + 1 < y.Length
    requires counter == agentsEscaped[k]
    modifies y, v, a, agentsEscaped
    ensures Slots(st, y0, w0, y[..], v[..], a[..], agentsEscaped[..], k + 1)
    ensures counter' == agentsEscaped[k + 1]
  {
    ghost var ys, vs, acs, es := y[..], v[..], a[..], agentsEscaped[..];
    var yk, vk := y[k], v[k];
    ghost var next := Step(st, Phase(yk, vk, counter), k);
    assert PhaseAt(st, y0, w0, k) == Phase(yk, vk, counter);
    var drifted := Drift(yk, vk, st.dt);
    y[k + 1] := drifted;
    var ak := st.accel(yk, vk);
    a[k] := ak;
    var vNext := AddF(vk, ScaleF(st.dt, st.accel(drifted, AddF(vk, ScaleF(st.dt, ak)))));
    v[k + 1] := vNext;
    var moved;
    moved, counter' := CheckEscapes(st.an, drifted, st.dests, st.far, k, counter);
    y[k + 1] := moved;
    agentsEscaped[k + 1] := counter';
    assert next == Phase(moved, vNext, counter');
    SlotsExtend(st, y0, w0, ys, vs, acs, es, k, next, ak);
    assert y[..] == ys[k + 1 := moved];
    assert v[..] == vs[k + 1 := vNext];
    assert a[..] == acs[k := ak];
    assert agentsEscaped[..] == es[k + 1 := counter'];
  }

  /** The allocation of `leap_frog`: `np.zeros` buffers of `number_of_steps` slots, with
      the initial positions written into slot 0. The velocity slot 0 is still zero. */
  method NewBuffers(y0: Field, numberOfSteps: nat)
    returns (y: array<Field>, v: array<Field>, a: array<Field>, agentsEscaped: array<nat>)
    requires numberOfSteps >= 1
    ensures fresh(y) && fresh(v) && fresh(a) && fresh(agentsEscaped)
    ensures y != v && y != a && v != a
    ensures y.Length == v.Length == a.Length == agentsEscaped.Length == numberOfSteps
    ensures y[0] == y0
    ensures forall p :: 1 <= p < numberOfSteps ==> y[p] == ZeroField(|y0|)
    ensures forall p :: 0 <= p < numberOfSteps ==> v[p] == ZeroField(|y0|)
    ensures forall p :: 0 <= p < numberOfSteps ==> a[p] == ZeroField(|y0|)
    ensures forall p :: 0 <= p < numberOfSteps ==> agentsEscaped[p] == 0
  {
    var n := |y0|;
    agentsEscaped := new nat[numberOfSteps](_ => 0);
    y := new Field[numberOfSteps](_ => ZeroField(n));
    v := new Field[numberOfSteps](_ => ZeroField(n));
    a := new Field[numberOfSteps](_ => ZeroField(n));
    y[0] := y0;
  }

  /** The step loop of `leap_frog`, `for k in range(number_of_steps - 1)`, over buffers
      whose slot 0 is already written: it fills every later slot. */
  method RunSteps(st: Setting, ghost y0: Field, ghost w0: Field, y: array<Field>, v: array<Field>,
                  a: array<Field>, agentsEscaped: array<nat>)
    requires y != v && y != a && v != a && y.Length > 0
    requires Slots(st, y0, w0, y[..], v[..], a[..], agentsEscaped[..], 0) && agentsEscaped[0] == 0
    modifies y, v, a, agentsEscaped
    ensures Slots(st, y0, w0, y[..], v[..], a[..], agentsEscaped[..], y.Length - 1)
  {
    var escapedCounter := 0;
    var k := 0;
    while k < y.Length - 1
      invariant 0 <= k <= y.Length - 1
      invariant Slots(st, y0, w0, y[..], v[..], a[..], agentsEscaped[..], k)
      invariant escapedCounter == agentsEscaped[k]
    {
      escapedCounter := StepSlot(st, y0, w0, y, v, a, agentsEscaped, k, escapedCounter);
      k := k + 1;
    }
  }

  /** `leap_frog` as written: the buffers `y`, `v`, `a` and `agents_escaped` are
      allocated with `number_of_steps` zeroed slots, half a step of `f` at the zero
      velocity is added to the velocity slot 0, and the later slots are written one by
      one. Slot `k` of the positions, velocities and escape counts is slot `k` of
      `PhaseAt` from the start velocity as written (which does not depend on
      `initVelocity`); the stored acceleration of every slot but the last is `f` at that
      slot, the last stays zero; the running count never drops. The velocity buffer is
      not returned by the source; its final contents are given back as a ghost value
      for the contract. */
  method LeapFrog(an: Analytic, initPosition: Field, initVelocity: Field,
                  accel: (Field, Field) -> Field, numberOfSteps: nat, dt: real,
                  dests: seq<Vec>, far: (nat, nat) -> Vec)
    returns (y: array<Field>, agentsEscaped: array<nat>, a: array<Field>, ghost vs: seq<Field>)
    requires |initPosition| == |initVelocity| && PreservesShape(accel)
    requires numberOfSteps >= 1 && |dests| > 0
    ensures fresh(y) && fresh(agentsEscaped) && fresh(a)
    ensures y.Length == agentsEscaped.Length == a.Length == |vs| == numberOfSteps
    ensures var w0 := StartVelocityAsWritten(initPosition, initVelocity, accel, dt);
      forall k :: 0 <= k < numberOfSteps ==>
        Phase(y[k], vs[k], agentsEscaped[k])
          == PhaseAt(Setting(an, accel, dt, dests, far), initPosition, w0, k)
    ensures forall k :: 0 <= k < numberOfSteps - 1 ==> a[k] == accel(y[k], vs[k])
    ensures a[numberOfSteps - 1] == ZeroField(|initPosition|)
    ensures forall k, k' :: 0 <= k <= k' < numberOfSteps ==> agentsEscaped[k] <= agentsEscaped[k']
  {
    var st := Setting(an, accel, dt, dests, far);
    var v;
    y, v, a, agentsEscaped := NewBuffers(initPosition, numberOfSteps);
    v[0] := AddF(v[0], ScaleF(0.5 * dt, accel(y[0], v[0])));
    ghost var w0 := StartVelocityAsWritten(initPosition, initVelocity, accel, dt);
    SlotsStart(st, initPosition, w0, y[..], v[..], a[..], agentsEscaped[..]);
    RunSteps(st, initPosition, w0, y, v, a, agentsEscaped);
    vs := v[..];
    ghost var ys, acs, es := y[..], a[..], agentsEscaped[..];
    SlotsFinal(st, initPosition, w0, ys, vs, acs, es);
    assert forall k :: 0 <= k < numberOfSteps ==> y[k] == ys[k] && a[k] == acs[k] && agentsEscaped[k] == es[k];
  }

  /** `leap_frog` with its start corrected: the velocity slot 0 is the initial velocity
      plus half a step of `f` at the initial state, and the step loop is unchanged. Slot
      `k` of the positions, velocities and escape counts is slot `k` of `PhaseAt` from
      `StartVelocity`, so slot 0 keeps `initVelocity`. */
  method LeapFrogCorrected(an: Analytic, initPosition: Field, initVelocity: Field,
                           accel: (Field, Field) -> Field, numberOfSteps: nat, dt: real,
                           dests: seq<Vec>, far: (nat, nat) -> Vec)
    returns (y: array<Field>, agentsEscaped: array<nat>, a: array<Field>, ghost vs: seq<Field>)
    requires |initPosition| == |initVelocity| && PreservesShape(accel)
    requires numberOfSteps >= 1 && |dests| > 0
    ensures fresh(y) && fresh(agentsEscaped) && fresh(a)
    ensures y.Length == agentsEscaped.Length == a.Length == |vs| == numberOfSteps
    ensures var w0 := StartVelocity(initPosition, initVelocity, accel, dt);
      forall k :: 0 <= k < numberOfSteps ==>
        Phase(y[k], vs[k], agentsEscaped[k])
          == PhaseAt(Setting(an, accel, dt, dests, far), initPosition, w0, k)
    ensures forall k :: 0 <= k < numberOfSteps - 1 ==> a[k] == accel(y[k], vs[k])
    ensures a[numberOfSteps - 1] == ZeroField(|initPosition|)
    ensures forall k, k' :: 0 <= k <= k' < numberOfSteps ==> agentsEscaped[k] <= agentsEscaped[k']
  {
    var st := Setting(an, accel, dt, dests, far);
    var v;
    y, v, a, agentsEscaped := NewBuffers(initPosition, numberOfSteps);
    v[0] := AddF(initVelocity, ScaleF(0.5 * dt, accel(y[0], initVelocity)));
    ghost var w0 := StartVelocity(initPosition, initVelocity, accel, dt);
    SlotsStart(st, initPosition, w0, y[..], v[..], a[..], agentsEscaped[..]);
    RunSteps(st, initPosition, w0, y, v, a, agentsEscaped);
    vs := v[..];
    ghost var ys, acs, es := y[..], a[..], agentsEscaped[..];
    SlotsFinal(st, initPosition, w0, ys, vs, acs, es);
    assert forall k :: 0 <= k < numberOfSteps ==> y[k] == ys[k] && a[k] == acs[k] && agentsEscaped[k] == es[k];
  }
}
