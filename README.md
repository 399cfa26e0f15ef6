# Evacuation simulator: social-force model and leap-frog integrator

The simulator moves pedestrians ("agents") out of a square room through one or two
doors. Each agent is a disc with a radius and a mass. It is pulled toward its
destination outside a door at a desired speed. It is pushed away by other agents and by
the walls: an exponential repulsion, plus a body force and sliding friction when it
touches them. When an interior wall blocks an agent's way to the exit, the agent aims at
a point twice its radius past one end of the wall. It picks the end through which the
route from the agent to the exit is shorter.
A leap-frog integrator advances positions and velocities step by step. At each step
it removes every agent that has come within 0.1 of a destination and counts it.

The project models three parts of the program:

- `room_layout.dfy` (module `RoomLayout`): the catalog of five named room
  configurations. Each gives the wall segments, the destinations, the door width and the
  spawn zone. The `Room` object never changes after its constructor, so `NewRoom` is a
  function that returns an `Option<Room>`.
- `agent_interactions.dfy` (module `AgentInteractions`): the `Differential_Equation`
  object. Its fields never change after the constructor, so it is the datatype `DiffEq`.
  Its geometric helpers (`agent`, `wall_distance`, `seg_intersect`, `is_between`, `g`)
  and the two contact forces (`f_ij`, `f_iW`) are functions. The heading rules (`e_0`,
  `nearest_path`, `direction`) are functions too. The routines that fill arrays in loops
  (`f_ag`, `f_wa`, `nearest_wall`, `e_t`) are methods with loop invariants. `f` has no
  loop of its own: it is a method because it calls them. Each method is proved equal to
  a reference function (`AgentForces`, `WallForces`, `NearestWallIndex`, `Headings`,
  `Acceleration`). The physical properties are proved as lemmas about those functions:
  Newton's third law for the pair forces, and the cancellation of all inter-agent
  forces.
- `differential_equation_solver.dfy` (module `DifferentialEquationSolver`):
  `leap_frog`, a method over buffer arrays of `number_of_steps` slots. `PhaseAt` is the
  reference definition of a run, and it takes the velocities in slot 0 as a parameter.
  `LeapFrog` writes slot 0 as the source does: half a step of `f` at zero velocity,
  `StartVelocityAsWritten`, which ignores `init_velocity`. It is proved slot by slot
  against `PhaseAt` from that start, through the `Slots` predicate.
  `LeapFrogCorrected` is the same loop started from `StartVelocity`, the initial
  velocity plus half a step (see "## Findings"). The escape check is the method
  `CheckEscapes`, proved against `Relocated` and `EscapeCount`.
- `planar.dfy` (module `Planar`): shared plane vectors, wall segments and sums of
  vectors. `Analytic` carries the exponential and the Euclidean norm as parameters.
  `Valid` says what the model assumes of them: the exponential is positive, and the
  norm is non-negative, zero exactly at the zero vector, and unchanged by negation.
  `Homogeneous` adds `norm(c w) = |c| norm(w)`; only the segment test uses it.
  `Euclidean` adds `norm(w)² = w · w`; only the closest-point property of the wall
  distance uses it.

Positions and forces are `Vec` values over `real`. A "field" (`seq<Vec>`) holds one
vector per agent, the source's `(2, N)` arrays read column by column.

## Model

| member | source | states |
|---|---|---|
| Planar.Normalized | agent_interactions.py:106-107 | `d / norm(d)` points the same way as `d`, and scaling it back by `norm(d)` gives `d` |
| Planar.AntisymmetricRowSumsCancel | agent_interactions.py:324-328 | when every entry (q, p) of a square table is the negation of entry (p, q), the row sums add up to the zero vector |
| RoomLayout.Perimeter | room_layout.py:17-21 | the perimeter walls in table order: two left walls split by a centred door, the top, the right side (split by a second door when there is one), and the bottom last; no wall is a single point when the door is narrower than the room |
| RoomLayout.NewRoom | room_layout.py:6-90 | a room exists exactly for the five known names; it keeps the given size, its wall count equals its wall table, and `wall_shear` is set exactly for the three configurations with an interior wall |
| RoomLayout.CatalogWallTable | room_layout.py:11-90 | every catalog room's walls are the perimeter plus the interior wall exactly when `wall_shear` is set; the door is a tenth of the side for the plain one-exit room and a fifteenth otherwise; only the two one-exit rooms have an unbroken right side |
| RoomLayout.PerimeterLacksInteriorWall | room_layout.py:36 | for a positive size the interior wall is not one of the perimeter walls |
| RoomLayout.CatalogDoorGapCentred | room_layout.py:17-18 | the two left walls leave a gap of exactly `door_size`, centred on the left side |
| RoomLayout.CatalogWalls | room_layout.py:11-90 | for a positive size the door is open, no wall is a single point, and the interior wall is present exactly when `wall_shear` is set |
| RoomLayout.CatalogDestinations | room_layout.py:15-80 | every destination lies outside the room; exactly the two configurations with an exit on each side have two destinations and the others have one |
| RoomLayout.CatalogSpawnInside | room_layout.py:23-90 | for a side above 2 the spawn zone is a non-empty rectangle strictly inside the room |
| RoomLayout.GetWall | room_layout.py:92-94 | NumPy indexing of the wall table: defined exactly for indices from `-count` to `count - 1`, a negative index counting from the end |
| RoomLayout.GetWallNegativeIndex | room_layout.py:92-94 | index `j` and index `j - count` reach the same wall |
| RoomLayout.SeventhWallRoomsKeepPerimeterAtFive | room_layout.py:57-88 | in both seven-wall rooms index 5 holds the bottom side and index 6 the interior wall |
| AgentInteractions.NewDifferentialEquation | agent_interactions.py:5-48 | the object copies the room's destinations, wall count, walls and `wall_shear`; it is well formed exactly when sizes match, masses and the time step are non-zero, and the room suits the force model |
| AgentInteractions.CatalogRoomSuitsForceModel | agent_interactions.py:159-178 | every catalog room of positive size suits the force model except the one with two exits and an interior wall |
| AgentInteractions.Rad | agent_interactions.py:62-66 | the sum of the two radii is the same in either order, and for positive radii it exceeds each of them |
| AgentInteractions.G | agent_interactions.py:51-58 | `g(x)` is the larger of `x` and zero |
| AgentInteractions.Agent | agent_interactions.py:98-111 | `d` is the positive distance between the agents, `n` the unit vector from `j` to `i` (`d n = r_i - r_j`), `t` its quarter turn and orthogonal to it, and `dv_t` the velocity difference along `t` |
| AgentInteractions.ContactCoefficients | agent_interactions.py:121-122 | the normal coefficient is at least the positive exponential repulsion; without overlap it is exactly that and the tangential coefficient is zero; with overlap the body force `k` and the friction `kap` terms are added |
| AgentInteractions.PairForce | agent_interactions.py:114-123 | the force is `a n + b t` with the contact coefficients; when the agents do not touch it is the pure exponential repulsion, pointing from `j` to `i` |
| AgentInteractions.NoContactRepels | agent_interactions.py:121-123 | with no tangential part, a positive multiple of `n` points along `r_i - r_j` |
| AgentInteractions.AgentSwapped | agent_interactions.py:106-110 | swapping the agents keeps `d` and `dv_t` and reverses `n` and `t` |
| AgentInteractions.PairForceAntisymmetric | agent_interactions.py:114-123 | Newton's third law: the force of `i` on `j` is the negation of the force of `j` on `i` |
| AgentInteractions.Clamp01 | agent_interactions.py:84-87 | `temp` is clamped into `[0, 1]`, unchanged when already inside, and no point of `[0, 1]` is closer to it |
| AgentInteractions.NearestOnWall | agent_interactions.py:88-90 | the `nearest` point lies on the wall segment |
| AgentInteractions.WallDistance | agent_interactions.py:69-94 | `nearest` is the clamped projection of the agent on the wall and lies on the wall, `distance` is the positive distance from the agent to it, `n` is the unit vector from `nearest` to the agent and `t` its quarter turn |
| AgentInteractions.WallDistanceIsSmallest | agent_interactions.py:70-73 | with the Euclidean norm, `distance` is the smallest distance from the agent to any point of the wall |
| AgentInteractions.NearestOnWallIsClosest | agent_interactions.py:84-90 | with the Euclidean norm, no point of the wall is closer to the agent than `nearest` |
| AgentInteractions.RawParameterIsProjection | agent_interactions.py:78-83 | with the Euclidean norm, `temp` before clamping is the projection `(u · d) / (u · u)` of the agent's offset `d` on the wall vector `u` |
| AgentInteractions.WallForce | agent_interactions.py:126-134 | the force is `a n - b t` with the contact coefficients; when the agent does not touch the wall it is the pure exponential repulsion, pointing from the wall to the agent |
| AgentInteractions.WallForceSum | agent_interactions.py:338-339 | the inner loop adds the forces of walls `0 .. number_of_walls - 1` on agent `i` in order, starting from zero |
| AgentInteractions.FWa | agent_interactions.py:332-340 | entry `i` of the result is the sum of the forces of all walls on agent `i` |
| AgentInteractions.PairTable | agent_interactions.py:322-327 | the table is square, one row per agent, and its entries are the pair forces above the diagonal, their negations below, and zero on it |
| AgentInteractions.PairEntryAntisymmetric | agent_interactions.py:326-327 | entry (p, q) is the negation of entry (q, p) |
| AgentInteractions.PairEntryIsPairForce | agent_interactions.py:326-327 | off the diagonal, entry (p, q) is the force agent `q` exerts on agent `p`, including below the diagonal |
| AgentInteractions.PairTableAntisymmetric | agent_interactions.py:322-327 | the filled table is antisymmetric |
| AgentInteractions.PairTableAboveDiagonal | agent_interactions.py:326-327 | above the diagonal the table holds `f_ij` and the mirror entry its negation |
| AgentInteractions.PairTableDiagonal | agent_interactions.py:323 | the diagonal keeps its initial zero: no agent pushes itself |
| AgentInteractions.AgentForces | agent_interactions.py:318-329 | one force per agent, and the forces of the agents on each other sum to the zero vector |
| AgentInteractions.FillPairRow | agent_interactions.py:325-327 | one pass of the outer loop writes row `i` right of the diagonal and column `i` below it, and leaves every other unwritten cell zero |
| AgentInteractions.FillPairTable | agent_interactions.py:322-327 | the nested loop leaves every cell of `fij` equal to the pair table |
| AgentInteractions.FAg | agent_interactions.py:318-329 | `f_ag` returns the row sums of the pair table, and they sum to the zero vector |
| AgentInteractions.SegIntersect | agent_interactions.py:137-148 | the result lies on the line through `a1, a2` and on the line through `b1, b2` |
| AgentInteractions.IsBetween | agent_interactions.py:151-155 | each endpoint lies between the two endpoints |
| AgentInteractions.OnSegmentIsBetween | agent_interactions.py:151-155 | for a homogeneous norm, every point of the closed segment from `a` to `b` passes the test |
| AgentInteractions.DestinationIndex | agent_interactions.py:276-282 | with two destinations, agent `i` heads for the first exactly when `i < N / 2`; with one, always for it |
| AgentInteractions.E0 | agent_interactions.py:270-282 | the heading is the unit vector from the agent toward its destination |
| AgentInteractions.DetourPoint | agent_interactions.py:254-265 | the detour point is past the first wall end when the route through it is no longer, and past the second otherwise, on the wall's line |
| AgentInteractions.DetourBeyond | agent_interactions.py:259-265 | a positive step along the wall direction from the first end, or against it from the second, leaves the segment past that end |
| AgentInteractions.NearestPath | agent_interactions.py:243-267 | the heading is the unit vector from the agent toward the detour point |
| AgentInteractions.Direction | agent_interactions.py:159-178 | when the wall blocks the agent the heading points toward the detour point, otherwise it is `e_0` |
| AgentInteractions.ArgMin | agent_interactions.py:297 | the first index of a smallest entry |
| AgentInteractions.ArgMinIndex | agent_interactions.py:297 | the scan over the distance array returns the first index of a smallest entry |
| AgentInteractions.NearestWall | agent_interactions.py:285-297 | the chosen wall is at index 5 or later; the agent's line to the exit meets no later wall's line sooner, and every earlier wall's line strictly later |
| AgentInteractions.NearestWallPicksBottomSide | agent_interactions.py:291-297 | in a seven-wall room the bottom side (index 5) steers the agent exactly when its line is met no farther away than the interior wall's line |
| AgentInteractions.SteeredHeading | agent_interactions.py:313-314 | one pass of the second loop of `e_t` gives the agent's heading |
| AgentInteractions.StraightHeadings | agent_interactions.py:308-310 | without interior walls every column becomes the straight heading to the agent's destination |
| AgentInteractions.SteeredHeadings | agent_interactions.py:311-314 | with interior walls every column becomes the heading steered by the nearest wall |
| AgentInteractions.ET | agent_interactions.py:300-315 | `e_t` returns every agent's heading |
| AgentInteractions.F | agent_interactions.py:344-350 | `f` returns, per agent, the driving term plus the agent and wall forces divided by the mass |
| AgentInteractions.NewtonSecondLaw | agent_interactions.py:349 | mass times acceleration is mass times the driving term plus the agents' and the walls' forces |
| AgentInteractions.RemaindersAreAgentForces | agent_interactions.py:349 | removing mass times the driving term and the wall forces from mass times acceleration leaves exactly the agents' forces |
| AgentInteractions.AccelerationBalance | agent_interactions.py:349 | summed over all agents, those remainders are zero: the inter-agent forces are internal |
| DifferentialEquationSolver.MinOfIsSmallest | differential_equation_solver.py:46 | `np.amin` returns one of the entries and none is smaller |
| DifferentialEquationSolver.DestinationDistances | differential_equation_solver.py:41-44 | entry `c` is the distance from the agent to destination `c` |
| DifferentialEquationSolver.EscapedIffNearSomeDestination | differential_equation_solver.py:46-49 | an agent passes the escape test exactly when some destination is closer than 0.1 |
| DifferentialEquationSolver.NearestDestinationDistance | differential_equation_solver.py:41-46 | the loop fills the distance array and returns its minimum, a distance to some destination and no more than any |
| DifferentialEquationSolver.CheckAgent | differential_equation_solver.py:41-49 | the test succeeds exactly when the agent has escaped |
| DifferentialEquationSolver.RelocatedUpToAt | differential_equation_solver.py:40-51 | after `n` agents have been visited, each visited escaped agent is at its far-away point and every other agent is unmoved |
| DifferentialEquationSolver.RelocatedMovesExactlyEscaped | differential_equation_solver.py:49-51 | the escape check moves exactly the escaped agents |
| DifferentialEquationSolver.RelocatedLeavesNoneEscaped | differential_equation_solver.py:49-51 | when no far-away point is at an exit, no agent is at an exit after the check |
| DifferentialEquationSolver.EscapeCountIsCardinality | differential_equation_solver.py:49-52 | the counter's increment is the number of distinct escaped agents |
| DifferentialEquationSolver.CheckEscapes | differential_equation_solver.py:40-52 | the loop leaves the relocated positions and adds the escape count, at most one per agent |
| DifferentialEquationSolver.StartVelocityAsWrittenIgnoresInitialVelocity | differential_equation_solver.py:26 | as written, the start velocity is the same whatever the initial velocity |
| DifferentialEquationSolver.StartVelocityKeepsInitialVelocity | differential_equation_solver.py:26 | taking the half step back off the corrected start velocity gives the initial velocity |
| DifferentialEquationSolver.StartVelocityAsWrittenDropsInitialVelocity | differential_equation_solver.py:26 | for one agent with initial velocity `(1, 0)` and no force, the start velocity as written is zero while the corrected one is `(1, 0)` |
| DifferentialEquationSolver.Step | differential_equation_solver.py:31-52 | a step keeps one position and one velocity per agent, and the escape count never decreases |
| DifferentialEquationSolver.EscapedCountNeverDrops | differential_equation_solver.py:52-55 | the stored running count is non-decreasing over the slots |
| DifferentialEquationSolver.EscapedCountBounded | differential_equation_solver.py:49-52 | after `k` steps at most `k` times the number of agents have been counted |
| DifferentialEquationSolver.StepMovesEscapedAgents | differential_equation_solver.py:31-51 | in slot `k + 1` an agent is at its far-away point if its drifted position is at an exit, and at the drifted position otherwise |
| DifferentialEquationSolver.StepEscapeIncrement | differential_equation_solver.py:49-55 | each step adds the number of distinct agents whose drifted position is at an exit, at most the number of agents |
| DifferentialEquationSolver.AsWrittenStartsFromRest | differential_equation_solver.py:21-26 | the start velocity as written is the intended start velocity for a zero initial velocity, so the run as written is the intended run started from rest |
| DifferentialEquationSolver.SlotsStart | differential_equation_solver.py:17-26 | zeroed buffers holding the initial positions, a zero count and a given velocity in slot 0 agree with the reference run from that velocity |
| DifferentialEquationSolver.SlotsExtend | differential_equation_solver.py:31-55 | writing slot `k + 1` and the acceleration of slot `k` keeps the buffers in agreement with the reference run |
| DifferentialEquationSolver.SlotsFinal | differential_equation_solver.py:29-55 | once every slot is filled, each agrees with the reference run, the last acceleration slot is still zero, and the running count never drops |
| DifferentialEquationSolver.StepSlot | differential_equation_solver.py:29-55 | one pass of the step loop fills slot `k + 1` of the positions, velocities and counts and slot `k` of the accelerations as the reference run says |
| DifferentialEquationSolver.NewBuffers | differential_equation_solver.py:17-24 | the set-up allocates fresh, distinct buffers of `number_of_steps` slots, all zero except the initial positions in slot 0 |
| DifferentialEquationSolver.RunSteps | differential_equation_solver.py:29-55 | the step loop fills every slot as the reference run says |
| DifferentialEquationSolver.LeapFrog | differential_equation_solver.py:13-58 | slot `k` of the positions, velocities and escape counts is slot `k` of the reference run from the start velocity as written, half a step of `f` at zero velocity; the stored accelerations are `f` at their slot except the last, which stays zero; the count never drops |
| DifferentialEquationSolver.LeapFrogCorrected | differential_equation_solver.py:13-58 | the same, for the run whose slot 0 holds the initial velocity plus half a step of `f` at the initial state |

## Left out

- `e_1`, the alternative heading rule for interior walls that form corners, is not part of this model. The source only calls it from a commented-out line.
- The exponential and `np.linalg.norm` are parameters (`Analytic`). The model assumes of them only what `Valid` states, plus `Homogeneous` or `Euclidean` in the two lemmas that name them, so no contract depends on their actual values.
- Floating point is not modelled: all arithmetic is exact over the reals. In particular, `is_between` compares a sum of two norms with a third norm for exact equality, and that rarely holds in floating point.
- Divisions by zero are preconditions: two agents at one position, an agent on a wall, a degenerate wall, an agent at its destination, parallel lines in `seg_intersect`, an agent at its detour point in `nearest_path`, a zero mass or time step. The source produces NaN or infinity there instead.
- The random teleport `10 ** 6 * np.random.rand(2)` of an escaped agent is the parameter `far(k, i)`.
- `LeapFrog` requires `number_of_steps >= 1`: with zero slots the source fails with an index error on its first write.
- `direction` and `nearest_path` are modelled only for rooms with one destination. With two destinations the source mixes both into one matrix norm (agent_interactions.py:169-171 and :254-255). The only such catalog room with interior walls is `square_room_with_2_exits_1_additional_wall_2`, which `CatalogRoomSuitsForceModel` excludes. `nearest_wall` is modelled for any number of destinations: through `seg_intersect` it reads only the first one.
- An unrecognised room name gives `None`. The source object then has none of its tables, and its first use fails.
- The getters other than `get_wall` are reads of the `Room` fields.
- The relaxation time of the driving term is `time_step`, as in the source.
- The `wall_norm` of `direction` is the unit vector along the wall from its second end to its first, as the code computes it, not a normal to the wall. So the detour point lies on the wall's line, beyond the chosen end.
- `FWa` adds the wall forces of each agent in a local running total and then stores it, rather than adding in place in the zeroed array; the result is the same.
- The `(2, N, steps)` buffers of `leap_frog` are arrays of fields, and `agents_escaped` is an array of naturals. The velocity buffer is returned as a ghost value only so the contract can name it.
- IsBetween: only one direction is proved, that points of the segment pass the test (`OnSegmentIsBetween`). The converse, that a point passing the test lies on the segment, needs the strict convexity of the Euclidean norm, which the abstract norm does not carry.
- PairForce: in the contact case the contract gives the force's decomposition into the contact coefficients along `n` and `t`. It does not state that the normal component is positive.
- WallForce: the same as `PairForce`, for the wall force.
- The driver that builds the agents and runs the simulation, the display, and `run.py` are not part of this model.

## Findings

| source | as written | input that shows it | evidently intended | confidence | as-written member | corrected member |
|---|---|---|---|---|---|---|
| differential_equation_solver.py:26 | `v[:, :, 0] += 0.5 * dt * f(y[:, :, 0], v[:, :, 0])` adds to the zeroed buffer, so `init_velocity` is never read and `f` is evaluated at zero velocity | one agent at the origin, initial velocity `(1, 0)`, no force, `dt = 1`: the start velocity is `(0, 0)` | the start velocity is the initial velocity plus half a step of `f` at the initial state | not executed | DifferentialEquationSolver.StartVelocityAsWrittenDropsInitialVelocity | DifferentialEquationSolver.StartVelocityKeepsInitialVelocity |

`LeapFrog` models the run as written. `LeapFrogCorrected` runs the same loop from the corrected start velocity.
