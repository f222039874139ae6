# One-dimensional Monte Carlo neutron transport, modelled in Dafny

This project models the deterministic decision logic of `CP1.cpp`, a Monte Carlo
neutron-transport code for a slab made of two homogeneous regions. A neutron is
born at a random position. At each collision the code does four things: it looks
up the region cross sections, decides between a scatter and an absorption, samples
the outcome, and adds a track-length contribution to a ten-bin flux tally. The run
estimates k-eff as `multiplicity / N_neutrons`.

Every call of `rand()/RAND_MAX` is an explicit input. Each free-flight distance
`-log(u)/sigma_t` is the division `tau / sigma_t`, where the optical depth `tau`
(the `-log(u)` part) is supplied. `double` becomes `real`.

The model follows the code's structure:

| file | source entity | form |
|---|---|---|
| `regions.dfy` | class `initialization` | class `Initialization` whose `Region` method writes the three fields; specified by the function `RegionUpdate` |
| `sampler.dfy` | class `sampling` | pure function `Sample`, because the class has no state |
| `collisions.dfy` | class `Interact` | pure `FissionYield` and `ScatterCosine`; class `Interact` whose `Absorption` and `Scattering` methods write its fields |
| `flux_tally.dfy` | class `Scoring` | class `Scoring` over a 10-element `array<real>`; `Flux` keeps the source's ten tests and is proved against `Tallied`, which is defined through `floor(10x)` |
| `transport.dfy` | `main` | method `SimulateCollision` (one pass of the collision loop), method `SimulateHistory` (one history) and method `Simulate` (the cycle and history loops), proved against the functions `Collide`, `Walk`, `History`, `Cycle` and `Run` |

## Behaviour as written

The model follows the code where it differs from the intended design:

- The direction test nests `if (angle<0)` inside `if (angle>0)`. After a scatter
  with a non-positive cosine, `x` is therefore unchanged. `SimulateCollision` keeps
  the nested test, and `ScatterRule` states the result.
- An absorption that stays in the slab does not end the history. It sets `x` to the
  flight length `l`, and the collision loop goes on (`AbsorptionRule`). The loop
  ends only when a flight is longer than 1 (`EscapeRule`).
- A history reads `sigma_a`, `sigma_s` and `sigma_f` once, right after the first
  region lookup. The lookup on every collision still updates the fields of
  `start`, so it matters to the next history whose start position `region` does
  not handle (`StaleExactlyWhenUnassigned`).
- `absorption` receives `s` as its total cross section. The post-absorption flight
  is therefore `tau / sigma_s`, while a scatter's flight is `tau / (sigma_a + sigma_s)`.
- `j` is never reset. Only the first cycle runs histories, and the other 999 cycles
  recompute the same k (`LaterCyclesIdle`, and the loop invariants of `Simulate`).
- A position of exactly 0.5, or one outside (0, 1), leaves the cross sections at
  their earlier values. A position on a bin edge adds to no bin.

## Model

| member | source | states |
|---|---|---|
| `Regions.Initialization.constructor` | CP1.cpp:98-102 | the three fields start with an arbitrary given triple, since the source leaves them uninitialised |
| `Regions.Initialization.Region` | CP1.cpp:109-122 | the fields become region A's or region B's constants, or keep their old values, as `RegionUpdate` says |
| `Regions.RegionUpdate` | CP1.cpp:109-122 | positions `region` does not handle keep the previous triple; a handled position gets region A's triple below 0.5 and region B's above it |
| `Regions.RegionOfPosition` | CP1.cpp:109-122 | (0.12, 0.05, 0.15) inside (0, 0.5); (0.10, 0.05, 0.12) inside (0.5, 1); the previous values at a <= 0, a = 0.5 and a >= 1 |
| `Regions.StaleExactlyWhenUnassigned` | CP1.cpp:109-122 | the result depends on the previous values exactly at the positions the two tests do not cover |
| `Regions.RegionIdempotent` | CP1.cpp:212-218 | a second lookup at the same position changes nothing |
| `Regions.RegionKeepsUsable` | CP1.cpp:110-120 | after a lookup the cross sections are positive (absorption, scattering) and non-negative (fission), if they were before or the position is handled |
| `Sampler.Sample` | CP1.cpp:77-88 | scatter exactly when m * (sigma_a + sigma_s) < sigma_s, that is, m below sigma_s / sigma_t |
| `Sampler.NoScatterWithoutScattering` | CP1.cpp:77-88 | with sigma_s = 0 and a draw m >= 0 the result is never a scatter |
| `Sampler.AlwaysScatterWithoutAbsorption` | CP1.cpp:77-88 | with sigma_a = 0 every draw below 1 is a scatter |
| `Sampler.SampleThreshold` | CP1.cpp:81-87 | the classification is a threshold: a smaller draw than a scattering draw also scatters |
| `Collisions.FissionYield` | CP1.cpp:39-47 | the yield is floor(sigma_f/sigma_a) or one more; it is above the mean exactly when the fractional part exceeds eta; it is within 1 of the mean; it is >= 0 when sigma_f >= 0 < sigma_a |
| `Collisions.RegionYields` | CP1.cpp:39-47 | for region A (mean 1.25) the yield is 2 when eta < 0.25 and 1 otherwise; for region B (mean 1.2) it is 2 when eta < 0.2 and 1 otherwise |
| `Collisions.ScatterCosine` | CP1.cpp:57 | the cosine 2u - 1 determines the draw u, lies in [-1, 1] for u in [0, 1], and is positive exactly when u > 0.5 |
| `Collisions.Interact.constructor` | CP1.cpp:24-29 | the four fields start at zero; each is written before it is read |
| `Collisions.Interact.Absorption` | CP1.cpp:38-49 | `I` becomes the stochastically rounded yield, `l` becomes tau / sigma_t, and the scattering fields are unchanged |
| `Collisions.Interact.Scattering` | CP1.cpp:55-58 | `ls` becomes tau / sigma_t, `angle_sc` becomes 2u - 1, and the absorption fields are unchanged |
| `FluxTally.BinOf` | CP1.cpp:151-179 | a bin index k < 10 is returned only when k/10 < x < (k+1)/10 |
| `FluxTally.BinOfComplete` | CP1.cpp:151-179 | every x strictly inside bin k has BinOf(x) = k |
| `FluxTally.BinOfEdges` | CP1.cpp:151-179 | x <= 0, x >= 1 and every bin edge e/10 fall in no bin |
| `FluxTally.BinOfExact` | CP1.cpp:151-179 | BinOf(x) = k exactly when the k-th of the source's ten open-interval tests holds, for each k in 0..9 |
| `FluxTally.Contribution` | CP1.cpp:152 | the contribution times the bin width 0.1 is weight times track length, and it is non-negative for a non-negative weight and length |
| `FluxTally.Tallied` | CP1.cpp:150-181 | entry k gains the contribution exactly when x lies in bin k, and every other entry is unchanged |
| `FluxTally.Zeros` | CP1.cpp:142 | ten entries, all zero: the starting tally |
| `FluxTally.Scoring.constructor` | CP1.cpp:142 | the ten accumulators start at zero |
| `FluxTally.Scoring.Flux` | CP1.cpp:150-181 | the array after the call is `Tallied` of the array before it: the contribution goes to the bin of x only |
| `FluxTally.FluxHitsBin` | CP1.cpp:150-181 | x strictly inside bin k adds I*t/0.1 to entry k and leaves the other nine unchanged |
| `FluxTally.FluxMissesEdges` | CP1.cpp:151-179 | x <= 0, x >= 1 or x on a bin edge changes no entry |
| `FluxTally.FluxAtMostOneBin` | CP1.cpp:151-179 | of any two entries at least one is unchanged, so at most one entry changes per call |
| `FluxTally.FluxExample` | CP1.cpp:150-153 | flux(0.05, 1.0, 1) on a zero tally gives exactly 10 in bin 0 and 0 elsewhere |
| `FluxTally.FluxKeepsNonNegative` | CP1.cpp:150-181 | a non-negative weight and track length keep a non-negative tally non-negative |
| `Transport.Collide` | CP1.cpp:217-249 | one collision keeps the cross sections usable and the tally at ten bins, and leaves `start`'s fields as the lookup at x sets them |
| `Transport.Walk` | CP1.cpp:217-250 | the collision loop keeps the cross sections usable, the tally at ten bins, and the counter invariant N_neutrons = 10000 + multiplicity >= 0 |
| `Transport.History` | CP1.cpp:211-250 | a history (lookup at the start position, cross sections read once, collision loop) keeps the same three invariants |
| `Transport.Cycle` | CP1.cpp:209-253 | the history loop keeps the invariants and, when it finishes, has j >= N_neutrons |
| `Transport.Initial` | CP1.cpp:195-205 | the run starts with multiplicity 0, N_neutrons = 10000 (so the counter invariant holds), and a zero, non-negative ten-entry tally |
| `Transport.Keff` | CP1.cpp:255 | k times N_neutrons is multiplicity, and under the counter invariant k lies in [0, 1) |
| `Transport.Run` | CP1.cpp:193-258 | a completed run has 0 <= k < 1, k * N_neutrons = multiplicity >= 0, N_neutrons = 10000 + multiplicity, and ten tally entries |
| `Transport.SimulateCollision` | CP1.cpp:218-249 | one imperative pass of the collision loop (object fields, array tally, nested direction test, `break`) ends in exactly the state, position and exit that `Collide` gives |
| `Transport.SimulateHistory` | CP1.cpp:210-250 | the imperative history (lookup, cross sections read once, collision loop until `break`) ends in exactly the state and exit that `History` gives |
| `Transport.Simulate` | CP1.cpp:193-258 | the three nested loops of `main` return exactly `Run`: k from the first cycle, the tally, both counters, or the history whose draws ran out; a completed run has 0 <= k < 1 |
| `Transport.CollideKeepsCounted` | CP1.cpp:244-247 | a collision adds the same yield to `multiplicity` and `N_neutrons`, so it keeps N_neutrons = 10000 + multiplicity, and it never lowers multiplicity |
| `Transport.EscapeRule` | CP1.cpp:220-243 | a scatter escapes exactly when tau > sigma_a + sigma_s, an absorption exactly when tau > sigma_s; an escape leaves the tally and both counters unchanged |
| `Transport.ScatterRule` | CP1.cpp:220-236 | a scatter that stays in the slab moves x by ls when the cosine draw u > 0.5 and leaves x alone otherwise; it tallies with weight 1 at the new x; the counters are unchanged |
| `Transport.AbsorptionRule` | CP1.cpp:238-248 | an absorption that stays in the slab continues with x = l = tau / sigma_s, adds I*l/0.1 to the bin of l (the tally is Tallied(t, l, l, I)), and adds the yield I to both counters |
| `Transport.CollideKeepsTallyNonNegative` | CP1.cpp:235-246 | a collision with a non-negative optical depth keeps a non-negative tally non-negative |
| `Transport.WalkKeepsTallyNonNegative` | CP1.cpp:235-246 | with non-negative optical depths the tally stays non-negative through a history |
| `Transport.CycleKeepsTallyNonNegative` | CP1.cpp:209-253 | with non-negative optical depths in every history, the history loop keeps the tally non-negative |
| `Transport.RunTallyNonNegative` | CP1.cpp:193-265 | with non-negative optical depths, a completed run writes ten non-negative flux values |
| `Transport.LaterCyclesIdle` | CP1.cpp:208-258 | once the history loop has finished, running it again from the same j changes nothing |

## Left out

- `rand()` and the `RAND_MAX` scaling: each history gets its start position and its per-collision draws as inputs (`HistoryDraws`, `CollisionDraws`).
- `initialization::position` (CP1.cpp:128-130) only returns a draw, so it becomes the `start` field of `HistoryDraws`.
- The logarithm of the free-flight sampling (CP1.cpp:48, 56) is transcendental. The optical depth `tau = -log(u)` is supplied, and the division by sigma_t is modelled. A draw of exactly 0 (an infinite flight) cannot be represented.
- The order of draws inside one collision is not modelled. A scatter draws the flight before the cosine, and an absorption draws the rounding value before the flight; `CollisionDraws` names each draw instead.
- IEEE `double` rounding: the model uses exact reals, where 0.1 and the region and bin edges are exact. Near an edge, a double the source computes may fall on the other side.
- Division by zero and negative totals: `Sample` needs sigma_a + sigma_s > 0, and `Absorption` and `Scattering` need non-zero divisors. Every history reads cross sections that are `Usable`.
- The fields of `start` before their first assignment are uninitialised in the source. `Simulate` takes them as the parameter `prior` and requires them `Usable`.
- `tally_f` is never initialised in the source. The model starts it at zero.
- The 32-bit `int` range of `multiplicity` and `N_neutrons` is not modelled; the counters are unbounded integers.
- `Interact::I` is a `double` in the source (CP1.cpp:26). It is set from `floor` (CP1.cpp:43, 46) and converted to `int` when it is added to the counters and passed to `flux` (CP1.cpp:244, 246, 247). The model holds it as an `int`. Nothing is lost, because it always holds a small whole number.
- The unbounded collision loop and history loop are bounded by the supplied draws. When a history's draws run out before it escapes, or the histories run out before `j` reaches `N_neutrons`, the run stops with `DrawsExhausted`. The source would keep drawing.
- The unused `pa` in `sample` (CP1.cpp:80) and the unused local `flux[10]` in `main` (CP1.cpp:196).
- The file and console output (CP1.cpp:194, 259, 262-265), the gnuplot include (CP1.cpp:15) and the plotting script `flux_plot.py`.
- Statistical claims, such as the scatter fraction tending to sigma_s / sigma_t or the mean yield tending to 1.25, are properties of the random source, not of the code.
