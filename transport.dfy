/** The transport driver: the collision loop, the history loop and the cycle
    loop of `main`, with every random draw supplied in advance. */
module Transport {
  import opened Regions
  import opened Sampler
  import opened Collisions
  import opened FluxTally

  const NCycle: nat := 1000
  const NNeutrons: nat := 10000

  /** The draws one collision consumes: `event` for the scatter/absorb test,
      `tau` the sampled optical depth of the free flight (-ln of a uniform
      draw), and `u` the scattering-cosine draw or the yield-rounding draw. */
  datatype CollisionDraws = CollisionDraws(event: real, tau: real, u: real)

  /** One history: its starting-position draw, then its collisions in order. */
  datatype HistoryDraws = HistoryDraws(start: real, collisions: seq<CollisionDraws>)

  /** The state that survives from collision to collision: the fields of
      `start`, the tally, `multiplicity` and `N_neutrons`. */
  datatype Sim = Sim(sigma: Sigma, tally: seq<real>, multiplicity: int, neutrons: int)

  datatype Step = Continue(sim: Sim, x: real) | Escape(sim: Sim)

  /** How a history ended: by escaping the slab, or with its draws used up. */
  datatype Flight = Flight(sim: Sim, escaped: bool)

  /** How the history loop ended: `finished` when `j` reached `N_neutrons`,
      otherwise the draws of history `next` ran out. */
  datatype CycleEnd = CycleEnd(sim: Sim, next: nat, finished: bool)

  datatype RunResult =
    | Completed(keff: real, flux: seq<real>, multiplicity: int, neutrons: int)
    | DrawsExhausted(history: nat)

  predicate WellShaped(st: Sim) {
    Usable(st.sigma) && |st.tally| == Bins
  }

  /** The counter invariant of the run: every neutron added to the population is one counted in `multiplicity`. */
  predicate Counted(st: Sim) {
    st.multiplicity >= 0 && st.neutrons == NNeutrons + st.multiplicity
  }

  /** One pass of the collision loop, at position `x`, with `read` the cross
      sections the history read when it started. */
  function Collide(st: Sim, read: Sigma, x: real, d: CollisionDraws): (r: Step)
    requires Usable(read) && WellShaped(st)
    ensures WellShaped(r.sim)
    ensures r.sim.sigma == RegionUpdate(st.sigma, x)
  {
    RegionKeepsUsable(st.sigma, x);
    var st1 := st.(sigma := RegionUpdate(st.sigma, x));
    if Sample(read.absorption, read.scattering, d.event) then
      var mu := ScatterCosine(d.u);
      var ls := d.tau / (read.absorption + read.scattering);
      if ls > 1.0 then Escape(st1)
      else
        var x' := if mu > 0.0 then x + ls else x;
        Continue(st1.(tally := Tallied(st1.tally, x', ls, 1)), x')
    else
      var n := FissionYield(read.fission, read.absorption, d.u);
      var l := d.tau / read.scattering;
      if l > 1.0 then Escape(st1)
      else
        Continue(st1.(tally := Tallied(st1.tally, l, l, n),
                      multiplicity := st1.multiplicity + n,
                      neutrons := st1.neutrons + n), l)
  }

  /** The collision loop over the supplied draws, until an escape. */
  function Walk(st: Sim, read: Sigma, x: real, ds: seq<CollisionDraws>): (r: Flight)
    requires Usable(read) && WellShaped(st)
    ensures WellShaped(r.sim)
    ensures Counted(st) ==> Counted(r.sim)
    decreases |ds|
  {
    if ds == [] then Flight(st, false)
    else
      CollideKeepsCounted(st, read, x, ds[0]);
      match Collide(st, read, x, ds[0])
      case Escape(st') => Flight(st', true)
      case Continue(st', x') => Walk(st', read, x', ds[1..])
  }

  /** One history: look the start position up, read the cross sections once, walk. */
  function History(st: Sim, h: HistoryDraws): (r: Flight)
    requires WellShaped(st)
    ensures WellShaped(r.sim)
    ensures Counted(st) ==> Counted(r.sim)
  {
    RegionKeepsUsable(st.sigma, h.start);
    var st1 := st.(sigma := RegionUpdate(st.sigma, h.start));
    Walk(st1, st1.sigma, h.start, h.collisions)
  }

  /** The history loop `while (j < N_neutrons)`, from history `j` on. */
  function Cycle(st: Sim, hs: seq<HistoryDraws>, j: nat): (r: CycleEnd)
    requires WellShaped(st)
    ensures WellShaped(r.sim)
    ensures Counted(st) ==> Counted(r.sim)
    ensures r.finished ==> r.next >= r.sim.neutrons
    decreases |hs| - j
  {
    if j >= st.neutrons then CycleEnd(st, j, true)
    else if j >= |hs| then CycleEnd(st, j, false)
    else
      var f := History(st, hs[j]);
      if !f.escaped then CycleEnd(f.sim, j, false)
      else Cycle(f.sim, hs, j + 1)
  }

  /** The state the run starts in; `prior` is what `start`'s fields hold before their first assignment. */
  function Initial(prior: Sigma): (st: Sim)
    ensures Counted(st) && st.multiplicity == 0
    ensures |st.tally| == Bins && NonNegative(st.tally)
  {
    Sim(prior, Zeros(), 0, NNeutrons)
  }

  /** k = multiplicity / N_neutrons, which the counter invariant keeps in [0, 1). */
  function Keff(st: Sim): (k: real)
    requires Counted(st)
    ensures k * st.neutrons as real == st.multiplicity as real
    ensures 0.0 <= k < 1.0
  {
    var m := st.multiplicity as real;
    assert st.neutrons as real == NNeutrons as real + m;
    m / st.neutrons as real
  }

  /** The whole run: the first cycle does all the work, since `j` is never reset. */
  function Run(prior: Sigma, hs: seq<HistoryDraws>): (r: RunResult)
    requires Usable(prior)
    ensures r.Completed? ==>
              && 0.0 <= r.keff < 1.0
              && r.multiplicity >= 0
              && r.neutrons == NNeutrons + r.multiplicity
              && r.keff * r.neutrons as real == r.multiplicity as real
              && |r.flux| == Bins
  {
    var c := Cycle(Initial(prior), hs, 0);
    if c.finished then Completed(Keff(c.sim), c.sim.tally, c.sim.multiplicity, c.sim.neutrons)
    else DrawsExhausted(c.next)
  }

  // ---------------------------------------------------------------------
  // The loops of `main`

  /** One pass of the collision loop `while (condition==1)`: the lookup at
      `x`, the sampled event and its outcome; `escaped` is the `break`. */
  method SimulateCollision(start: Initialization, interaction: Interact, tally: Scoring,
                           a: real, s: real, f: real, x0: real, d: CollisionDraws,
                           multiplicity0: int, neutrons0: int)
    returns (x: real, multiplicity: int, neutrons: int, escaped: bool)
    requires Usable(Sigma(a, s, f)) && Usable(start.Current()) && tally.tallyF.Length == Bins
    modifies start, interaction, tally.tallyF
    ensures Collide(Sim(old(start.Current()), old(tally.tallyF[..]), multiplicity0, neutrons0), Sigma(a, s, f), x0, d)
            == if escaped then Escape(Sim(start.Current(), tally.tallyF[..], multiplicity, neutrons))
               else Continue(Sim(start.Current(), tally.tallyF[..], multiplicity, neutrons), x)
  {
    x, multiplicity, neutrons, escaped := x0, multiplicity0, neutrons0, false;
    start.Region(x);
    if Sample(a, s, d.event) {
      interaction.Scattering(a + s, d.tau, d.u);
      var angle := interaction.angleSc;
      var ls := interaction.ls;
      if ls > 1.0 {
        escaped := true;
        return;
      }
      if angle > 0.0 {
        x := x + ls;
        if angle < 0.0 {
          x := x - ls;
        }
      }
      tally.Flux(x, ls, 1);
    } else {
      interaction.Absorption(f, a, s, d.u, d.tau);
      var l := interaction.l;
      if l > 1.0 {
        escaped := true;
        return;
      }
      multiplicity := multiplicity + interaction.fissionNeutrons;
      x := l;
      tally.Flux(x, l, interaction.fissionNeutrons);
      neutrons := neutrons + interaction.fissionNeutrons;
    }
  }

  /** One iteration of the history loop: position and region lookup, the
      cross sections read once, then the collision loop until a `break`.
      The collision loop runs while supplied draws remain. */
  method SimulateHistory(start: Initialization, interaction: Interact, tally: Scoring, h: HistoryDraws,
                         multiplicity0: int, neutrons0: int)
    returns (multiplicity: int, neutrons: int, escaped: bool)
    requires Usable(start.Current()) && tally.tallyF.Length == Bins
    modifies start, interaction, tally.tallyF
    ensures History(Sim(old(start.Current()), old(tally.tallyF[..]), multiplicity0, neutrons0), h)
            == Flight(Sim(start.Current(), tally.tallyF[..], multiplicity, neutrons), escaped)
  {
    var x := h.start;
    start.Region(x);
    var a := start.sigmaA;
    var s := start.sigmaS;
    var f := start.sigmaF;
    RegionKeepsUsable(old(start.Current()), h.start);
    ghost var target := Walk(Sim(Sigma(a, s, f), tally.tallyF[..], multiplicity0, neutrons0), Sigma(a, s, f), x, h.collisions);
    multiplicity, neutrons, escaped := multiplicity0, neutrons0, false;
    var c := 0;
    while c < |h.collisions|
      invariant 0 <= c <= |h.collisions|
      invariant Usable(start.Current())
      invariant Walk(Sim(start.Current(), tally.tallyF[..], multiplicity, neutrons), Sigma(a, s, f), x, h.collisions[c..]) == target
      invariant !escaped
    {
      assert h.collisions[c..] == [h.collisions[c]] + h.collisions[c + 1..];
      x, multiplicity, neutrons, escaped :=
        SimulateCollision(start, interaction, tally, a, s, f, x, h.collisions[c], multiplicity, neutrons);
      if escaped {
        break;
      }
      c := c + 1;
    }
  }

  /** `main`: the cycle loop around the history loop; `j` is never reset. */
  method Simulate(prior: Sigma, hs: seq<HistoryDraws>) returns (r: RunResult)
    requires Usable(prior)
    ensures r == Run(prior, hs)
    ensures r.Completed? ==> 0.0 <= r.keff < 1.0 && r.neutrons == NNeutrons + r.multiplicity
  {
    var multiplicity := 0;
    var nNeutrons := NNeutrons;
    var i := 0;
    var j := 0;
    var k := 0.0;
    var start := new Initialization(prior);
    var interaction := new Interact();
    var tally := new Scoring();
    ghost var first := Cycle(Initial(prior), hs, 0);
    while i < NCycle
      invariant 0 <= i <= NCycle
      invariant tally.tallyF.Length == Bins && Usable(start.Current())
      invariant Counted(Sim(start.Current(), tally.tallyF[..], multiplicity, nNeutrons))
      invariant Cycle(Sim(start.Current(), tally.tallyF[..], multiplicity, nNeutrons), hs, j) == first
      invariant j <= |hs|
      invariant i > 0 ==> j >= nNeutrons && k == multiplicity as real / nNeutrons as real
    {
      while j < nNeutrons
        invariant Usable(start.Current())
        invariant Counted(Sim(start.Current(), tally.tallyF[..], multiplicity, nNeutrons))
        invariant Cycle(Sim(start.Current(), tally.tallyF[..], multiplicity, nNeutrons), hs, j) == first
        invariant j <= |hs|
        decreases |hs| - j
      {
        if j >= |hs| {
          return DrawsExhausted(j);
        }
        var escaped;
        multiplicity, nNeutrons, escaped := SimulateHistory(start, interaction, tally, hs[j], multiplicity, nNeutrons);
        if !escaped {
          return DrawsExhausted(j);
        }
        j := j + 1;
      }
      k := multiplicity as real / nNeutrons as real;
      i := i + 1;
    }
    r := Completed(k, tally.tallyF[..], multiplicity, nNeutrons);
  }

  // ---------------------------------------------------------------------
  // Lemmas about one collision

  /** A flight tau / sigma leaves the unit slab exactly when tau exceeds sigma. */
  lemma FlightExceedsSlab(tau: real, sigma: real)
    requires sigma > 0.0
    ensures tau / sigma > 1.0 <==> tau > sigma
  {
  }

  /** A collision keeps the counter invariant and never lowers `multiplicity`. */
  lemma CollideKeepsCounted(st: Sim, read: Sigma, x: real, d: CollisionDraws)
    requires Usable(read) && WellShaped(st)
    ensures Counted(st) ==> Counted(Collide(st, read, x, d).sim)
    ensures Collide(st, read, x, d).sim.multiplicity >= st.multiplicity
  {
  }

  /** A scatter escapes exactly when its optical depth exceeds sigmaA + sigmaS,
      an absorption exactly when it exceeds sigmaS alone (the scattering cross
      section is what `absorption` receives as its total); an escape leaves
      the tally and both counters as they were. */
  lemma EscapeRule(st: Sim, read: Sigma, x: real, d: CollisionDraws)
    requires Usable(read) && WellShaped(st)
    ensures Sample(read.absorption, read.scattering, d.event) ==>
              (Collide(st, read, x, d).Escape? <==> d.tau > read.absorption + read.scattering)
    ensures !Sample(read.absorption, read.scattering, d.event) ==>
              (Collide(st, read, x, d).Escape? <==> d.tau > read.scattering)
    ensures Collide(st, read, x, d).Escape? ==>
              Collide(st, read, x, d).sim == st.(sigma := RegionUpdate(st.sigma, x))
  {
    FlightExceedsSlab(d.tau, read.absorption + read.scattering);
    FlightExceedsSlab(d.tau, read.scattering);
  }

  /** A scatter that stays in the slab moves forward by its flight when the
      cosine is positive and stays put otherwise; it tallies with weight 1
      and leaves the counters alone. */
  lemma ScatterRule(st: Sim, read: Sigma, x: real, d: CollisionDraws)
    requires Usable(read) && WellShaped(st)
    requires Sample(read.absorption, read.scattering, d.event)
    requires d.tau <= read.absorption + read.scattering
    ensures Collide(st, read, x, d).Continue?
    ensures d.u > 0.5 ==> Collide(st, read, x, d).x == x + d.tau / (read.absorption + read.scattering)
    ensures d.u <= 0.5 ==> Collide(st, read, x, d).x == x
    ensures Collide(st, read, x, d).sim.multiplicity == st.multiplicity
    ensures Collide(st, read, x, d).sim.neutrons == st.neutrons
    ensures Collide(st, read, x, d).sim.tally
              == Tallied(st.tally, Collide(st, read, x, d).x, d.tau / (read.absorption + read.scattering), 1)
  {
    FlightExceedsSlab(d.tau, read.absorption + read.scattering);
  }

  /** An absorption that stays in the slab does not end the history: the
      neutron moves to the flight length itself, the tally records that
      flight at the new position with the sampled yield as weight, and the
      yield is added to both counters. */
  lemma AbsorptionRule(st: Sim, read: Sigma, x: real, d: CollisionDraws)
    requires Usable(read) && WellShaped(st)
    requires !Sample(read.absorption, read.scattering, d.event)
    requires d.tau <= read.scattering
    ensures Collide(st, read, x, d).Continue?
    ensures Collide(st, read, x, d).x == d.tau / read.scattering
    ensures Collide(st, read, x, d).sim.tally
              == Tallied(st.tally, d.tau / read.scattering, d.tau / read.scattering,
                         FissionYield(read.fission, read.absorption, d.u))
    ensures Collide(st, read, x, d).sim.multiplicity
              == st.multiplicity + FissionYield(read.fission, read.absorption, d.u)
    ensures Collide(st, read, x, d).sim.neutrons
              == st.neutrons + FissionYield(read.fission, read.absorption, d.u)
  {
    FlightExceedsSlab(d.tau, read.scattering);
  }

  // ---------------------------------------------------------------------
  // Lemmas about histories and the run

  predicate NonNegativeDraws(ds: seq<CollisionDraws>) {
    forall i :: 0 <= i < |ds| ==> ds[i].tau >= 0.0
  }

  /** A collision with a non-negative optical depth adds a non-negative contribution. */
  lemma CollideKeepsTallyNonNegative(st: Sim, read: Sigma, x: real, d: CollisionDraws)
    requires Usable(read) && WellShaped(st) && NonNegative(st.tally) && d.tau >= 0.0
    ensures NonNegative(Collide(st, read, x, d).sim.tally)
  {
    var st1 := st.(sigma := RegionUpdate(st.sigma, x));
    if Sample(read.absorption, read.scattering, d.event) {
      var ls := d.tau / (read.absorption + read.scattering);
      var x' := if ScatterCosine(d.u) > 0.0 then x + ls else x;
      FluxKeepsNonNegative(st1.tally, x', ls, 1);
    } else {
      var l := d.tau / read.scattering;
      FluxKeepsNonNegative(st1.tally, l, l, FissionYield(read.fission, read.absorption, d.u));
    }
  }

  /** With non-negative optical depths the tally stays non-negative through a history. */
  lemma {:induction false} WalkKeepsTallyNonNegative(st: Sim, read: Sigma, x: real, ds: seq<CollisionDraws>)
    requires Usable(read) && WellShaped(st) && NonNegative(st.tally) && NonNegativeDraws(ds)
    ensures NonNegative(Walk(st, read, x, ds).sim.tally)
    decreases |ds|
  {
    if ds != [] {
      CollideKeepsTallyNonNegative(st, read, x, ds[0]);
      match Collide(st, read, x, ds[0])
      case Escape(_) =>
      case Continue(st', x') =>
        assert NonNegativeDraws(ds[1..]) by {
          forall i | 0 <= i < |ds[1..]| ensures ds[1..][i].tau >= 0.0 {
            assert ds[1..][i] == ds[i + 1];
          }
        }
        WalkKeepsTallyNonNegative(st', read, x', ds[1..]);
    }
  }

  /** With non-negative optical depths in every history, the history loop keeps the tally non-negative. */
  lemma {:induction false} CycleKeepsTallyNonNegative(st: Sim, hs: seq<HistoryDraws>, j: nat)
    requires WellShaped(st) && NonNegative(st.tally)
    requires forall i :: 0 <= i < |hs| ==> NonNegativeDraws(hs[i].collisions)
    ensures NonNegative(Cycle(st, hs, j).sim.tally)
    decreases |hs| - j
  {
    if j < st.neutrons && j < |hs| {
      var st1 := st.(sigma := RegionUpdate(st.sigma, hs[j].start));
      RegionKeepsUsable(st.sigma, hs[j].start);
      WalkKeepsTallyNonNegative(st1, st1.sigma, hs[j].start, hs[j].collisions);
      var f := History(st, hs[j]);
      if f.escaped {
        CycleKeepsTallyNonNegative(f.sim, hs, j + 1);
      }
    }
  }

  /** A completed run writes ten non-negative flux values when every optical depth is non-negative. */
  lemma RunTallyNonNegative(prior: Sigma, hs: seq<HistoryDraws>)
    requires Usable(prior)
    requires forall i :: 0 <= i < |hs| ==> NonNegativeDraws(hs[i].collisions)
    ensures Run(prior, hs).Completed? ==> NonNegative(Run(prior, hs).flux)
  {
    CycleKeepsTallyNonNegative(Initial(prior), hs, 0);
  }

  /** Once the history loop has finished, running it again changes nothing:
      every later cycle of `main` is idle. */
  lemma LaterCyclesIdle(st: Sim, hs: seq<HistoryDraws>, j: nat)
    requires WellShaped(st)
    requires Cycle(st, hs, j).finished
    ensures Cycle(Cycle(st, hs, j).sim, hs, Cycle(st, hs, j).next) == Cycle(st, hs, j)
  {
  }
}
