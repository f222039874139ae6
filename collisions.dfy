/** The interaction outcome engine: the `Interact` class of the transport
    code. Each random draw is a parameter; a free-flight distance is given by
    its sampled optical depth `tau` (the source's `-log(rand()/RAND_MAX)`),
    divided by the cross section the caller passes as the total. */
module Collisions {
  import opened Regions

  /** Stochastic rounding of the mean yield `sigmaF / sigmaA` with the draw `eta`:
      the integer below the mean, or one more when the fractional part exceeds `eta`. */
  function FissionYield(sigmaF: real, sigmaA: real, eta: real): (n: int)
    requires sigmaA != 0.0
    ensures n == (sigmaF / sigmaA).Floor || n == (sigmaF / sigmaA).Floor + 1
    ensures n as real - 1.0 <= sigmaF / sigmaA < n as real + 1.0
    ensures n as real > sigmaF / sigmaA <==> sigmaF / sigmaA - (sigmaF / sigmaA).Floor as real > eta
    ensures sigmaF >= 0.0 && sigmaA > 0.0 ==> n >= 0
  {
    var mean := sigmaF / sigmaA;
    var remainder := mean - mean.Floor as real;
    if remainder > eta then mean.Floor + 1 else mean.Floor
  }

  /** The scattering cosine `2u - 1` drawn from the uniform draw `u`. */
  function ScatterCosine(u: real): (mu: real)
    ensures (mu + 1.0) / 2.0 == u
    ensures 0.0 <= u <= 1.0 ==> -1.0 <= mu <= 1.0
    ensures mu > 0.0 <==> u > 0.5
  {
    2.0 * u - 1.0
  }

  class Interact {
    var fissionNeutrons: int   // the source's I
    var l: real                // free flight after an absorption
    var angleSc: real          // scattering cosine
    var ls: real               // free flight after a scatter

    /** The source leaves the fields uninitialised; every reader is preceded
        by a writer, so their first values do not matter. */
    constructor ()
      ensures fissionNeutrons == 0 && l == 0.0 && angleSc == 0.0 && ls == 0.0
    {
      fissionNeutrons, l, angleSc, ls := 0, 0.0, 0.0, 0.0;
    }

    /** `absorption(sigmaF, sigmaA, sigmaT)` with the rounding draw `eta` and the
        optical depth `tau`: sets the yield and the free flight `tau / sigmaT`. */
    method Absorption(sigmaF: real, sigmaA: real, sigmaT: real, eta: real, tau: real)
      requires sigmaA != 0.0 && sigmaT != 0.0
      modifies this
      ensures fissionNeutrons == FissionYield(sigmaF, sigmaA, eta)
      ensures l == tau / sigmaT
      ensures angleSc == old(angleSc) && ls == old(ls)
    {
      var nNew := sigmaF / sigmaA;
      var rN := nNew - nNew.Floor as real;
      if rN > eta {
        fissionNeutrons := nNew.Floor + 1;
      } else {
        fissionNeutrons := nNew.Floor;
      }
      l := tau / sigmaT;
    }

    /** `scattering(sigmaT)` with the optical depth `tau` and the cosine draw `u`. */
    method Scattering(sigmaT: real, tau: real, u: real)
      requires sigmaT != 0.0
      modifies this
      ensures ls == tau / sigmaT
      ensures angleSc == ScatterCosine(u)
      ensures fissionNeutrons == old(fissionNeutrons) && l == old(l)
    {
      ls := tau / sigmaT;
      angleSc := 2.0 * u - 1.0;
    }
  }

  /** Region A's mean yield is 1.25 and region B's is 1.2: every sampled yield
      is 1 or 2, and it is 2 exactly when the draw is below the fractional part. */
  lemma RegionYields(eta: real)
    ensures FissionYield(RegionA.fission, RegionA.absorption, eta) == (if eta < 0.25 then 2 else 1)
    ensures FissionYield(RegionB.fission, RegionB.absorption, eta) == (if eta < 0.2 then 2 else 1)
  {
  }
}
