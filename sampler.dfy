/** The interaction sampler: the `sampling` class of the transport code,
    which has no state and one pure operation. */
module Sampler {

  /** `sample(sigmaA, sigmaS)` with the uniform draw `m`: true (scatter)
      when the draw falls below the scattering probability. */
  function Sample(sigmaA: real, sigmaS: real, m: real): (scatter: bool)
    requires sigmaA + sigmaS > 0.0
    ensures scatter <==> m * (sigmaA + sigmaS) < sigmaS
  {
    var sigmaT := sigmaA + sigmaS;
    var ps := sigmaS / sigmaT;
    m < ps
  }

  /** A medium that does not scatter never yields a scatter for a draw in [0, 1]. */
  lemma NoScatterWithoutScattering(sigmaA: real, m: real)
    requires sigmaA > 0.0 && m >= 0.0
    ensures !Sample(sigmaA, 0.0, m)
  {
  }

  /** A medium that does not absorb always yields a scatter for a draw below 1. */
  lemma AlwaysScatterWithoutAbsorption(sigmaS: real, m: real)
    requires sigmaS > 0.0 && m < 1.0
    ensures Sample(0.0, sigmaS, m)
  {
  }

  /** The classification is a threshold on the draw: lowering a scattering
      draw keeps it a scatter. */
  lemma SampleThreshold(sigmaA: real, sigmaS: real, m1: real, m2: real)
    requires sigmaA + sigmaS > 0.0
    requires m1 <= m2 && Sample(sigmaA, sigmaS, m2)
    ensures Sample(sigmaA, sigmaS, m1)
  {
  }
}
