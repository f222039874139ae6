/** Region-dependent macroscopic cross sections of the two-region slab:
    the `initialization` class of the transport code. */
module Regions {

  /** The three macroscopic cross sections (per unit length) of a region. */
  datatype Sigma = Sigma(absorption: real, scattering: real, fission: real)

  /** Region A fills (0, 0.5), region B fills (0.5, 1). */
  const RegionA := Sigma(0.12, 0.05, 0.15)
  const RegionB := Sigma(0.10, 0.05, 0.12)

  /** The positions at which `region` assigns the fields. */
  predicate Assigned(a: real) {
    (0.0 < a < 0.5) || (0.5 < a < 1.0)
  }

  /** What the three fields hold after `region(a)`, given what they held before. */
  function RegionUpdate(current: Sigma, a: real): (r: Sigma)
    ensures !Assigned(a) ==> r == current
    ensures Assigned(a) ==> r == (if a < 0.5 then RegionA else RegionB)
  {
    if 0.0 < a < 0.5 then RegionA
    else if 0.5 < a < 1.0 then RegionB
    else current
  }

  /** Cross sections under which the sampler and both free-flight divisions
      are defined and the fission yield is non-negative. */
  predicate Usable(s: Sigma) {
    s.absorption > 0.0 && s.scattering > 0.0 && s.fission >= 0.0
  }

  class Initialization {
    var sigmaA: real
    var sigmaS: real
    var sigmaF: real

    function Current(): Sigma
      reads this
    {
      Sigma(sigmaA, sigmaS, sigmaF)
    }

    /** The source never initialises the three fields; `prior` stands for
        whatever they hold before `region` first assigns them. */
    constructor (prior: Sigma)
      ensures Current() == prior
    {
      sigmaA, sigmaS, sigmaF := prior.absorption, prior.scattering, prior.fission;
    }

    method Region(a: real)
      modifies this
      ensures Current() == RegionUpdate(old(Current()), a)
    {
      if 0.0 < a && a < 0.5 {
        sigmaA := 0.12;
        sigmaS := 0.05;
        sigmaF := 0.15;
      } else if 0.5 < a && a < 1.0 {
        sigmaA := 0.10;
        sigmaS := 0.05;
        sigmaF := 0.12;
      }
    }
  }

  /** Region A's constants inside (0, 0.5), region B's inside (0.5, 1), and
      the previous values everywhere else. */
  lemma RegionOfPosition(current: Sigma, a: real)
    ensures 0.0 < a < 0.5 ==> RegionUpdate(current, a) == RegionA
    ensures 0.5 < a < 1.0 ==> RegionUpdate(current, a) == RegionB
    ensures a <= 0.0 || a == 0.5 || a >= 1.0 ==> RegionUpdate(current, a) == current
  {
  }

  /** The result depends on the previous values exactly at the positions
      `region` does not handle. */
  lemma StaleExactlyWhenUnassigned(c1: Sigma, c2: Sigma, a: real)
    requires c1 != c2
    ensures RegionUpdate(c1, a) == RegionUpdate(c2, a) <==> Assigned(a)
  {
  }

  /** Calling `region` twice at the same position is the same as calling it once. */
  lemma RegionIdempotent(current: Sigma, a: real)
    ensures RegionUpdate(RegionUpdate(current, a), a) == RegionUpdate(current, a)
  {
  }

  /** Both regions' constants are usable, so a lookup keeps the fields usable. */
  lemma RegionKeepsUsable(current: Sigma, a: real)
    requires Usable(current) || Assigned(a)
    ensures Usable(RegionUpdate(current, a))
  {
  }
}
