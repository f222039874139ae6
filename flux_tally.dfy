/** The track-length flux tally: the `Scoring` class of the transport code,
    ten accumulators over the open bins (k/10, (k+1)/10) of the slab. */
module FluxTally {

  datatype Option<T> = None | Some(value: T)

  const Bins: nat := 10
  const BinWidth: real := 0.1

  /** The bin whose open interval holds `x`, if any, defined through
      floor(10x) rather than through the ten comparisons of `flux`. */
  function BinOf(x: real): (b: Option<nat>)
    ensures b.Some? ==> b.value < Bins
    ensures b.Some? ==> b.value as real / 10.0 < x < (b.value + 1) as real / 10.0
  {
    var scaled := 10.0 * x;
    if 0.0 < x < 1.0 && scaled.Floor as real != scaled then Some(scaled.Floor) else None
  }

  /** What one collision adds: its weight times its track length over the bin width. */
  function Contribution(weight: int, trackLength: real): (c: real)
    ensures c * BinWidth == weight as real * trackLength
    ensures weight >= 0 && trackLength >= 0.0 ==> c >= 0.0
  {
    weight as real * trackLength / BinWidth
  }

  /** The tally after `flux(x, trackLength, weight)`. */
  function Tallied(t: seq<real>, x: real, trackLength: real, weight: int): (r: seq<real>)
    requires |t| == Bins
    ensures |r| == Bins
    ensures forall k :: 0 <= k < Bins ==>
              r[k] == t[k] + (if BinOf(x) == Some(k) then Contribution(weight, trackLength) else 0.0)
  {
    match BinOf(x)
    case None => t
    case Some(k) => t[k := t[k] + Contribution(weight, trackLength)]
  }

  function Zeros(): (z: seq<real>)
    ensures |z| == Bins && forall k :: 0 <= k < |z| ==> z[k] == 0.0
  {
    seq(Bins, _ => 0.0)
  }

  predicate NonNegative(t: seq<real>) {
    forall k :: 0 <= k < |t| ==> t[k] >= 0.0
  }

  class Scoring {
    const tallyF: array<real>

    /** The source never initialises `tally_f`; the model starts it at zero. */
    constructor ()
      ensures fresh(tallyF) && tallyF.Length == Bins && tallyF[..] == Zeros()
    {
      tallyF := new real[Bins](_ => 0.0);
    }

    method Flux(x: real, trackLength: real, weight: int)
      requires tallyF.Length == Bins
      modifies tallyF
      ensures tallyF[..] == Tallied(old(tallyF[..]), x, trackLength, weight)
    {
      ghost var before := tallyF[..];
      if x > 0.0 && x < 0.1 {
        tallyF[0] := tallyF[0] + Contribution(weight, trackLength);
      }
      if x > 0.1 && x < 0.2 {
        tallyF[1] := tallyF[1] + Contribution(weight, trackLength);
      }
      if x > 0.2 && x < 0.3 {
        tallyF[2] := tallyF[2] + Contribution(weight, trackLength);
      }
      if x > 0.3 && x < 0.4 {
        tallyF[3] := tallyF[3] + Contribution(weight, trackLength);
      }
      if x > 0.4 && x < 0.5 {
        tallyF[4] := tallyF[4] + Contribution(weight, trackLength);
      }
      if x > 0.5 && x < 0.6 {
        tallyF[5] := tallyF[5] + Contribution(weight, trackLength);
      }
      if x > 0.6 && x < 0.7 {
        tallyF[6] := tallyF[6] + Contribution(weight, trackLength);
      }
      if x > 0.7 && x < 0.8 {
        tallyF[7] := tallyF[7] + Contribution(weight, trackLength);
      }
      if x > 0.8 && x < 0.9 {
        tallyF[8] := tallyF[8] + Contribution(weight, trackLength);
      }
      if x > 0.9 && x < 1.0 {
        tallyF[9] := tallyF[9] + Contribution(weight, trackLength);
      }

    }
  }

  /** Converse of BinOf's contract: a position strictly inside bin k is in bin k. */
  lemma BinOfComplete(x: real, k: nat)
    requires k < Bins && k as real / 10.0 < x < (k + 1) as real / 10.0
    ensures BinOf(x) == Some(k)
  {
  }

  /** Bin edges and positions outside (0, 1) fall in no bin. */
  lemma BinOfEdges(x: real, e: int)
    requires x <= 0.0 || x >= 1.0 || x == e as real / 10.0
    ensures BinOf(x) == None
  {
  }

  /** BinOf agrees with the ten open-interval tests that `flux` performs. */
  lemma BinOfExact(x: real)
    ensures BinOf(x) == Some(0) <==> 0.0 < x < 0.1
    ensures BinOf(x) == Some(1) <==> 0.1 < x < 0.2
    ensures BinOf(x) == Some(2) <==> 0.2 < x < 0.3
    ensures BinOf(x) == Some(3) <==> 0.3 < x < 0.4
    ensures BinOf(x) == Some(4) <==> 0.4 < x < 0.5
    ensures BinOf(x) == Some(5) <==> 0.5 < x < 0.6
    ensures BinOf(x) == Some(6) <==> 0.6 < x < 0.7
    ensures BinOf(x) == Some(7) <==> 0.7 < x < 0.8
    ensures BinOf(x) == Some(8) <==> 0.8 < x < 0.9
    ensures BinOf(x) == Some(9) <==> 0.9 < x < 1.0
  {
  }

  /** A position strictly inside bin k adds weight * length / 0.1 to entry k
      and to no other entry. */
  lemma FluxHitsBin(t: seq<real>, x: real, trackLength: real, weight: int, k: nat)
    requires |t| == Bins
    requires k < Bins && k as real / 10.0 < x < (k + 1) as real / 10.0
    ensures Tallied(t, x, trackLength, weight) == t[k := t[k] + Contribution(weight, trackLength)]
  {
  }

  /** A position outside (0, 1) or on a bin edge changes no entry. */
  lemma FluxMissesEdges(t: seq<real>, x: real, trackLength: real, weight: int, e: int)
    requires |t| == Bins
    requires x <= 0.0 || x >= 1.0 || x == e as real / 10.0
    ensures Tallied(t, x, trackLength, weight) == t
  {
  }

  /** Of any two entries, at least one is untouched by a call. */
  lemma FluxAtMostOneBin(t: seq<real>, x: real, trackLength: real, weight: int, p: nat, q: nat)
    requires |t| == Bins && p < Bins && q < Bins && p != q
    ensures Tallied(t, x, trackLength, weight)[p] == t[p] || Tallied(t, x, trackLength, weight)[q] == t[q]
  {
  }

  /** `flux(0.05, 1.0, 1)` on a zero tally puts exactly 10 in bin 0 and nothing elsewhere. */
  lemma FluxExample()
    ensures Tallied(Zeros(), 0.05, 1.0, 1) == [10.0, 0.0, 0.0, 0.0, 0.0, 0.0, 0.0, 0.0, 0.0, 0.0]
  {
  }

  /** Non-negative contributions keep the tally non-negative. */
  lemma FluxKeepsNonNegative(t: seq<real>, x: real, trackLength: real, weight: int)
    requires |t| == Bins && NonNegative(t) && weight >= 0 && trackLength >= 0.0
    ensures NonNegative(Tallied(t, x, trackLength, weight))
  {
  }
}
