/**
 * Dynamic Dimensioned Search (Tolson and Shoemaker), as the calibration's
 * `DDS.py` proposes one candidate parameter set per iteration. Every draw of
 * the global `np.random` generator is an explicit argument: `z` is a standard
 * normal deviate, `u`, `v`, `pick` and the entries of `rand` are uniforms in
 * [0, 1), and the selection probability `pn` is given.
 */
module Dds {
  import opened Wrappers
  import opened SearchRecords

  /** The neighbourhood size perturbation parameter `r`. */
  const R: real := 0.2

  /** The Gaussian step `s + (s_max - s_min) * r * z`. */
  function Candidate(s: real, lo: real, hi: real, z: real): real {
    s + (hi - lo) * R * z
  }

  // ------------------------------------------------------------ continuous steps

  /**
   * `perturb_cont`: a candidate inside the bounds is kept; one below the lower
   * bound is reflected about it when `u <= 0.5` and absorbed onto it
   * otherwise, and a reflection that overshoots the other bound snaps back to
   * the bound that was crossed; above the upper bound mirrors this.
   */
  function PerturbCont(s: real, lo: real, hi: real, z: real, u: real): (r: real)
    ensures var c := Candidate(s, lo, hi, z); lo <= c <= hi ==> r == c
    ensures lo <= hi ==> lo <= r <= hi
  {
    var c := Candidate(s, lo, hi, z);
    if c < lo then
      var t := if u <= 0.5 then lo + (lo - c) else lo;
      if t > hi then lo else t
    else if c > hi then
      var t := if u <= 0.5 then hi - (c - hi) else hi;
      if t < lo then hi else t
    else c
  }

  /** The boundary cases of `perturb_cont`, one by one. */
  lemma PerturbContCases(s: real, lo: real, hi: real, z: real, u: real)
    ensures var c := Candidate(s, lo, hi, z); var r := PerturbCont(s, lo, hi, z, u);
      && (c < lo && u <= 0.5 && 2.0 * lo - c <= hi ==> r == 2.0 * lo - c)
      && (c < lo && (u > 0.5 || 2.0 * lo - c > hi) ==> r == lo)
      && (c > hi && lo <= hi && u <= 0.5 && 2.0 * hi - c >= lo ==> r == 2.0 * hi - c)
      && (c > hi && lo <= hi && (u > 0.5 || 2.0 * hi - c < lo) ==> r == hi)
  {
  }

  // -------------------------------------------------------------- discrete steps

  /** `np.around(x)`: the nearest integer, ties going to the even one. */
  function RoundHalfEven(x: real): (r: int)
    ensures -0.5 <= r as real - x <= 0.5
    ensures r as real - x == 0.5 || x - r as real == 0.5 ==> r % 2 == 0
  {
    var f := x.Floor;
    var d := x - f as real;
    if d < 0.5 then f
    else if d > 0.5 then f + 1
    else if f % 2 == 0 then f else f + 1
  }

  /** `np.ceil(x)`. */
  function Ceil(x: real): (r: int)
    ensures x <= r as real < x + 1.0
  {
    -((-x).Floor)
  }

  /** The reflect/absorb rule of `perturb_disc`, against bounds widened by one half. */
  function DiscBounded(c: real, lo: real, hi: real, u: real): real {
    var lo' := lo - 0.5;
    var hi' := hi + 0.5;
    if c < lo' then
      var t := if u <= 0.5 then lo' + (lo' - c) else lo;
      if t > hi' then lo else t
    else if c > hi' then
      var t := if u <= 0.5 then hi' - (c - hi') else hi;
      if t < lo' then hi else t
    else c
  }

  /**
   * `perturb_disc` as written: the bounded candidate is rounded half to even,
   * and a result equal to the current value is resampled as
   * `s_min - 1 + ceil(range) * v`, or one more than that when it is not below
   * `s`, without taking the floor of the sample.
   */
  function PerturbDisc(s: real, lo: real, hi: real, z: real, u: real, v: real): (r: real)
    ensures r != s
    ensures RoundHalfEven(DiscBounded(Candidate(s, lo, hi, z), lo, hi, u)) as real != s ==>
      r == RoundHalfEven(DiscBounded(Candidate(s, lo, hi, z), lo, hi, u)) as real
  {
    var rounded := RoundHalfEven(DiscBounded(Candidate(s, lo, hi, z), lo, hi, u)) as real;
    if rounded == s then
      var samp := lo - 1.0 + Ceil(hi - lo) as real * v;
      if samp < s then samp else samp + 1.0
    else rounded
  }

  /** The resample of `perturb_disc` need not be a whole number. */
  lemma PerturbDiscFraction()
    ensures PerturbDisc(5.0, 0.0, 10.0, 0.0, 0.0, 0.55) == 4.5
  {
    assert Candidate(5.0, 0.0, 10.0, 0.0) == 5.0;
    assert DiscBounded(5.0, 0.0, 10.0, 0.0) == 5.0;
    assert RoundHalfEven(5.0) == 5;
    assert Ceil(10.0) == 10;
  }

  /** A resample with `v = 0` lands one below the lower bound. */
  lemma PerturbDiscBelowRange()
    ensures PerturbDisc(5.0, 0.0, 10.0, 0.0, 0.0, 0.0) == -1.0
  {
    assert Candidate(5.0, 0.0, 10.0, 0.0) == 5.0;
    assert DiscBounded(5.0, 0.0, 10.0, 0.0) == 5.0;
    assert RoundHalfEven(5.0) == 5;
    assert Ceil(10.0) == 10;
  }

  /** On the widened lower bound `s_min - 0.5` rounding half to even can leave the range. */
  lemma PerturbDiscRoundsOut()
    ensures PerturbDisc(1.0, 1.0, 11.0, -0.25, 0.0, 0.0) == 0.0
  {
    assert Candidate(1.0, 1.0, 11.0, -0.25) == 0.5;
    assert DiscBounded(0.5, 1.0, 11.0, 0.0) == 0.5;
    assert RoundHalfEven(0.5) == 0;
  }

  /** `max(lo, min(x, hi))`. */
  function Clamp(x: int, lo: int, hi: int): (r: int)
    requires lo <= hi
    ensures lo <= r <= hi
    ensures lo <= x <= hi ==> r == x
  {
    if x < lo then lo else if x > hi then hi else x
  }

  /**
   * The evident intent of `perturb_disc` for integer bounds: round the bounded
   * candidate, keep it within the bounds, and when it equals the current value
   * draw one of the other `hi - lo` integers of the range uniformly.
   */
  function PerturbDiscCorrected(s: int, lo: int, hi: int, z: real, u: real, v: real): (r: int)
    requires lo <= hi && 0.0 <= v < 1.0
    ensures lo <= r <= hi
    ensures lo < hi ==> r != s
  {
    var rounded := Clamp(RoundHalfEven(DiscBounded(Candidate(s as real, lo as real, hi as real, z), lo as real, hi as real, u)), lo, hi);
    if rounded != s then rounded
    else if lo == hi then lo
    else
      var samp := lo + ((hi - lo) as real * v).Floor;
      CorrectedResampleRange(s, lo, hi, v);
      if samp < s then samp else samp + 1
  }

  /** Every integer of the range other than `s` can be proposed by the corrected resample, and only those. */
  lemma CorrectedResampleRange(s: int, lo: int, hi: int, v: real)
    requires lo <= s <= hi && lo < hi && 0.0 <= v < 1.0
    ensures var samp := lo + ((hi - lo) as real * v).Floor;
      var r := if samp < s then samp else samp + 1;
      lo <= r <= hi && r != s
  {
    assert (hi - lo) as real * v < (hi - lo) as real;
  }

  /** `perturb_type`: the discrete or the continuous step, by the variable's flag. */
  function PerturbType(s: real, lo: real, hi: real, discrete: bool, d: Draw): (r: real)
    ensures !discrete && lo <= hi ==> lo <= r <= hi
    ensures discrete ==> r != s
  {
    if discrete then PerturbDisc(s, lo, hi, d.z, d.u, d.v) else PerturbCont(s, lo, hi, d.z, d.u)
  }

  // ------------------------------------------------------------- normal deviates

  /** The draws one perturbation consumes: the deviate, the reflect/absorb uniform and the resample uniform. */
  datatype Draw = Draw(z: real, u: real, v: real)

  /** A deviate together with the number of uniforms taken to produce it. */
  datatype Deviate = Deviate(z: real, used: nat)

  function Shift(d: Option<Deviate>, n: nat): Option<Deviate> {
    match d
    case None => None
    case Some(x) => Some(Deviate(x.z, x.used + n))
  }

  /** The squared radius of the point `(2a - 1, 2b - 1)`. */
  function Radius2(a: real, b: real): real {
    (2.0 * a - 1.0) * (2.0 * a - 1.0) + (2.0 * b - 1.0) * (2.0 * b - 1.0)
  }

  /** A pair of uniforms the polar method accepts: its point lies strictly inside the unit circle and off the origin. */
  predicate Accepts(a: real, b: real) {
    0.0 < Radius2(a, b) < 1.0
  }

  /**
   * The polar (Marsaglia–Bray) method of Numerical Recipes' `gasdev`: pairs of
   * uniforms are drawn until one is accepted, then a final uniform picks the
   * first coordinate (`< 0.5`) or the second, scaled by `scale(w)`, which
   * stands for `sqrt(-2 ln w / w)`. `None`: the draws ran out first.
   */
  function GasDev(draws: seq<real>, scale: real -> real): (r: Option<Deviate>)
    ensures r.Some? ==> 3 <= r.value.used <= |draws| && r.value.used % 2 == 1
    ensures |draws| < 3 ==> r.None?
    decreases |draws|
  {
    if |draws| < 2 then None
    else if !Accepts(draws[0], draws[1]) then Shift(GasDev(draws[2..], scale), 2)
    else if |draws| < 3 then None
    else Some(Deviate(Polar(draws[0], draws[1], draws[2], scale), 3))
  }

  /** The deviate an accepted pair `(a, b)` yields: its first coordinate, scaled, when `c < 0.5`, else its second. */
  function Polar(a: real, b: real, c: real, scale: real -> real): real {
    (if c < 0.5 then 2.0 * a - 1.0 else 2.0 * b - 1.0) * scale(Radius2(a, b))
  }

  /**
   * What a deviate is made of: an odd number of uniforms, every earlier pair
   * rejected, the last pair accepted, and the coordinate chosen by the final
   * uniform.
   */
  lemma {:induction false} GasDevShape(draws: seq<real>, scale: real -> real)
    requires GasDev(draws, scale).Some?
    ensures var d := GasDev(draws, scale).value; var j := d.used - 3;
      && 3 <= d.used <= |draws| && d.used % 2 == 1
      && (forall k :: 0 <= k < j && k % 2 == 0 ==> !Accepts(draws[k], draws[k + 1]))
      && Accepts(draws[j], draws[j + 1])
      && d.z == Polar(draws[j], draws[j + 1], draws[j + 2], scale)
    decreases |draws|
  {
    if !Accepts(draws[0], draws[1]) {
      var rest := draws[2..];
      GasDevShape(rest, scale);
      var e := GasDev(rest, scale).value;
      forall k | 2 <= k < |draws| ensures draws[k] == rest[k - 2] { }
    }
  }

  /** Each coordinate `2u - 1` of a uniform in [0, 1) lies in [-1, 1). */
  lemma CoordinateRange(a: real)
    requires 0.0 <= a < 1.0
    ensures -1.0 <= 2.0 * a - 1.0 < 1.0
  {
  }

  /** The loop's `work1² + work2²` is the squared radius of the pair it came from. */
  lemma RadiusOfCoordinates(a: real, b: real, x: real, y: real)
    requires x == 2.0 * a - 1.0 && y == 2.0 * b - 1.0
    ensures x * x + y * y == Radius2(a, b)
  {
  }

  /** `stand_norm`: the rejection loop over `Work1..Work3`. */
  method StandNorm(draws: seq<real>, scale: real -> real) returns (r: Option<Deviate>)
    ensures r == GasDev(draws, scale)
  {
    var work1, work2, work3 := 0.0, 0.0, 2.0;
    var next := 0;
    ghost var pos := 0;
    while work3 >= 1.0 || work3 == 0.0
      invariant 0 <= pos <= next <= |draws|
      invariant GasDev(draws, scale) == Shift(GasDev(draws[pos..], scale), pos)
      invariant work3 >= 1.0 || work3 == 0.0 ==> pos == next
      invariant !(work3 >= 1.0 || work3 == 0.0) ==>
        && next == pos + 2 && Accepts(draws[pos], draws[pos + 1])
        && work1 == 2.0 * draws[pos] - 1.0 && work2 == 2.0 * draws[pos + 1] - 1.0
        && work3 == Radius2(draws[pos], draws[pos + 1])
      decreases |draws| - next, if work3 >= 1.0 || work3 == 0.0 then 1 else 0
    {
      if next + 2 > |draws| {
        return None;
      }
      work1 := 2.0 * draws[next] - 1.0;
      work2 := 2.0 * draws[next + 1] - 1.0;
      work3 := work1 * work1 + work2 * work2;
      RadiusOfCoordinates(draws[next], draws[next + 1], work1, work2);
      if work3 >= 1.0 || work3 == 0.0 {
        RejectStep(draws, scale, pos);
        pos := pos + 2;
      }
      next := next + 2;
    }
    if next >= |draws| {
      return None;
    }
    var f := scale(work3);
    var z := if draws[next] < 0.5 then work1 * f else work2 * f;
    AcceptStep(draws, scale, pos);
    assert z == Polar(draws[pos], draws[pos + 1], draws[next], scale);
    r := Some(Deviate(z, next + 1));
  }

  lemma AcceptStep(draws: seq<real>, scale: real -> real, pos: nat)
    requires pos + 3 <= |draws| && Accepts(draws[pos], draws[pos + 1])
    ensures GasDev(draws[pos..], scale) == Some(Deviate(Polar(draws[pos], draws[pos + 1], draws[pos + 2], scale), 3))
  {
    var t := draws[pos..];
    assert t[0] == draws[pos] && t[1] == draws[pos + 1] && t[2] == draws[pos + 2];
  }

  lemma RejectStep(draws: seq<real>, scale: real -> real, pos: nat)
    requires pos + 2 <= |draws| && !Accepts(draws[pos], draws[pos + 1])
    ensures Shift(GasDev(draws[pos..], scale), pos) == Shift(GasDev(draws[pos + 2..], scale), pos + 2)
  {
    assert draws[pos..][2..] == draws[pos + 2..];
  }

  // ---------------------------------------------------------- neighbourhood step

  /** One row of the bounds file: `MultiplierName, InitialValue, LowerLimit, UpperLimit`. */
  datatype ParamBound = ParamBound(name: string, initial: real, lower: real, upper: real)

  /** A proposed parameter set and the number of variables selected for perturbation. */
  datatype Proposal = Proposal(sample: seq<real>, count: nat)

  /** `select_param_count`: the number of indices with `rand[i] < pn`. */
  function SelectCount(rand: seq<real>, pn: real): (n: nat)
    ensures n <= |rand|
    ensures n == 0 <==> forall i :: 0 <= i < |rand| ==> !(rand[i] < pn)
    decreases |rand|
  {
    if |rand| == 0 then 0
    else
      var init := rand[..|rand| - 1];
      assert forall i :: 0 <= i < |init| ==> rand[i] == init[i];
      SelectCount(init, pn) + if rand[|rand| - 1] < pn then 1 else 0
  }

  /** The variable perturbed when no index was selected: `int(floor(param_dim * u))`. */
  function FallbackIndex(dim: nat, pick: real): int {
    (dim as real * pick).Floor
  }

  /** For a uniform in [0, 1) the fallback index is a valid index of a non-empty parameter set. */
  lemma FallbackIndexInRange(dim: nat, pick: real)
    requires dim >= 1 && 0.0 <= pick < 1.0
    ensures 0 <= FallbackIndex(dim, pick) < dim
  {
    var d := dim as real;
    var x := d * pick;
    assert 0.0 <= x;
    assert d - x == d * (1.0 - pick) > 0.0;
    assert x.Floor as real <= x;
  }

  /** The perturbation of variable `i` with draws `d`. */
  function PerturbAt(prev: seq<real>, bounds: seq<ParamBound>, flags: seq<bool>, i: nat, d: Draw): real
    requires i < |prev| && i < |bounds| && i < |flags|
  {
    PerturbType(prev[i], bounds[i].lower, bounds[i].upper, flags[i], d)
  }

  /** An index selected by the draws that the previous parameter file does not hold. */
  predicate SelectsMissing(prev: seq<real>, rand: seq<real>, pn: real) {
    exists i :: |prev| <= i < |rand| && rand[i] < pn
  }

  /**
   * The DDS neighbourhood step (the `iteration_idx > 1` branch) on the previous
   * sample read as a one-dimensional array, which is what
   * `np.loadtxt(param_file, ndmin=1)` gives: the new sample starts as a copy of
   * the previous one; each index with `rand[i] < pn` is perturbed with its own
   * draws `draws[i]`; when none was selected, the index `floor(dim * pick)` is
   * perturbed with the draws `extra`. Reading a previous value the file does
   * not hold raises IndexError, as does the fallback of an empty parameter set.
   */
  function Neighbour(prev: seq<real>, bounds: seq<ParamBound>, flags: seq<bool>, rand: seq<real>, pn: real,
                     draws: seq<Draw>, extra: Draw, pick: real): (r: Result<Proposal, Fault>)
    requires |flags| == |bounds| && |rand| == |bounds| && |draws| == |bounds|
    requires 0.0 <= pick < 1.0
    ensures r.Ok? ==> |r.value.sample| == |prev| && r.value.count == SelectCount(rand, pn)
  {
    if SelectsMissing(prev, rand, pn) then Err(IndexError("index out of bounds"))
    else
      var sample := Partial(prev, bounds, flags, rand, pn, draws, |bounds|);
      var count := SelectCount(rand, pn);
      if count > 0 then Ok(Proposal(sample, count))
      else
        var k := FallbackIndex(|bounds|, pick);
        if |bounds| == 0 || k >= |prev| then Err(IndexError("index out of bounds"))
        else
          FallbackIndexInRange(|bounds|, pick);
          Ok(Proposal(sample[k := PerturbAt(prev, bounds, flags, k, extra)], 0))
  }

  /** The message numpy gives for indexing a 0-d array. */
  const ZeroDim := "too many indices for array: array is 0-dimensional"

  /**
   * The step as written: `np.loadtxt(param_file)` squeezes a file holding a
   * single value into a 0-d array, and the first read of
   * `param_sample_previous[i_param]`, in the loop or in the fallback, raises
   * IndexError; a file of any other length is a one-dimensional array.
   */
  function Step(prev: seq<real>, bounds: seq<ParamBound>, flags: seq<bool>, rand: seq<real>, pn: real,
                draws: seq<Draw>, extra: Draw, pick: real): (r: Result<Proposal, Fault>)
    requires |flags| == |bounds| && |rand| == |bounds| && |draws| == |bounds|
    requires 0.0 <= pick < 1.0
    ensures r.Ok? ==> |r.value.sample| == |prev| && r.value.count == SelectCount(rand, pn)
    ensures |prev| == 1 ==> r == Err(IndexError(ZeroDim))
  {
    if |prev| == 1 then Err(IndexError(ZeroDim))
    else Neighbour(prev, bounds, flags, rand, pn, draws, extra, pick)
  }

  /** The sample after the loop has visited the indices below `n`. */
  function Partial(prev: seq<real>, bounds: seq<ParamBound>, flags: seq<bool>, rand: seq<real>, pn: real,
                   draws: seq<Draw>, n: nat): (r: seq<real>)
    requires |flags| == |bounds| && |rand| == |bounds| && |draws| == |bounds|
    ensures |r| == |prev|
  {
    seq(|prev|, i requires 0 <= i < |prev| =>
      if i < n && i < |bounds| && rand[i] < pn then PerturbAt(prev, bounds, flags, i, draws[i]) else prev[i])
  }

  lemma PartialNext(prev: seq<real>, bounds: seq<ParamBound>, flags: seq<bool>, rand: seq<real>, pn: real,
                    draws: seq<Draw>, n: nat)
    requires |flags| == |bounds| && |rand| == |bounds| && |draws| == |bounds| && n < |bounds|
    ensures n < |prev| && rand[n] < pn ==>
      Partial(prev, bounds, flags, rand, pn, draws, n + 1)
        == Partial(prev, bounds, flags, rand, pn, draws, n)[n := PerturbAt(prev, bounds, flags, n, draws[n])]
    ensures !(rand[n] < pn) ==>
      Partial(prev, bounds, flags, rand, pn, draws, n + 1) == Partial(prev, bounds, flags, rand, pn, draws, n)
  {
  }

  /** The loop over `i_param` that writes the copy of the previous sample in place. */
  method NeighbourhoodStep(prev: seq<real>, bounds: seq<ParamBound>, flags: seq<bool>, rand: seq<real>, pn: real,
                           draws: seq<Draw>, extra: Draw, pick: real) returns (r: Result<Proposal, Fault>)
    requires |flags| == |bounds| && |rand| == |bounds| && |draws| == |bounds|
    requires 0.0 <= pick < 1.0
    ensures r == Step(prev, bounds, flags, rand, pn, draws, extra, pick)
  {
    var zeroDim := |prev| == 1;
    var sample := new real[|prev|](i requires 0 <= i < |prev| => prev[i]);
    var count := 0;
    assert sample[..] == Partial(prev, bounds, flags, rand, pn, draws, 0);
    for i := 0 to |bounds|
      invariant count == SelectCount(rand[..i], pn)
      invariant count > 0 ==> !zeroDim
      invariant forall j :: 0 <= j < i && rand[j] < pn ==> j < |prev|
      invariant sample[..] == Partial(prev, bounds, flags, rand, pn, draws, i)
    {
      assert rand[..i + 1][..i] == rand[..i];
      PartialNext(prev, bounds, flags, rand, pn, draws, i);
      if rand[i] < pn {
        count := count + 1;
        if zeroDim {
          return Err(IndexError(ZeroDim));
        }
        if i >= |prev| {
          return Err(IndexError("index out of bounds"));
        }
        sample[i] := PerturbType(prev[i], bounds[i].lower, bounds[i].upper, flags[i], draws[i]);
      }
    }
    assert rand[..|bounds|] == rand;
    assert !SelectsMissing(prev, rand, pn);
    assert !zeroDim ==> Step(prev, bounds, flags, rand, pn, draws, extra, pick)
                        == Neighbour(prev, bounds, flags, rand, pn, draws, extra, pick);
    assert sample[..] == Partial(prev, bounds, flags, rand, pn, draws, |bounds|);
    if count == 0 {
      var k := FallbackIndex(|bounds|, pick);
      if zeroDim {
        return Err(IndexError(ZeroDim));
      }
      if |bounds| == 0 || k >= |prev| {
        return Err(IndexError("index out of bounds"));
      }
      FallbackIndexInRange(|bounds|, pick);
      sample[k] := PerturbType(prev[k], bounds[k].lower, bounds[k].upper, flags[k], extra);
    }
    r := Ok(Proposal(sample[..], count));
  }

  /**
   * Only perturbed variables change: an index whose value differs from the
   * previous sample was selected, or is the fallback index of a step that
   * selected none.
   */
  lemma StepChangesOnlyPerturbed(prev: seq<real>, bounds: seq<ParamBound>, flags: seq<bool>, rand: seq<real>, pn: real,
                                 draws: seq<Draw>, extra: Draw, pick: real, i: nat)
    requires |flags| == |bounds| && |rand| == |bounds| && |draws| == |bounds|
    requires 0.0 <= pick < 1.0
    requires Step(prev, bounds, flags, rand, pn, draws, extra, pick).Ok? && i < |prev|
    ensures var p := Step(prev, bounds, flags, rand, pn, draws, extra, pick).value;
      p.sample[i] != prev[i] ==>
        i < |bounds| && (rand[i] < pn || (p.count == 0 && i == FallbackIndex(|bounds|, pick)))
  {
    var p := Step(prev, bounds, flags, rand, pn, draws, extra, pick).value;
    var sample := Partial(prev, bounds, flags, rand, pn, draws, |bounds|);
    if p.count > 0 {
      assert p.sample == sample;
    } else {
      var k := FallbackIndex(|bounds|, pick);
      FallbackIndexInRange(|bounds|, pick);
      assert p.sample == sample[k := PerturbAt(prev, bounds, flags, k, extra)];
    }
  }

  /**
   * The step always passes at least one variable through `perturb_type`: a
   * selected one when the count is positive, the fallback one otherwise.
   */
  lemma StepPerturbsOne(prev: seq<real>, bounds: seq<ParamBound>, flags: seq<bool>, rand: seq<real>, pn: real,
                        draws: seq<Draw>, extra: Draw, pick: real)
    requires |flags| == |bounds| && |rand| == |bounds| && |draws| == |bounds|
    requires 0.0 <= pick < 1.0
    requires Step(prev, bounds, flags, rand, pn, draws, extra, pick).Ok?
    ensures |bounds| >= 1
    ensures var p := Step(prev, bounds, flags, rand, pn, draws, extra, pick).value;
      || (p.count > 0 && exists i :: 0 <= i < |bounds| && rand[i] < pn && p.sample[i] == PerturbAt(prev, bounds, flags, i, draws[i]))
      || (p.count == 0 && var k := FallbackIndex(|bounds|, pick);
          0 <= k < |bounds| && p.sample[k] == PerturbAt(prev, bounds, flags, k, extra))
  {
    var p := Step(prev, bounds, flags, rand, pn, draws, extra, pick).value;
    var sample := Partial(prev, bounds, flags, rand, pn, draws, |bounds|);
    if p.count > 0 {
      var i :| 0 <= i < |rand| && rand[i] < pn;
      assert p.sample == sample;
      assert p.sample[i] == PerturbAt(prev, bounds, flags, i, draws[i]);
    } else {
      FallbackIndexInRange(|bounds|, pick);
      var k := FallbackIndex(|bounds|, pick);
      assert p.sample == sample[k := PerturbAt(prev, bounds, flags, k, extra)];
    }
  }

  /** Read as a one-dimensional array, a previous sample covering the parameter set always steps. */
  lemma NeighbourSucceeds(prev: seq<real>, bounds: seq<ParamBound>, flags: seq<bool>, rand: seq<real>, pn: real,
                          draws: seq<Draw>, extra: Draw, pick: real)
    requires |flags| == |bounds| && |rand| == |bounds| && |draws| == |bounds|
    requires 0.0 <= pick < 1.0
    requires 1 <= |bounds| <= |prev|
    ensures Neighbour(prev, bounds, flags, rand, pn, draws, extra, pick).Ok?
  {
    FallbackIndexInRange(|bounds|, pick);
  }

  /**
   * As written, a previous sample covering the parameter set steps exactly
   * when it holds more than one value.
   */
  lemma StepSucceeds(prev: seq<real>, bounds: seq<ParamBound>, flags: seq<bool>, rand: seq<real>, pn: real,
                     draws: seq<Draw>, extra: Draw, pick: real)
    requires |flags| == |bounds| && |rand| == |bounds| && |draws| == |bounds|
    requires 0.0 <= pick < 1.0
    requires 1 <= |bounds| <= |prev|
    ensures Step(prev, bounds, flags, rand, pn, draws, extra, pick).Ok? <==> |prev| >= 2
  {
    if |prev| >= 2 {
      NeighbourSucceeds(prev, bounds, flags, rand, pn, draws, extra, pick);
    }
  }

  /**
   * A calibration of a single multiplier fails at every later iteration,
   * whatever the draws: its one-value parameter file reads as a 0-d array.
   */
  lemma OneParameterFails(x: real, b: ParamBound, flag: bool, r: real, pn: real, d: Draw, extra: Draw, pick: real)
    requires 0.0 <= pick < 1.0
    ensures Step([x], [b], [flag], [r], pn, [d], extra, pick) == Err(IndexError(ZeroDim))
    ensures Neighbour([x], [b], [flag], [r], pn, [d], extra, pick).Ok?
  {
    NeighbourSucceeds([x], [b], [flag], [r], pn, [d], extra, pick);
  }

  /** Lower bounds not above the upper ones, for every variable. */
  predicate Ordered(bounds: seq<ParamBound>) {
    forall i :: 0 <= i < |bounds| ==> bounds[i].lower <= bounds[i].upper
  }

  /**
   * With the continuous flags the script sets (`np.zeros(param_dim)`), a step
   * from a sample inside the bounds proposes a sample inside the bounds.
   */
  lemma StepStaysInBounds(prev: seq<real>, bounds: seq<ParamBound>, rand: seq<real>, pn: real,
                          draws: seq<Draw>, extra: Draw, pick: real)
    requires |rand| == |bounds| && |draws| == |bounds| && 0.0 <= pick < 1.0
    requires Ordered(bounds) && |prev| == |bounds|
    requires forall i :: 0 <= i < |prev| ==> bounds[i].lower <= prev[i] <= bounds[i].upper
    ensures var r := Step(prev, bounds, ContinuousFlags(|bounds|), rand, pn, draws, extra, pick);
      r.Ok? ==> forall i :: 0 <= i < |prev| ==> bounds[i].lower <= r.value.sample[i] <= bounds[i].upper
  {
  }

  /** `discrete_flags = np.zeros(param_dim)`: every variable continuous. */
  function ContinuousFlags(dim: nat): (r: seq<bool>)
    ensures |r| == dim && forall i :: 0 <= i < dim ==> !r[i]
  {
    seq(dim, i => false)
  }

  // -------------------------------------------------------------- initial sample

  /** The bounds file columns. */
  function Initials(bounds: seq<ParamBound>): (r: seq<real>)
    ensures |r| == |bounds| && forall i :: 0 <= i < |bounds| ==> r[i] == bounds[i].initial
  {
    seq(|bounds|, i requires 0 <= i < |bounds| => bounds[i].initial)
  }

  /** `lower + range * u` for each variable. */
  function UniformSample(bounds: seq<ParamBound>, u: seq<real>): (r: seq<real>)
    requires |u| == |bounds|
    ensures |r| == |bounds|
  {
    seq(|bounds|, i requires 0 <= i < |bounds| => bounds[i].lower + (bounds[i].upper - bounds[i].lower) * u[i])
  }

  lemma ScaleUnit(w: real, u: real)
    requires 0.0 <= w && 0.0 <= u < 1.0
    ensures 0.0 <= w * u <= w
  {
    assert w * (1.0 - u) >= 0.0;
  }

  /** A uniform sample lies within the bounds. */
  lemma UniformSampleInBounds(bounds: seq<ParamBound>, u: seq<real>)
    requires |u| == |bounds| && Ordered(bounds)
    requires forall i :: 0 <= i < |u| ==> 0.0 <= u[i] < 1.0
    ensures var r := UniformSample(bounds, u);
      forall i :: 0 <= i < |bounds| ==> bounds[i].lower <= r[i] <= bounds[i].upper
  {
    var r := UniformSample(bounds, u);
    forall i | 0 <= i < |bounds| ensures bounds[i].lower <= r[i] <= bounds[i].upper {
      var lo, w := bounds[i].lower, bounds[i].upper - bounds[i].lower;
      ScaleUnit(w, u[i]);
      assert r[i] == lo + w * u[i];
    }
  }

  /** `discrete_flags.all()`: every flag set (true for no flags at all). */
  predicate AllDiscrete(flags: seq<bool>) {
    forall i :: 0 <= i < |flags| ==> flags[i]
  }

  /**
   * The first iteration's sample: with `warm_start == 'yes'` and an existing
   * record, the parameters of the record's first row of least objective
   * (ValueError for an empty record); otherwise the bounds file's initial
   * values, or a uniform sample when some flag is continuous; the
   * all-discrete branch calls the misspelled `np.random.randit` and fails for
   * any variable; an unknown option leaves `param_sample` undefined.
   */
  function InitialSample(option: string, warm: string, record: Option<seq<Record>>, bounds: seq<ParamBound>,
                         flags: seq<bool>, u: seq<real>): (r: Result<seq<real>, Fault>)
    requires |flags| == |bounds| && |u| == |bounds|
    ensures warm == "yes" && record.Some? ==> (r.Ok? <==> |record.value| > 0)
    ensures warm == "yes" && record.Some? && |record.value| == 0 ==> r.Err? && r.error.ValueError?
    ensures !(warm == "yes" && record.Some?) && option == "UseInitialParamValues" ==> r == Ok(Initials(bounds))
    ensures !(warm == "yes" && record.Some?) && option == "UseRandomParamValues" && AllDiscrete(flags) && |bounds| > 0 ==>
      r.Err? && r.error.AttributeError?
    ensures !(warm == "yes" && record.Some?) && option != "UseInitialParamValues" && option != "UseRandomParamValues" ==>
      r.Err? && r.error.NameError?
  {
    if warm == "yes" && record.Some? then
      match FirstArgMin(Objectives(record.value))
      case None => Err(ValueError("attempt to get argmin of an empty sequence"))
      case Some(k) => Ok(record.value[k].params)
    else if option == "UseInitialParamValues" then Ok(Initials(bounds))
    else if option == "UseRandomParamValues" then
      if !AllDiscrete(flags) then Ok(UniformSample(bounds, u))
      else if |bounds| == 0 then Ok([])
      else Err(AttributeError("module 'numpy.random' has no attribute 'randit'"))
    else Err(NameError("param_sample"))
  }

  /** A warm start takes the parameters of a best record, and of the first one among equals. */
  lemma WarmStartIsBest(option: string, record: seq<Record>, bounds: seq<ParamBound>, flags: seq<bool>, u: seq<real>)
    requires |flags| == |bounds| && |u| == |bounds| && |record| > 0
    ensures var r := InitialSample(option, "yes", Some(record), bounds, flags, u);
      r.Ok? && exists k :: (0 <= k < |record| && r.value == record[k].params
                            && (forall j :: 0 <= j < |record| ==> record[k].obj <= record[j].obj)
                            && (forall j :: 0 <= j < k ==> record[k].obj < record[j].obj))
  {
    var k := FirstArgMin(Objectives(record)).value;
    assert forall j :: 0 <= j < |record| ==> Objectives(record)[j] == record[j].obj;
  }

  /** With the continuous flags, `UseRandomParamValues` draws a sample inside the bounds. */
  lemma RandomStartInBounds(warm: string, record: Option<seq<Record>>, bounds: seq<ParamBound>, u: seq<real>)
    requires |u| == |bounds| >= 1 && Ordered(bounds)
    requires forall i :: 0 <= i < |u| ==> 0.0 <= u[i] < 1.0
    requires !(warm == "yes" && record.Some?)
    ensures var r := InitialSample("UseRandomParamValues", warm, record, bounds, ContinuousFlags(|bounds|), u);
      r.Ok? && |r.value| == |bounds| && forall i :: 0 <= i < |bounds| ==> bounds[i].lower <= r.value[i] <= bounds[i].upper
  {
    assert !ContinuousFlags(|bounds|)[0];
    UniformSampleInBounds(bounds, u);
  }

  /**
   * One run of the generator: iteration 1 takes the initial sample; later
   * iterations step from the previous parameter file (`quit()` when it is
   * missing); an iteration index below 1 leaves `param_sample` undefined.
   */
  function Propose(iteration: int, option: string, warm: string, record: Option<seq<Record>>, bounds: seq<ParamBound>,
                   flags: seq<bool>, u: seq<real>, prev: Option<seq<real>>, rand: seq<real>, pn: real,
                   draws: seq<Draw>, extra: Draw, pick: real): (r: Result<seq<real>, Fault>)
    requires |flags| == |bounds| && |u| == |bounds| && |rand| == |bounds| && |draws| == |bounds|
    requires 0.0 <= pick < 1.0
    ensures iteration == 1 ==> r == InitialSample(option, warm, record, bounds, flags, u)
    ensures iteration > 1 && prev.None? ==> r.Err? && r.error.Exit?
    ensures iteration > 1 && prev.Some? ==>
      r == match Step(prev.value, bounds, flags, rand, pn, draws, extra, pick)
           case Ok(p) => Ok(p.sample)
           case Err(e) => Err(e)
    ensures iteration < 1 ==> r.Err? && r.error.NameError?
  {
    if iteration == 1 then InitialSample(option, warm, record, bounds, flags, u)
    else if iteration > 1 then
      match prev
      case None => Err(Exit("Param file does not exist"))
      case Some(p) =>
        match Step(p, bounds, flags, rand, pn, draws, extra, pick)
        case Ok(s) => Ok(s.sample)
        case Err(e) => Err(e)
    else Err(NameError("param_sample"))
  }
}
