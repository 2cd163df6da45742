/**
 When the search's pick exceeds the output maximum: never for requests up to 522193; for each
 parent clock whose grid exceeds the maximum, exactly from one request upwards; and by a formula
 for the parent clocks with one VCO frequency.
 */
module MmcmOutput {
  import opened MmcmReference
  import opened MmcmSearch
  import opened MmcmLimits

  /** An undivided pick is a VCO frequency of at most 1.532 f; a divided one at most half the VCO maximum. */
  lemma PickByDivider(freq: int, p: int, m: Mode)
    requires IsPick(freq, p, m)
    ensures m.clkdiv == 1 ==> VCO_MIN <= m.freq && 2000 * m.freq <= 3064 * Target(freq)
    ensures m.clkdiv >= 2 ==> m.freq <= VCO_MAX / 2
    ensures m.clkdiv >= 1
  {
    var f, w := Target(freq), p * m.fbmult / m.maindiv;
    GridLegal(p, m.maindiv, m.fbmult);
    VcoBand(p, m.maindiv, m.fbmult);
    FloorBounds(w, m.clkdiv);
    if m.clkdiv >= 2 {
      MulLe(2, m.clkdiv, m.freq);
    } else {
      VcoError(f, p, m.maindiv, m.fbmult);
      MulLe(2000 * RawClkDiv(f, p, m.maindiv, m.fbmult) + 1064, 3064, f);
    }
  }

  /** Low requests: the pick stays within the output maximum; below 391645 it is even divided. */
  lemma LowRequests(freq: int, p: int, m: Mode)
    requires IsPick(freq, p, m)
    ensures freq <= 522193 ==> m.freq <= OUT_MAX
    ensures freq <= 391644 ==> m.clkdiv >= 2 && m.freq <= VCO_MAX / 2
  {
    PickByDivider(freq, p, m);
  }

  // ---------------------------------------------------------------- parents with one VCO frequency

  /** The only feedback ratio F / D the grid of such a parent has. */
  function OnlyRatio(p: int): int {
    if p > VCO_MIN then 1 else 2
  }

  /** Above 400 MHz, save 600 MHz itself, the F bounds leave one ratio. */
  predicate OneRatio(p: int) {
    400000 < p <= VCO_MAX && p != VCO_MIN
  }

  lemma OneRatioGrid(p: int, d: int, fb: int)
    requires OneRatio(p)
    ensures InGrid(p, d, fb) <==> FirstDiv(p) <= d <= LastDiv(p) && fb == d * OnlyRatio(p) <= FB_MAX
    ensures InGrid(p, d, fb) ==> p * fb / d == p * OnlyRatio(p)
  {
    var r := OnlyRatio(p);
    FloorUnique(VCO_MAX, p, r, VCO_MAX - p * r);
    FloorUnique(VCO_MIN + p - 1, p, r, VCO_MIN + p - 1 - p * r);
    if InGrid(p, d, fb) {
      FloorUnique(p * fb, d, p * r, 0);
    }
  }

  /** The output divider is one at every grid point if the VCO frequency is below 1.47 f. */
  lemma UndividedBelow(f: int, p: int, d: int)
    requires OneRatio(p) && OUT_MIN <= f <= OUT_MAX && FirstDiv(p) <= d && d * OnlyRatio(p) <= FB_MAX
    requires 100 * (p * OnlyRatio(p)) < 147 * f
    ensures d * f > 0 && RawClkDiv(f, p, d, d * OnlyRatio(p)) <= 1
  {
    Positive(d, f);
    var r, mult := OnlyRatio(p), Multiplier(f, p, d);
    RoundDiv(p * 1000, d * f);
    UndividedArith(f, p * 1000, d * f, r, mult, d * r);
    NoSuchMultiple(mult, d * r);
  }

  lemma UndividedArith(f: int, a: int, v: int, r: int, mult: int, fb: int)
    requires f > 0 && 1 <= r <= 2 && 2 * (mult * v - a) <= v && r * v == fb * f && r * a < 1470 * f
    ensures 2 * (mult * fb) - fb < 2940
  {
    assert r * (mult * v) == mult * (r * v);
    assert mult * (fb * f) == (mult * fb) * f;
    assert (2 * (mult * fb) - fb) * f < 2940 * f;
    if 2 * (mult * fb) - fb >= 2940 {
      MulLe(2940, 2 * (mult * fb) - fb, f);
      assert false;
    }
  }

  /** No F from 61 to 64 has a multiple in the gap the rounding leaves. */
  lemma NoSuchMultiple(mult: int, fb: int)
    requires fb <= FB_MAX && 2 * (mult * fb) - fb < 2940
    ensures mult * fb < 1500
  {
  }

  lemma QuotientAtLeast(n: int, v: int, k: int)
    requires v > 0 && n >= k * v
    ensures n / v >= k
  {
    assert n == v * (n / v) + n % v;
    if n / v < k {
      MulLe(n / v, k - 1, v);
    }
  }

  /** From 1.47 f on, the point with F = 60 has an output divider of two or more. */
  lemma DividedAbove(f: int, p: int)
    requires OneRatio(p) && p * OnlyRatio(p) > OUT_MAX && OUT_MIN <= f <= OUT_MAX
    requires 100 * (p * OnlyRatio(p)) >= 147 * f
    ensures var d := 60 / OnlyRatio(p); InGrid(p, d, 60) && d > 0 && ClkDiv(f, p, d, 60) >= 2
  {
    var d := 60 / OnlyRatio(p);
    OneRatioGrid(p, d, 60);
    QuotientAtLeast(p * 1000 + d * f / 2, d * f, 25);
  }

  /**
   The exact condition for these parents: the pick exceeds the output maximum if and only if the
   one VCO frequency does and is below 1.47 times the clamped request.
   */
  lemma HighPickIff(freq: int, p: int, m: Mode)
    requires OneRatio(p) && IsPick(freq, p, m)
    ensures var w := p * OnlyRatio(p); m.freq > OUT_MAX <==> w > OUT_MAX && 100 * w < 147 * Target(freq)
    ensures m.freq > OUT_MAX ==> m.freq == p * OnlyRatio(p)
  {
    var f, w := Target(freq), p * OnlyRatio(p);
    OneRatioGrid(p, m.maindiv, m.fbmult);
    VcoError(f, p, m.maindiv, m.fbmult);
    ClampLowNeverFires(freq, p, m.maindiv, m.fbmult);
    FloorBounds(w, m.clkdiv);
    if 100 * w < 147 * f {
      UndividedBelow(f, p, m.maindiv);
    } else if w > OUT_MAX {
      DividedAbove(f, p);
      DividedIsNearer(freq, p, m);
    } else {
      MulLe(1, m.clkdiv, m.freq);
    }
  }

  lemma DividedIsNearer(freq: int, p: int, m: Mode)
    requires OneRatio(p) && IsPick(freq, p, m) && p * OnlyRatio(p) > OUT_MAX
    requires 100 * (p * OnlyRatio(p)) >= 147 * Target(freq)
    ensures m.freq <= OUT_MAX
  {
    PickByDivider(freq, p, m);
    DividedAbove(Target(freq), p);
    assert Beats(Target(freq), p, m, 60 / OnlyRatio(p), 60);
    if m.freq > OUT_MAX {
      OneRatioGrid(p, m.maindiv, m.fbmult);
      DividedCandidate(freq, p);
    }
  }

  lemma DividedCandidate(freq: int, p: int)
    requires OneRatio(p) && p * OnlyRatio(p) > OUT_MAX
    requires 100 * (p * OnlyRatio(p)) >= 147 * Target(freq)
    requires 2000 * (p * OnlyRatio(p)) <= 3064 * Target(freq)
    ensures var f, d := Target(freq), 60 / OnlyRatio(p);
            InGrid(p, d, 60) && d > 0 && Err(f, Candidate(f, p, d, 60)) < p * OnlyRatio(p) - f
  {
    var f, w, d := Target(freq), p * OnlyRatio(p), 60 / OnlyRatio(p);
    DividedAbove(f, p);
    OneRatioGrid(p, d, 60);
    VcoError(f, p, d, 60);
    TwoIsNearer(f, w, RawClkDiv(f, p, d, 60));
  }

  /** Between 1.47 f and 1.532 f half the VCO frequency is nearer to the target than all of it. */
  lemma TwoIsNearer(f: int, w: int, raw: int)
    requires OUT_MIN <= f && w > OUT_MAX && 100 * w >= 147 * f && 2000 * w <= 3064 * f
    requires raw >= 2 && (2000 * raw - 1064) * f < 2000 * (w + 1)
    ensures raw == 2 && f - w / 2 < w - f && w / 2 - f < w - f
  {
    if raw >= 3 {
      MulLe(4936, 2000 * raw - 1064, f);
      assert false;
    }
  }

  // ---------------------------------------------------------------- the condition on the grid

  /** The VCO frequency of a pair, in whole kHz. */
  function Vco(p: int, d: int, fb: int): int
    requires d > 0
  {
    p * fb / d
  }

  /**
   Some visited VCO frequency above the output maximum is nearer to it than every visited one that
   is not, or as near and first.
   */
  ghost predicate NearestIsAbove(p: int) {
    exists d, fb :: InGrid(p, d, fb) && Vco(p, d, fb) > OUT_MAX && BeatsAllBelow(p, d, fb)
  }

  ghost predicate BeatsAllBelow(p: int, d: int, fb: int)
    requires d > 0
  {
    forall d', fb' :: InGrid(p, d', fb') && Vco(p, d', fb') <= OUT_MAX ==>
      var above, below := Vco(p, d, fb) - OUT_MAX, OUT_MAX - Vco(p, d', fb');
      above < below || (above == below && Before(d, fb, d', fb'))
  }

  /** Told from the grid alone: whether the pick for the output maximum exceeds it. */
  ghost predicate GridExceeds(p: int) {
    if OneRatio(p) then var w := p * OnlyRatio(p); w > OUT_MAX && 100 * w < 147 * OUT_MAX
    else NearestIsAbove(p)
  }

  /** `g` is the least visited VCO frequency above the output maximum. */
  ghost predicate LeastHigh(p: int, g: int) {
    && g > OUT_MAX
    && (exists d, fb :: InGrid(p, d, fb) && Vco(p, d, fb) == g)
    && (forall d, fb :: InGrid(p, d, fb) && Vco(p, d, fb) > OUT_MAX ==> g <= Vco(p, d, fb))
  }

  /** At the maximum, VCO frequencies up to 1174000 are not divided, and divided ones give at most 600000. */
  lemma AtMaximum(p: int, d: int, fb: int)
    requires InGrid(p, d, fb)
    ensures d > 0
    ensures var w, m := Vco(p, d, fb), Candidate(OUT_MAX, p, d, fb);
            && VCO_MIN <= w <= VCO_MAX
            && (m.clkdiv == 1 ==> m.freq == w) && (m.clkdiv >= 2 ==> m.freq <= VCO_MAX / 2)
            && m.clkdiv >= 1 && (w <= 1174000 ==> m.clkdiv == 1)
  {
    GridLegal(p, d, fb);
    VcoBand(p, d, fb);
    VcoError(OUT_MAX, p, d, fb);
    var w, c := Vco(p, d, fb), ClkDiv(OUT_MAX, p, d, fb);
    FloorBounds(w, c);
    if c >= 2 {
      MulLe(2, c, w / c);
    }
  }

  /** Parents with more than one ratio first visit a VCO frequency of at most 900000. */
  lemma FirstVisited(p: int)
    requires Feasible(p) && !OneRatio(p)
    ensures var d, fb := FirstDiv(p), MinFb(p, FirstDiv(p));
            && InGrid(p, d, fb) && Vco(p, d, fb) <= 900000
            && forall d', fb' :: InGrid(p, d', fb') ==> !Before(d', fb', d, fb)
  {
    var u := (VCO_MIN + p - 1) / p;
    GridNonempty(p);
    VcoQuotients(p);
    SmallFirst(p, u);
    if p == VCO_MIN {
      assert MinFb(p, 2) == 2;
    } else {
      assert MinFb(p, 1) == u;
    }
  }

  lemma SmallFirst(p: int, u: int)
    requires PFD_MIN <= p <= 400000 || p == VCO_MIN
    requires VCO_MIN <= p * u < VCO_MIN + p && u >= 1
    ensures p * u <= 900000 && (p <= 400000 ==> u >= 2) && (p == VCO_MIN ==> u == 1)
  {
    if p > 300000 && u >= 3 {
      MulLe(3, u, p);
      assert false;
    }
  }

  /** The pick for the maximum is within 200000 of it. */
  lemma TopPickNear(p: int, m: Mode)
    requires !OneRatio(p) && IsPick(OUT_MAX, p, m)
    ensures Err(OUT_MAX, m) <= 200000
  {
    GridLegal(p, m.maindiv, m.fbmult);
    FirstVisited(p);
    AtMaximum(p, FirstDiv(p), MinFb(p, FirstDiv(p)));
    assert Beats(OUT_MAX, p, m, FirstDiv(p), MinFb(p, FirstDiv(p)));
  }

  lemma HighPickBeatsBelow(p: int, m: Mode)
    requires !OneRatio(p) && IsPick(OUT_MAX, p, m) && m.freq > OUT_MAX
    ensures NearestIsAbove(p) && LeastHigh(p, m.freq)
  {
    var d, fb := m.maindiv, m.fbmult;
    GridLegal(p, d, fb);
    AtMaximum(p, d, fb);
    TopPickNear(p, m);
    forall d', fb' | InGrid(p, d', fb')
      ensures d' > 0
      ensures Vco(p, d', fb') <= OUT_MAX ==>
                var above, below := m.freq - OUT_MAX, OUT_MAX - Vco(p, d', fb');
                above < below || (above == below && Before(d, fb, d', fb'))
      ensures Vco(p, d', fb') > OUT_MAX ==> m.freq <= Vco(p, d', fb')
    {
      AtMaximum(p, d', fb');
      assert Beats(OUT_MAX, p, m, d', fb');
    }
    assert Vco(p, d, fb) == m.freq && BeatsAllBelow(p, d, fb);
  }

  lemma NearestAbovePicked(p: int, m: Mode)
    requires !OneRatio(p) && IsPick(OUT_MAX, p, m) && NearestIsAbove(p)
    ensures m.freq > OUT_MAX
  {
    var d, fb :| InGrid(p, d, fb) && Vco(p, d, fb) > OUT_MAX && BeatsAllBelow(p, d, fb);
    GridLegal(p, m.maindiv, m.fbmult);
    AtMaximum(p, d, fb);
    AtMaximum(p, m.maindiv, m.fbmult);
    FirstVisited(p);
    AtMaximum(p, FirstDiv(p), MinFb(p, FirstDiv(p)));
    TopPickNear(p, m);
    assert Beats(OUT_MAX, p, m, d, fb);
    assert Beats(OUT_MAX, p, m, FirstDiv(p), MinFb(p, FirstDiv(p)));
  }

  /** The exact condition for every parent clock, read off its grid. */
  lemma GridExceedsIff(p: int)
    requires Feasible(p)
    ensures Rounded(OUT_MAX, p) > OUT_MAX <==> GridExceeds(p)
  {
    var m := Best(OUT_MAX, p);
    if OneRatio(p) {
      HighPickIff(OUT_MAX, p, m);
    } else if m.freq > OUT_MAX {
      HighPickBeatsBelow(p, m);
    } else if NearestIsAbove(p) {
      NearestAbovePicked(p, m);
    }
  }

  /** Then the pick is the least visited VCO frequency above the maximum. */
  lemma HighIsLeast(p: int)
    requires Feasible(p) && GridExceeds(p)
    ensures LeastHigh(p, Rounded(OUT_MAX, p))
  {
    var m := Best(OUT_MAX, p);
    GridExceedsIff(p);
    if OneRatio(p) {
      HighPickIff(OUT_MAX, p, m);
      OneRatioLeast(p, m.maindiv, m.fbmult);
    } else {
      HighPickBeatsBelow(p, m);
    }
  }

  lemma OneRatioLeast(p: int, d: int, fb: int)
    requires OneRatio(p) && InGrid(p, d, fb) && p * OnlyRatio(p) > OUT_MAX
    ensures LeastHigh(p, p * OnlyRatio(p))
  {
    OneRatioGrid(p, d, fb);
    forall d', fb' | InGrid(p, d', fb')
      ensures Vco(p, d', fb') == p * OnlyRatio(p)
    {
      OneRatioGrid(p, d', fb');
    }
    assert Vco(p, d, fb) == p * OnlyRatio(p);
  }

  // ---------------------------------------------------------------- all requests of a parent clock

  /**
   A parent clock keeps every pick within the output maximum if and only if its grid does not
   exceed the maximum: it shows at the largest request.
   */
  lemma SafeParentIff(p: int)
    requires Feasible(p)
    ensures (forall freq, m :: IsPick(freq, p, m) ==> m.freq <= OUT_MAX) <==> !GridExceeds(p)
  {
    GridExceedsIff(p);
    var top := Best(OUT_MAX, p);
    forall freq, m | IsPick(freq, p, m) && m.freq > OUT_MAX
      ensures top.freq > OUT_MAX
    {
      HighPickPersists(freq, OUT_MAX, p, m, top);
    }
  }

  /** So a parent clock from which the output maximum itself can be produced is safe. */
  lemma SafeWhenMaximumProduced(freq: int, p: int, m: Mode)
    requires IsPick(freq, p, m) && Produces(p, OUT_MAX)
    ensures m.freq <= OUT_MAX
  {
    GridLegal(p, m.maindiv, m.fbmult);
    FixedPoint(OUT_MAX, p);
    GridExceedsIff(p);
    SafeParentIff(p);
  }

  /**
   For every other parent clock there is one threshold: exactly the requests from it upwards get a
   pick above the output maximum, and all of them the least visited VCO frequency above it.
   */
  lemma HighThreshold(p: int) returns (t: int)
    requires Feasible(p) && GridExceeds(p)
    ensures 522193 < t <= OUT_MAX
    ensures forall freq :: Rounded(freq, p) > OUT_MAX <==> freq >= t
    ensures forall freq :: freq >= t ==> LeastHigh(p, Rounded(freq, p))
  {
    GridExceedsIff(p);
    HighIsLeast(p);
    t := ThresholdBelow(p, OUT_MAX);
    forall freq
      ensures Rounded(freq, p) > OUT_MAX <==> freq >= t
      ensures freq >= t ==> LeastHigh(p, Rounded(freq, p))
    {
      BesideThreshold(p, t, freq);
    }
  }

  lemma BesideThreshold(p: int, t: int, freq: int)
    requires Feasible(p) && t <= OUT_MAX && Rounded(t, p) > OUT_MAX && Rounded(t - 1, p) <= OUT_MAX
    ensures Rounded(freq, p) > OUT_MAX <==> freq >= t
    ensures freq >= t ==> Rounded(freq, p) == Rounded(OUT_MAX, p)
  {
    if freq >= t {
      HighPickPersists(t, freq, p, Best(t, p), Best(freq, p));
      HighPickPersists(t, OUT_MAX, p, Best(t, p), Best(OUT_MAX, p));
    } else if Rounded(freq, p) > OUT_MAX {
      HighPickPersists(freq, t - 1, p, Best(freq, p), Best(t - 1, p));
    }
  }

  /** Going down from a high request to the last one below which the pick is not high. */
  lemma {:induction false} ThresholdBelow(p: int, high: int) returns (t: int)
    requires Feasible(p) && high <= OUT_MAX && Rounded(high, p) > OUT_MAX
    ensures 522193 < t <= high && Rounded(t, p) > OUT_MAX && Rounded(t - 1, p) <= OUT_MAX
    decreases high - 522193
  {
    LowRequests(high, p, Best(high, p));
    LowRequests(high - 1, p, Best(high - 1, p));
    if Rounded(high - 1, p) > OUT_MAX {
      t := ThresholdBelow(p, high - 1);
    } else {
      t := high;
    }
  }
}
