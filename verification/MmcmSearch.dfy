/**
 The MMCM mode search: which (main divider, feedback multiplier, output divider) triple the
 clock driver programs for a wanted frequency. All frequencies are in KHz and already carry
 the factor five of the BUFR. This module is over the unbounded integers; `FindMode` runs
 the search in wrapping 32-bit arithmetic and is proved to return the same pick.
 */
module MmcmSearch {
  import opened MmcmReference

  const VCO_MIN := 600000
  const VCO_MAX := 1200000
  const PFD_MIN := 10000
  const PFD_MAX := 450000
  const OUT_MIN := 4000
  const OUT_MAX := 800000
  const DIV_MAX := 106
  const FB_MIN := 2
  const FB_MAX := 64
  const CLKDIV_MAX := 128
  const CLKDIV_MIN := 1

  function AtLeast(x: int, lo: int): int {
    if x < lo then lo else x
  }

  function AtMost(x: int, hi: int): int {
    if x > hi then hi else x
  }

  function Clamp(x: int, lo: int, hi: int): int {
    if x < lo then lo else if x > hi then hi else x
  }

  /** The wanted frequency after clamping into the output range. */
  function Target(freq: int): (f: int)
    ensures OUT_MIN <= f <= OUT_MAX
  {
    Clamp(freq, OUT_MIN, OUT_MAX)
  }

  function FirstDiv(p: int): int {
    if p > PFD_MAX then 2 else 1
  }

  function LastDiv(p: int): int {
    AtMost(p / PFD_MIN, DIV_MAX)
  }

  function MinFb(p: int, d: int): int
    requires p > 0
  {
    AtLeast(d * ((VCO_MIN + p - 1) / p), FB_MIN)
  }

  function MaxFb(p: int, d: int): int
    requires p > 0
  {
    AtMost(d * (VCO_MAX / p), FB_MAX)
  }

  /** The (D, F) pairs the two loops visit when no early exit is taken. */
  predicate InGrid(p: int, d: int, fb: int) {
    && p > 0
    && FirstDiv(p) <= d <= LastDiv(p)
    && MinFb(p, d) <= fb <= MaxFb(p, d)
  }

  /** The fixed-point ratio 1000 * P / (D * f), rounded to nearest. */
  function Multiplier(f: int, p: int, d: int): int
    requires d * f > 0
  {
    (p * 1000 + d * f / 2) / (d * f)
  }

  /** The output divider before clamping. */
  function RawClkDiv(f: int, p: int, d: int, fb: int): int
    requires d * f > 0
  {
    (Multiplier(f, p, d) * fb + 500) / 1000
  }

  function ClkDiv(f: int, p: int, d: int, fb: int): (c: int)
    requires d * f > 0
    ensures CLKDIV_MIN <= c <= CLKDIV_MAX
  {
    Clamp(RawClkDiv(f, p, d, fb), CLKDIV_MIN, CLKDIV_MAX)
  }

  /** The output frequency, as the code's two nested truncating divisions. */
  function OutFreq(p: int, d: int, fb: int, c: int): int
    requires d > 0 && c > 0
  {
    p * fb / d / c
  }

  function Candidate(f: int, p: int, d: int, fb: int): Mode
    requires f > 0 && d > 0
  {
    Positive(d, f);
    var c := ClkDiv(f, p, d, fb);
    Mode(OutFreq(p, d, fb, c), fb, c, d)
  }

  function Err(f: int, m: Mode): nat {
    Distance(f, m.freq)
  }

  /** Lexicographic order: main divider first, then feedback multiplier. */
  predicate Before(d: int, fb: int, d': int, fb': int) {
    d < d' || (d == d' && fb < fb')
  }

  /** `m` is at least as close to `f` as the candidate at (d, fb), and closer if it comes later. */
  predicate Beats(f: int, p: int, m: Mode, d: int, fb: int)
    requires f > 0 && d > 0
  {
    var e := Err(f, Candidate(f, p, d, fb));
    Err(f, m) <= e && (Before(d, fb, m.maindiv, m.fbmult) ==> Err(f, m) < e)
  }

  /** `m` is a grid candidate, its error is minimal, and it is the first one with that error. */
  ghost predicate IsPick(freq: int, p: int, m: Mode) {
    var f := Target(freq);
    && InGrid(p, m.maindiv, m.fbmult)
    && m == Candidate(f, p, m.maindiv, m.fbmult)
    && forall d, fb :: InGrid(p, d, fb) ==> Beats(f, p, m, d, fb)
  }

  predicate Feasible(p: int) {
    10000 <= p <= 1200000
  }

  // ---------------------------------------------------------------- arithmetic

  lemma Positive(a: int, b: int)
    requires a > 0 && b > 0
    ensures a * b > 0
  {
  }

  lemma MulLe(a: int, b: int, c: int)
    requires a <= b && c >= 0
    ensures a * c <= b * c
  {
  }

  /** Rounding division is off by at most half the divisor. */
  lemma RoundDiv(a: int, v: int)
    requires v > 0
    ensures var m := (a + v / 2) / v; -v <= 2 * (m * v - a) <= v
  {
  }

  /** Two nested floor divisions are one: the output frequency is exactly floor(P*F / (D*c)). */
  lemma NestedFloor(x: int, d: int, c: int)
    requires x >= 0 && d > 0 && c > 0
    ensures d * c > 0
    ensures x / d / c == x / (d * c)
  {
    Positive(d, c);
    var w := x / d;
    var g := w / c;
    var r, s := x % d, w % c;
    assert x == d * w + r && w == c * g + s;
    assert x == (d * c) * g + (d * s + r) by {
      assert d * (c * g + s) == (d * c) * g + d * s;
    }
    MulLe(s, c - 1, d);
    assert 0 <= d * s + r < d * c;
    FloorUnique(x, d * c, g, d * s + r);
  }

  lemma FloorUnique(x: int, n: int, q: int, r: int)
    requires n > 0 && 0 <= r < n && x == n * q + r
    ensures x / n == q
  {
    var q' := x / n;
    var r' := x % n;
    assert n * (q - q') == r' - r && n * (q' - q) == r - r';
    if q > q' {
      MulLe(1, q - q', n);
    } else if q < q' {
      MulLe(1, q' - q, n);
    }
  }

  // ---------------------------------------------------------------- the grid

  /** The two quotients the F range is built from, as multiplication bounds. */
  lemma VcoQuotients(p: int)
    requires p > 0
    ensures var q, u := VCO_MAX / p, (VCO_MIN + p - 1) / p;
            p * q <= VCO_MAX < p * q + p && VCO_MIN <= p * u < VCO_MIN + p && q >= 0 && u >= 1
  {
  }

  lemma ScaleBand(p: int, d: int, fb: int, u: int, q: int)
    requires p > 0 && d >= 0 && d * u <= fb <= d * q
    requires VCO_MIN <= p * u && p * q <= VCO_MAX
    ensures VCO_MIN * d <= p * fb <= VCO_MAX * d
  {
  }

  /**
   What every visited (D, F) guarantees to the hardware. The upper limit of the phase detector is
   kept for parent clocks up to twice that limit; above, the code still tries D = 2.
   */
  lemma GridLegal(p: int, d: int, fb: int)
    requires InGrid(p, d, fb)
    ensures Feasible(p)
    ensures 600000 * d <= p * fb <= 1200000 * d
    ensures 2 <= fb <= 64 && 1 <= d <= 106
    ensures 10000 * d <= p && (p <= 900000 ==> p <= 450000 * d)
  {
    var q, u := VCO_MAX / p, (VCO_MIN + p - 1) / p;
    VcoQuotients(p);
    assert q == 0 ==> d * q == 0;
    MulLe(1, q, p);
    ScaleBand(p, d, fb, u, q);
  }

  /** Whenever the parent clock is in range, the first divider tried has a nonempty F range. */
  lemma GridNonempty(p: int)
    requires Feasible(p)
    ensures InGrid(p, FirstDiv(p), MinFb(p, FirstDiv(p)))
  {
    var q, u := VCO_MAX / p, (VCO_MIN + p - 1) / p;
    VcoQuotients(p);
    NonemptyArith(p, q, u);
    assert FirstDiv(p) <= LastDiv(p);
    if p > PFD_MAX {
      assert MinFb(p, 2) == 2 * u;
    } else {
      assert MinFb(p, 1) == u;
    }
  }

  lemma NonemptyArith(p: int, q: int, u: int)
    requires Feasible(p) && q >= 0 && u >= 1
    requires p * q <= VCO_MAX < p * q + p && VCO_MIN <= p * u < VCO_MIN + p
    ensures u <= 60 && u <= q && (p > PFD_MAX ==> u <= 2) && (p <= PFD_MAX ==> u >= 2)
  {
    if u >= 61 {
      MulLe(61, u, p);
      assert false;
    }
    if p > PFD_MAX && u >= 3 {
      MulLe(3, u, p);
      assert false;
    }
    if u > q {
      MulLe(q + 1, u, p);
      if q >= 1 {
        MulLe(1, q, p);
      }
      assert false;
    }
  }

  // ---------------------------------------------------------------- the fixed-point divider

  /** The exact error of the divider heuristic, before clamping. */
  lemma {:induction false} DividerError(f: int, p: int, d: int, fb: int)
    requires f > 0 && d > 0 && fb >= 0
    ensures d * f > 0
    ensures var v := d * f; var c := RawClkDiv(f, p, d, fb);
            -(v * (1000 + fb)) <= 2000 * (c * v - p * fb) <= v * (1000 + fb)
  {
    Positive(d, f);
    var m, c := Multiplier(f, p, d), RawClkDiv(f, p, d, fb);
    RoundDiv(p * 1000, d * f);
    DividerErrorArith(d * f, p, fb, m, c, m * fb);
  }

  lemma DividerErrorArith(v: int, p: int, fb: int, m: int, c: int, mfb: int)
    requires v > 0 && fb >= 0 && mfb == m * fb
    requires -500 <= 1000 * c - mfb <= 500 && -v <= 2 * (m * v - 1000 * p) <= v
    ensures -(v * (1000 + fb)) <= 2000 * (c * v - p * fb) <= v * (1000 + fb)
  {
    var a, b := 1000 * c - mfb, m * v - 1000 * p;
    MulLe(2 * a, 1000, v);
    MulLe(-1000, 2 * a, v);
    MulLe(2 * b, v, fb);
    MulLe(-v, 2 * b, fb);
    assert v * (1000 + fb) == 1000 * v + v * fb;
    assert (2 * a) * v == 2000 * (c * v) - 2 * (mfb * v);
    assert (2 * b) * fb == 2 * ((m * v) * fb) - 2000 * (p * fb);
    assert (m * v) * fb == mfb * v;
  }

  lemma CancelLt(a: int, b: int, c: int)
    requires c > 0 && c * a < c * b
    ensures a < b
  {
  }

  /** The same bound against the VCO frequency w = floor(P*F/D), free of the main divider. */
  lemma VcoError(f: int, p: int, d: int, fb: int)
    requires f > 0 && d > 0 && 0 <= fb <= FB_MAX && p >= 0
    ensures d * f > 0
    ensures var c := RawClkDiv(f, p, d, fb); var w := p * fb / d;
            (2000 * c - 1064) * f < 2000 * (w + 1) && 2000 * w <= (2000 * c + 1064) * f
  {
    DividerError(f, p, d, fb);
    MulLe(1000 + fb, 1064, d * f);
    var x := p * fb;
    assert x == d * (x / d) + x % d;
    VcoErrorArith(f, d, x, x / d, RawClkDiv(f, p, d, fb));
  }

  lemma VcoErrorArith(f: int, d: int, x: int, w: int, c: int)
    requires d > 0 && d * w <= x < d * w + d
    requires -1064 * (d * f) <= 2000 * (c * (d * f) - x) <= 1064 * (d * f)
    ensures (2000 * c - 1064) * f < 2000 * (w + 1) && 2000 * w <= (2000 * c + 1064) * f
  {
    Scaled(f, d, c, -1064);
    Scaled(f, d, c, 1064);
    assert d * (2000 * (w + 1)) == 2000 * (d * w + d) && d * (2000 * w) == 2000 * (d * w);
    CancelLt((2000 * c - 1064) * f, 2000 * (w + 1), d);
    Raised(d, (2000 * c + 1064) * f);
    CancelLt(2000 * w, (2000 * c + 1064) * f + 1, d);
  }

  lemma Scaled(f: int, d: int, c: int, k: int)
    ensures d * ((2000 * c + k) * f) == 2000 * (c * (d * f)) + k * (d * f)
  {
    assert (2000 * c + k) * f == 2000 * (c * f) + k * f;
    assert d * (c * f) == c * (d * f) && d * (k * f) == k * (d * f);
    assert d * (2000 * (c * f) + k * f) == 2000 * (d * (c * f)) + d * (k * f);
  }

  lemma Raised(d: int, n: int)
    ensures d * (n + 1) == d * n + d
  {
  }

  /** The VCO frequency of a grid point, floored, lies in the legal band. */
  lemma VcoBand(p: int, d: int, fb: int)
    requires InGrid(p, d, fb)
    ensures d > 0 && VCO_MIN <= p * fb / d <= VCO_MAX
  {
    GridLegal(p, d, fb);
    BandFloor(p, d, fb);
  }

  lemma BandFloor(p: int, d: int, fb: int)
    requires d > 0 && VCO_MIN * d <= p * fb <= VCO_MAX * d
    ensures VCO_MIN <= p * fb / d <= VCO_MAX
  {
    var x := p * fb;
    var w := x / d;
    assert x == d * w + x % d;
    if w < VCO_MIN {
      MulLe(w, VCO_MIN - 1, d);
    }
    if w > VCO_MAX {
      MulLe(VCO_MAX + 1, w, d);
    }
  }

  lemma FloorBounds(w: int, c: int)
    requires c > 0 && w >= 0
    ensures c * (w / c) <= w < c * (w / c) + c
  {
  }

  /** The lower clamp on the output divider never fires. */
  lemma ClampLowNeverFires(freq: int, p: int, d: int, fb: int)
    requires InGrid(p, d, fb)
    ensures d * Target(freq) > 0 && RawClkDiv(Target(freq), p, d, fb) >= CLKDIV_MIN
  {
    GridLegal(p, d, fb);
    VcoBand(p, d, fb);
    RawAtLeastOne(Target(freq), p, d, fb);
  }

  lemma RawAtLeastOne(f: int, p: int, d: int, fb: int)
    requires 0 < f <= OUT_MAX && p >= 0 && d > 0 && 0 <= fb <= FB_MAX && p * fb / d >= VCO_MIN
    ensures d * f > 0 && RawClkDiv(f, p, d, fb) >= CLKDIV_MIN
  {
    VcoError(f, p, d, fb);
    var c := RawClkDiv(f, p, d, fb);
    if c <= 0 {
      MulLe(2000 * c + 1064, 1064, f);
      assert false;
    }
  }

  /** Every candidate is nonzero, above the output minimum, and closer than the initial best error. */
  lemma CandidateError(freq: int, p: int, d: int, fb: int)
    requires InGrid(p, d, fb)
    ensures d > 0
    ensures var m := Candidate(Target(freq), p, d, fb);
            m.freq > 4000 && Err(Target(freq), m) < 800000
  {
    var f := Target(freq);
    GridLegal(p, d, fb);
    VcoBand(p, d, fb);
    VcoError(f, p, d, fb);
    ClampLowNeverFires(freq, p, d, fb);
    var w, c := p * fb / d, ClkDiv(f, p, d, fb);
    FloorBounds(w, c);
    CandidateErrorArith(f, w, c, w / c);
  }

  lemma CandidateErrorArith(f: int, w: int, c: int, g: int)
    requires OUT_MIN <= f <= OUT_MAX && VCO_MIN <= w <= VCO_MAX && 1 <= c <= CLKDIV_MAX
    requires c * g <= w < c * g + c
    requires 2000 * w <= (2000 * c + 1064) * f || c == CLKDIV_MAX
    ensures OUT_MIN < g < f + OUT_MAX
  {
    assert (g + 1) * c == c * g + c;
    assert (f + OUT_MAX) * c == c * f + OUT_MAX * c;
    assert (2000 * c + 1064) * f == 2000 * (c * f) + 1064 * f;
    if g <= OUT_MIN {
      MulLe(g + 1, 4001, c);
      assert false;
    }
    if g >= f + OUT_MAX {
      MulLe(f + OUT_MAX, g, c);
      assert false;
    }
  }

  // ---------------------------------------------------------------- uniqueness and idempotence

  /** The pick is a function of the request: mode, dividers and frequency. */
  lemma PickUnique(freq: int, p: int, m: Mode, m': Mode)
    requires IsPick(freq, p, m) && IsPick(freq, p, m')
    ensures m == m'
  {
    var f := Target(freq);
    assert Beats(f, p, m, m'.maindiv, m'.fbmult);
    assert Beats(f, p, m', m.maindiv, m.fbmult);
  }

  /** Asking for the frequency a divider produces makes the heuristic choose that divider again. */
  lemma DividerReproduces(g: int, p: int, d: int, fb: int, c: int)
    requires InGrid(p, d, fb) && CLKDIV_MIN <= c <= CLKDIV_MAX
    requires d > 0 && g == OutFreq(p, d, fb, c) && g >= OUT_MIN
    ensures ClkDiv(g, p, d, fb) == c
  {
    GridLegal(p, d, fb);
    VcoError(g, p, d, fb);
    var w := p * fb / d;
    FloorBounds(w, c);
    DividerReproducesArith(g, w, c, RawClkDiv(g, p, d, fb));
  }

  lemma DividerReproducesArith(g: int, w: int, c: int, raw: int)
    requires g >= OUT_MIN && 1 <= c <= CLKDIV_MAX && c * g <= w < c * g + c
    requires (2000 * raw - 1064) * g < 2000 * (w + 1) && 2000 * w <= (2000 * raw + 1064) * g
    ensures raw == c
  {
    assert (2000 * c + 936) * g == 2000 * (c * g) + 936 * g;
    assert (2000 * c - 936) * g == 2000 * (c * g) - 936 * g;
    if raw > c {
      MulLe(2000 * c + 936, 2000 * raw - 1064, g);
      assert false;
    }
    if raw < c {
      MulLe(2000 * raw + 1064, 2000 * c - 936, g);
      assert false;
    }
  }

  /** A higher target never gets a larger output divider. */
  lemma DividerMonotone(f: int, f': int, p: int, d: int, fb: int)
    requires 0 < f <= f' && d > 0 && fb >= 0 && p >= 0
    ensures d * f > 0 && d * f' > 0
    ensures ClkDiv(f', p, d, fb) <= ClkDiv(f, p, d, fb)
  {
    Positive(d, f);
    Positive(d, f');
    MulLe(f, f', d);
    QuotientMonotone(p * 1000, d * f, d * f');
    MulLe(Multiplier(f', p, d), Multiplier(f, p, d), fb);
  }

  lemma QuotientMonotone(a: int, v: int, v': int)
    requires a >= 0 && 0 < v <= v'
    ensures (a + v' / 2) / v' <= (a + v / 2) / v
  {
    var n, n' := a + v / 2, a + v' / 2;
    var m, m' := n / v, n' / v';
    assert n == v * m + n % v && n' == v' * m' + n' % v';
    QuotientMonotoneArith(a, v, v', m, m');
  }

  lemma QuotientMonotoneArith(a: int, v: int, v': int, m: int, m': int)
    requires a >= 0 && 0 < v <= v'
    requires a + v / 2 < v * m + v && v' * m' <= a + v' / 2
    ensures m' <= m
  {
    if m < 0 {
      MulLe(m, -1, v);
      assert false;
    }
    MulLe(v, v', m);
    assert (m + 1) * v' == v' * m + v';
    if m' > m {
      MulLe(m + 1, m', v');
      assert false;
    }
  }

  /** A pick above the output maximum used output divider one. */
  lemma HighPickUndivided(freq: int, p: int, m: Mode)
    requires IsPick(freq, p, m) && m.freq > OUT_MAX
    ensures m.clkdiv == 1 && m.freq <= VCO_MAX
  {
    VcoBand(p, m.maindiv, m.fbmult);
    var w := p * m.fbmult / m.maindiv;
    FloorBounds(w, m.clkdiv);
    if m.clkdiv >= 2 {
      MulLe(2, m.clkdiv, m.freq);
    }
  }

  /** At a grid point that a high pick does not lose to, raising the target keeps the divider. */
  lemma DividerStable(freq: int, freq': int, p: int, m: Mode, d: int, fb: int)
    requires IsPick(freq, p, m) && m.freq > OUT_MAX && InGrid(p, d, fb)
    requires Target(freq) <= Target(freq')
    requires Candidate(Target(freq'), p, d, fb).freq <= m.freq
    ensures ClkDiv(Target(freq), p, d, fb) == ClkDiv(Target(freq'), p, d, fb)
  {
    var f, f', g := Target(freq), Target(freq'), m.freq;
    GridLegal(p, d, fb);
    HighPickUndivided(freq, p, m);
    DividerMonotone(f, f', p, d, fb);
    VcoBand(p, d, fb);
    VcoError(f, p, d, fb);
    ClampLowNeverFires(freq, p, d, fb);
    assert Beats(f, p, m, d, fb);
    var c, c' := ClkDiv(f, p, d, fb), ClkDiv(f', p, d, fb);
    var w := p * fb / d;
    FloorBounds(w, c);
    FloorBounds(w, c');
    DividerStableArith(f, g, w, c, w / c, c', w / c', RawClkDiv(f, p, d, fb));
  }

  /** A divided candidate lies within 0.266 f of the target; a high pick that beats it is as near. */
  lemma DividerStableArith(f: int, g: int, w: int, c: int, h: int, c': int, h': int, raw: int)
    requires OUT_MIN <= f <= OUT_MAX < g <= VCO_MAX && VCO_MIN <= w <= VCO_MAX
    requires 1 <= c' <= c <= raw && (c == raw || c == CLKDIV_MAX)
    requires c * h <= w < c * h + c && c' * h' <= w < c' * h' + c' && h' <= g
    requires (2000 * raw - 1064) * f < 2000 * (w + 1) && 2000 * w <= (2000 * raw + 1064) * f
    requires g - f <= (if h >= f then h - f else f - h)
    ensures c' == c
  {
    var cf := c * f;
    var e := if h >= f then h - f else f - h - 1;
    assert (2000 * c - 1064) * f == 2000 * cf - 1064 * f;
    assert (2000 * c + 1064) * f == 2000 * cf + 1064 * f;
    assert c * e == if h >= f then c * h - cf else cf - c * h - c;
    MulLe(2000 * c - 1064, 2000 * raw - 1064, f);
    if c >= 3 {
      MulLe(3, c, f);
    }
    if c' < c {
      if raw > c {
        MulLe(128, c, f);
        assert false;
      }
      if e >= 0 {
        MulLe(2, c, e);
      }
      assert false;
    }
  }

  /**
   What the search promises the hardware about its pick, and the exact output frequency. For the
   phase detector above 900000 see `MmcmLimits.PfdExceededIff`.
   */
  lemma PickLegal(freq: int, p: int, m: Mode)
    requires IsPick(freq, p, m)
    ensures 600000 * m.maindiv <= p * m.fbmult <= 1200000 * m.maindiv
    ensures 2 <= m.fbmult <= 64 && 1 <= m.clkdiv <= 128
    ensures 1 <= m.maindiv <= 106 && 10000 * m.maindiv <= p
    ensures p <= 900000 ==> p <= 450000 * m.maindiv
    ensures m.maindiv * m.clkdiv > 0 && m.freq == p * m.fbmult / (m.maindiv * m.clkdiv)
    ensures 4000 < m.freq <= 1200000
  {
    GridLegal(p, m.maindiv, m.fbmult);
    VcoBand(p, m.maindiv, m.fbmult);
    CandidateError(freq, p, m.maindiv, m.fbmult);
    NestedFloor(p * m.fbmult, m.maindiv, m.clkdiv);
    var w := p * m.fbmult / m.maindiv;
    FloorBounds(w, m.clkdiv);
    MulLe(1, m.clkdiv, m.freq);
  }

  /** Once a request gets a pick above the output maximum, every higher request gets the same frequency. */
  lemma HighPickPersists(freq: int, freq': int, p: int, m: Mode, m': Mode)
    requires IsPick(freq, p, m) && IsPick(freq', p, m')
    requires m.freq > OUT_MAX && Target(freq) <= Target(freq')
    ensures m'.freq == m.freq
  {
    var f, f', g := Target(freq), Target(freq'), m.freq;
    if f == f' {
      assert IsPick(freq, p, m');
      PickUnique(freq, p, m, m');
    } else {
      HighPickUndivided(freq, p, m);
      GridLegal(p, m.maindiv, m.fbmult);
      DividerMonotone(f, f', p, m.maindiv, m.fbmult);
      assert Candidate(f', p, m.maindiv, m.fbmult).freq == g;
      assert Beats(f', p, m', m.maindiv, m.fbmult);
      DividerStable(freq, freq', p, m, m'.maindiv, m'.fbmult);
      assert Beats(f, p, m, m'.maindiv, m'.fbmult);
    }
  }

  /** Rounding is idempotent: searching for the frequency of a pick finds that frequency again. */
  lemma RoundIdempotent(freq: int, p: int, m: Mode, m': Mode)
    requires IsPick(freq, p, m) && IsPick(m.freq, p, m')
    ensures m'.freq == m.freq
  {
    var g := m.freq;
    CandidateError(freq, p, m.maindiv, m.fbmult);
    if g <= OUT_MAX {
      DividerReproduces(g, p, m.maindiv, m.fbmult, m.clkdiv);
      assert Beats(g, p, m', m.maindiv, m.fbmult);
    } else {
      HighPickPersists(freq, g, p, m, m');
    }
  }

  // ---------------------------------------------------------------- existence of the pick

  /** `m` is the pick among the grid points before (d, fb), or there are none of those. */
  ghost predicate BestBefore(f: int, p: int, d: int, fb: int, some: bool, m: Mode)
    requires f > 0
  {
    if some then
      && InGrid(p, m.maindiv, m.fbmult) && Before(m.maindiv, m.fbmult, d, fb)
      && m == Candidate(f, p, m.maindiv, m.fbmult)
      && forall d', fb' :: InGrid(p, d', fb') && Before(d', fb', d, fb) ==> Beats(f, p, m, d', fb')
    else
      forall d', fb' :: InGrid(p, d', fb') ==> !Before(d', fb', d, fb)
  }

  /** One iteration of the inner loop. */
  lemma BestExtend(f: int, p: int, d: int, fb: int, some: bool, m: Mode)
    requires f > 0 && BestBefore(f, p, d, fb, some, m) && InGrid(p, d, fb)
    ensures var cand := Candidate(f, p, d, fb);
            var m' := if !some || Err(f, cand) < Err(f, m) then cand else m;
            BestBefore(f, p, d, fb + 1, true, m')
  {
  }

  /** Skipping over points that are not in the grid changes nothing. */
  lemma BestSkip(f: int, p: int, d: int, fb: int, d1: int, fb1: int, some: bool, m: Mode)
    requires f > 0 && BestBefore(f, p, d, fb, some, m)
    requires Before(d, fb, d1, fb1)
    requires forall d', fb' :: InGrid(p, d', fb') && Before(d', fb', d1, fb1) ==> Before(d', fb', d, fb)
    ensures BestBefore(f, p, d1, fb1, some, m)
  {
  }

  lemma {:induction false} BestExists(f: int, p: int, d: nat, fb: nat) returns (some: bool, m: Mode)
    requires f > 0
    ensures BestBefore(f, p, d, fb, some, m)
    decreases d, fb
  {
    if d == 0 {
      some, m := false, Mode(0, 0, 0, 0);
    } else if fb == 0 {
      some, m := BestExists(f, p, d - 1, FB_MAX + 1);
      BestSkip(f, p, d - 1, FB_MAX + 1, d, fb, some, m);
    } else {
      some, m := BestExists(f, p, d, fb - 1);
      if InGrid(p, d, fb - 1) {
        BestExtend(f, p, d, fb - 1, some, m);
        var cand := Candidate(f, p, d, fb - 1);
        some, m := true, if !some || Err(f, cand) < Err(f, m) then cand else m;
      } else {
        BestSkip(f, p, d, fb - 1, d, fb, some, m);
      }
    }
  }

  /** The mode the search picks; unique by `PickUnique`. */
  ghost function Best(freq: int, p: int): (m: Mode)
    requires Feasible(p)
    ensures IsPick(freq, p, m)
  {
    PickExists(freq, p);
    var m :| IsPick(freq, p, m);
    m
  }

  lemma PickExists(freq: int, p: int)
    requires Feasible(p)
    ensures exists m :: IsPick(freq, p, m)
  {
    var some, m := BestExists(Target(freq), p, DIV_MAX + 1, 0);
    GridNonempty(p);
    assert Before(FirstDiv(p), MinFb(p, FirstDiv(p)), DIV_MAX + 1, 0);
    assert IsPick(freq, p, m);
  }

  /** The rounded frequency in KHz: the pick's frequency, or zero when there is no mode. */
  ghost function Rounded(freq: int, p: int): int {
    if Feasible(p) then Best(freq, p).freq else 0
  }

  /** Rounding a rounded frequency gives it back, for every request and every parent clock. */
  lemma RoundedTwice(freq: int, p: int)
    ensures Rounded(Rounded(freq, p), p) == Rounded(freq, p)
  {
    if Feasible(p) {
      RoundIdempotent(freq, p, Best(freq, p), Best(Best(freq, p).freq, p));
    }
  }

  // ---------------------------------------------------------------- the pick in the reference's terms

  /** No smaller whole multiplier reaches the VCO minimum. */
  lemma LeastWhole(p: int, x: int)
    requires p > 0 && 600000 <= p * x
    ensures (VCO_MIN + p - 1) / p <= x
  {
    var u := (VCO_MIN + p - 1) / p;
    VcoQuotients(p);
    assert p * (u - 1) == p * u - p;
    if x < u {
      MulLe(x, u - 1, p);
    }
  }

  /** No larger one stays within the VCO maximum. */
  lemma GreatestWhole(p: int, x: int)
    requires p > 0 && p * x <= 1200000
    ensures x <= VCO_MAX / p
  {
    var q := VCO_MAX / p;
    VcoQuotients(p);
    assert p * (q + 1) == p * q + p;
    if x > q {
      MulLe(q + 1, x, p);
    }
  }

  lemma GridIsVisited(p: int, d: int, fb: int)
    ensures InGrid(p, d, fb) <==> Visited(p, d, fb)
  {
    if InGrid(p, d, fb) {
      GridLegal(p, d, fb);
      VcoQuotients(p);
      assert AtLeastWhole(p, d, fb, (VCO_MIN + p - 1) / p) && AtMostWhole(p, d, fb, VCO_MAX / p);
    } else if Visited(p, d, fb) {
      var u :| AtLeastWhole(p, d, fb, u);
      var q :| AtMostWhole(p, d, fb, q);
      LeastWhole(p, u);
      GreatestWhole(p, q);
      MulLe((VCO_MIN + p - 1) / p, u, d);
      MulLe(q, VCO_MAX / p, d);
    }
  }

  lemma NearestUnique(a: int, v: int, q: int)
    requires v > 0
    ensures Nearest(a, v, q) <==> q == (a + v / 2) / v
  {
    var n := a + v / 2;
    var q' := n / v;
    assert n == v * q' + n % v;
    assert (2 * q' - 1) * v == 2 * (v * q') - v && (2 * q' + 1) * v == 2 * (v * q') + v;
    if q < q' {
      MulLe(2 * q + 1, 2 * q' - 1, v);
    } else if q > q' {
      MulLe(2 * q' + 1, 2 * q - 1, v);
    }
  }

  /** The nearest whole number is nearest: no other multiple is closer. */
  lemma NearestClosest(a: int, v: int, q: int, k: int)
    requires v > 0 && Nearest(a, v, q)
    ensures Distance(a, v * q) <= Distance(a, v * k)
  {
    assert (2 * q - 1) * v == 2 * (v * q) - v && (2 * q + 1) * v == 2 * (v * q) + v;
    assert (q + 1) * v == v * q + v && (q - 1) * v == v * q - v;
    if k > q {
      MulLe(q + 1, k, v);
    } else if k < q {
      MulLe(k, q - 1, v);
    }
  }

  lemma DividerIsReference(f: int, p: int, d: int, fb: int, c: int)
    requires d * f > 0
    ensures c == ClkDiv(f, p, d, fb) <==> exists ratio, raw :: DividerVia(f, p, d, fb, ratio, raw, c)
  {
    var mult := Multiplier(f, p, d);
    NearestUnique(1000 * p, d * f, mult);
    NearestUnique(mult * fb, 1000, RawClkDiv(f, p, d, fb));
    if c == ClkDiv(f, p, d, fb) {
      assert DividerVia(f, p, d, fb, mult, RawClkDiv(f, p, d, fb), c);
    }
    forall ratio, raw | DividerVia(f, p, d, fb, ratio, raw, c)
      ensures c == ClkDiv(f, p, d, fb)
    {
      NearestUnique(1000 * p, d * f, ratio);
      NearestUnique(ratio * fb, 1000, raw);
    }
  }

  lemma OutputIsReference(p: int, d: int, fb: int, c: int, g: int)
    requires p >= 0 && fb >= 0 && d > 0 && c > 0
    ensures g == OutFreq(p, d, fb, c) <==> Outputs(p, d, fb, c, g)
  {
    var x, n := p * fb, d * c;
    Positive(d, c);
    NestedFloor(x, d, c);
    assert x == n * (x / n) + x % n;
    assert (g + 1) * n == n * g + n;
    if Outputs(p, d, fb, c, g) {
      FloorUnique(x, n, g, x - n * g);
    }
  }

  lemma CandidateIsReference(f: int, p: int, m: Mode)
    requires f > 0
    ensures IsCandidate(f, p, m)
            <==> InGrid(p, m.maindiv, m.fbmult) && m == Candidate(f, p, m.maindiv, m.fbmult)
  {
    var d, fb := m.maindiv, m.fbmult;
    GridIsVisited(p, d, fb);
    if InGrid(p, d, fb) {
      GridLegal(p, d, fb);
      Positive(d, f);
      DividerIsReference(f, p, d, fb, m.clkdiv);
      OutputIsReference(p, d, fb, ClkDiv(f, p, d, fb), m.freq);
    }
  }

  lemma PickMeetsReference(freq: int, p: int, m: Mode)
    requires IsPick(freq, p, m)
    ensures IsReferencePick(freq, p, m)
  {
    var f := Target(freq);
    assert Clamped(freq, f);
    CandidateIsReference(f, p, m);
    forall m' | IsCandidate(f, p, m')
      ensures Distance(f, m.freq) <= Distance(f, m'.freq)
      ensures Earlier(m', m) ==> Distance(f, m.freq) < Distance(f, m'.freq)
    {
      CandidateIsReference(f, p, m');
      assert Beats(f, p, m, m'.maindiv, m'.fbmult);
    }
  }

  lemma ReferenceMeetsPick(freq: int, p: int, m: Mode)
    requires IsReferencePick(freq, p, m)
    ensures IsPick(freq, p, m)
  {
    var f := Target(freq);
    assert forall f' :: Clamped(freq, f') ==> f' == f;
    CandidateIsReference(f, p, m);
    forall d, fb | InGrid(p, d, fb)
      ensures d > 0 && Beats(f, p, m, d, fb)
    {
      GridLegal(p, d, fb);
      CandidateIsReference(f, p, Candidate(f, p, d, fb));
    }
  }

  /** The pick is exactly the reference's. */
  lemma PickIsReference(freq: int, p: int, m: Mode)
    ensures IsPick(freq, p, m) <==> IsReferencePick(freq, p, m)
  {
    if IsPick(freq, p, m) {
      PickMeetsReference(freq, p, m);
    } else if IsReferencePick(freq, p, m) {
      ReferenceMeetsPick(freq, p, m);
    }
  }

  /**
   Exact requests: if some visited pair and some output divider from 1 to 128 give exactly the
   frequency asked for, the pick gives it.
   */
  lemma ExactlyMet(g: int, p: int, m: Mode, d: int, fb: int, c: int)
    requires 4000 <= g <= 800000 && IsReferencePick(g, p, m)
    requires Visited(p, d, fb) && 1 <= c <= 128 && Outputs(p, d, fb, c, g)
    ensures m.freq == g
  {
    PickIsReference(g, p, m);
    GridIsVisited(p, d, fb);
    GridLegal(p, d, fb);
    OutputIsReference(p, d, fb, c, g);
    DividerReproduces(g, p, d, fb, c);
    assert Beats(g, p, m, d, fb);
  }

  // ---------------------------------------------------------------- the search, in 32 bits

  const TWO32 := 0x1_0000_0000

  /** The low 32 bits of a value (the test only spares the solver a division). */
  function Wrap32(x: nat): (r: nat)
    ensures r == x % 0x1_0000_0000
  {
    if x < TWO32 then x else x % TWO32
  }

  function Mul32(a: nat, b: nat): nat {
    Wrap32(a * b)
  }

  function Add32(a: nat, b: nat): nat {
    Wrap32(a + b)
  }

  lemma DivNonneg(a: int, b: int)
    requires a >= 0 && b > 0
    ensures a / b >= 0
  {
  }

  /** The outer loop's 32-bit F bounds: exact with a parent clock in range, an empty row above it. */
  lemma RowAgrees(p: int, d: int)
    requires 0 < p < TWO32 && FirstDiv(p) <= d <= LastDiv(p)
    ensures VCO_MAX / p >= 0 && Add32(VCO_MIN, p - 1) / p >= 0
    ensures Feasible(p) ==> Mul32(d, Add32(VCO_MIN, p - 1) / p) == d * ((VCO_MIN + p - 1) / p)
    ensures Feasible(p) ==> Mul32(d, VCO_MAX / p) == d * (VCO_MAX / p)
    ensures !Feasible(p) ==> Mul32(d, VCO_MAX / p) == 0
  {
    DivNonneg(VCO_MAX, p);
    DivNonneg(Add32(VCO_MIN, p - 1), p);
    if Feasible(p) {
      RowBounds(p, d, VCO_MAX / p, (VCO_MIN + p - 1) / p);
    } else {
      var q := VCO_MAX / p;
      assert VCO_MAX == p * q + VCO_MAX % p;
      if q >= 1 {
        MulLe(1, q, p);
        assert false;
      }
      assert d * q == 0;
    }
  }

  /** The outer loop's 32-bit divisor never wraps; the multiplier may, but only in an empty row. */
  lemma MultiplierAgrees(f: int, p: int, d: int)
    requires OUT_MIN <= f <= OUT_MAX && 0 < p < TWO32 && 1 <= d <= DIV_MAX
    ensures 0 < d * f < TWO32 && Mul32(d, f) == d * f
    ensures Feasible(p) ==> Add32(Mul32(p, 1000), d * f / 2) / (d * f) == Multiplier(f, p, d)
  {
    Positive(d, f);
    MulLe(d, DIV_MAX, f);
  }

  lemma RowBounds(p: int, d: int, q: int, u: int)
    requires Feasible(p) && 1 <= d <= DIV_MAX && q == VCO_MAX / p && u == (VCO_MIN + p - 1) / p
    ensures 0 <= u && 0 <= q && 0 <= d * q < TWO32 && 0 <= d * u < TWO32
  {
    VcoQuotients(p);
    NonemptyArith(p, q, u);
    if q > 120 {
      MulLe(121, q, p);
      assert false;
    }
    MulLe(d, DIV_MAX, u);
    MulLe(d, DIV_MAX, q);
    MulLe(0, d, u);
    MulLe(0, d, q);
  }

  lemma MultiplierBound(f: int, p: int, d: int)
    requires OUT_MIN <= f && Feasible(p) && 1 <= d
    ensures d * f > 0 && 0 <= Multiplier(f, p, d) <= 300001
  {
    Positive(d, f);
    MulLe(1, d, f);
    var v, m := d * f, Multiplier(f, p, d);
    assert p * 1000 + v / 2 == v * m + (p * 1000 + v / 2) % v;
    if m < 0 {
      MulLe(m, -1, v);
      assert false;
    }
    assert v * (2 * m - 1) == 2 * (v * m) - v;
    if m > 300001 {
      MulLe(4000, v, 2 * m - 1);
      assert false;
    }
  }

  /** The candidate as the inner loop computes it in 32 bits, from the row's multiplier. */
  function Candidate32(p: nat, d: nat, fb: nat, mult: nat): Mode
    requires d > 0
  {
    var c := Clamp(Add32(Mul32(mult, fb), 500) / 1000, CLKDIV_MIN, CLKDIV_MAX);
    Mode(Mul32(p, fb) / d / c, fb, c, d)
  }

  /** With a parent clock in range no operation of the inner loop wraps. */
  lemma CellAgrees(f: int, p: int, d: int, fb: int)
    requires OUT_MIN <= f <= OUT_MAX && InGrid(p, d, fb)
    ensures fb >= 0 && d > 0 && d * f > 0 && Multiplier(f, p, d) >= 0
    ensures Candidate32(p, d, fb, Multiplier(f, p, d)) == Candidate(f, p, d, fb)
  {
    GridLegal(p, d, fb);
    MultiplierBound(f, p, d);
    MulLe(Multiplier(f, p, d), 300001, fb);
    MulLe(0, Multiplier(f, p, d), fb);
  }

  /** Where the scan stands before (d, fb): what the two loops keep true. */
  ghost predicate Scanning(freq: int, p: int, d: int, fb: int, some: bool, best: Mode, bestError: int,
                           found: bool, init: Mode)
  {
    var f := Target(freq);
    if !Feasible(p) then
      best == init.(freq := 0) && !found
    else if found then
      IsPick(freq, p, best)
    else
      BestBefore(f, p, d, fb, some, best) && bestError == if some then Err(f, best) else OUT_MAX
  }

  /** A row starts at its lower F bound: there is no grid point before that. */
  lemma ScanRowStart(freq: int, p: int, d: int, minFb: int, some: bool, best: Mode, bestError: int,
                     found: bool, init: Mode)
    requires Scanning(freq, p, d, 0, some, best, bestError, found, init)
    requires Feasible(p) ==> minFb == MinFb(p, d)
    ensures Scanning(freq, p, d, minFb, some, best, bestError, found, init)
  {
  }

  /** A row ends past its upper F bound. */
  lemma ScanRowEnd(freq: int, p: int, d: int, fb: int, some: bool, best: Mode, bestError: int,
                   found: bool, init: Mode)
    requires Scanning(freq, p, d, fb, some, best, bestError, found, init)
    requires Feasible(p) && !found ==> fb > MaxFb(p, d)
    ensures Scanning(freq, p, d + 1, 0, some, best, bestError, found, init)
  {
  }

  /** The scan moves past the grid point (d, fb), keeping the closer candidate. */
  lemma ScanStep(freq: int, p: int, d: int, fb: int, mult: int, some: bool, best: Mode, bestError: int, init: Mode)
    returns (cand: Mode, e: nat)
    requires InGrid(p, d, fb) && Scanning(freq, p, d, fb, some, best, bestError, false, init)
    requires d * Target(freq) > 0 && mult == Multiplier(Target(freq), p, d)
    ensures d > 0 && fb >= 0 && mult >= 0
    ensures cand == Candidate32(p, d, fb, mult) && e == Err(Target(freq), cand)
    ensures Scanning(freq, p, d, fb + 1, true, if e < bestError then cand else best,
                     if e < bestError then e else bestError, e == 0, init)
  {
    var f := Target(freq);
    GridLegal(p, d, fb);
    CellAgrees(f, p, d, fb);
    CandidateError(freq, p, d, fb);
    BestExtend(f, p, d, fb, some, best);
    cand := Candidate(f, p, d, fb);
    e := Err(f, cand);
    if e == 0 {
      PerfectIsPick(freq, p, d, fb + 1, if e < bestError then cand else best);
    }
  }

  /** A finished scan of a parent clock in range has the pick, and its frequency is not zero. */
  lemma ScanDone(freq: int, p: int, d: int, some: bool, best: Mode, bestError: int, found: bool, init: Mode)
    requires Scanning(freq, p, d, 0, some, best, bestError, found, init)
    requires Feasible(p) && (found || d > LastDiv(p))
    ensures IsPick(freq, p, best) && best.freq != 0
  {
    GridNonempty(p);
    assert !found ==> Before(FirstDiv(p), MinFb(p, FirstDiv(p)), d, 0);
    assert IsPick(freq, p, best);
    CandidateError(freq, p, best.maindiv, best.fbmult);
  }

  /** A zero-error candidate that beats everything before it is the pick: the early exit is exact. */
  lemma PerfectIsPick(freq: int, p: int, d: int, fb: int, m: Mode)
    requires BestBefore(Target(freq), p, d, fb, true, m) && Err(Target(freq), m) == 0
    ensures IsPick(freq, p, m)
  {
  }

  /**
   The search in wrapping 32-bit arithmetic, for every 32-bit request and parent clock. It
   reports zero exactly when the parent clock is out of range; then only the frequency field
   of the caller's mode is written.
   */
  method FindMode(freq: nat, parentFreq: nat, init: Mode) returns (r: int, bestPick: Mode)
    requires freq < 0x1_0000_0000 && parentFreq < 0x1_0000_0000
    ensures r == bestPick.freq
    ensures r != 0 <==> 10000 <= parentFreq <= 1200000
    ensures r != 0 ==> IsReferencePick(freq, parentFreq, bestPick) && IsPick(freq, parentFreq, bestPick)
    ensures r == 0 ==> bestPick == init.(freq := 0)
  {
    var bestError := OUT_MAX;
    var curDiv, freqFound := 1, false;
    bestPick := init.(freq := 0);
    if parentFreq == 0 {
      return 0, bestPick;
    }
    var f := Clamp(freq, OUT_MIN, OUT_MAX);
    if parentFreq > PFD_MAX {
      curDiv := 2;
    }
    var maxDiv := AtMost(parentFreq / PFD_MIN, DIV_MAX);
    ghost var p, some := parentFreq, false;
    while curDiv <= maxDiv && !freqFound
      invariant 1 <= curDiv && FirstDiv(p) <= curDiv
      invariant Scanning(freq, p, curDiv, 0, some, bestPick, bestError, freqFound, init)
      decreases maxDiv - curDiv, !freqFound
    {
      RowAgrees(p, curDiv);
      MultiplierAgrees(f, p, curDiv);
      var minFb := AtLeast(Mul32(curDiv, Add32(VCO_MIN, parentFreq - 1) / parentFreq), FB_MIN);
      var maxFb := AtMost(Mul32(curDiv, VCO_MAX / parentFreq), FB_MAX);
      var divVal := Mul32(curDiv, f);
      var curClkMult := Add32(Mul32(parentFreq, 1000), divVal / 2) / divVal;
      ScanRowStart(freq, p, curDiv, minFb, some, bestPick, bestError, freqFound, init);
      var curFb := minFb;
      while curFb <= maxFb && !freqFound
        invariant minFb <= curFb
        invariant Scanning(freq, p, curDiv, curFb, some, bestPick, bestError, freqFound, init)
      {
        ghost var cand, e := ScanStep(freq, p, curDiv, curFb, curClkMult, some, bestPick, bestError, init);
        ghost var newPick, newError := if e < bestError then cand else bestPick, if e < bestError then e else bestError;
        var curClkDiv := Clamp(Add32(Mul32(curClkMult, curFb), 500) / 1000, CLKDIV_MIN, CLKDIV_MAX);
        var curFreq := Mul32(parentFreq, curFb) / curDiv / curClkDiv;
        assert Mode(curFreq, curFb, curClkDiv, curDiv) == cand;
        var curError := if curFreq >= f then curFreq - f else f - curFreq;
        if curError < bestError {
          bestError := curError;
          bestPick := bestPick.(clkdiv := curClkDiv, fbmult := curFb, maindiv := curDiv, freq := curFreq);
        }
        assert bestPick == newPick && bestError == newError && curError == e;
        if curError == 0 {
          freqFound := true;
        }
        some := true;
        curFb := curFb + 1;
      }
      ScanRowEnd(freq, p, curDiv, curFb, some, bestPick, bestError, freqFound, init);
      curDiv := curDiv + 1;
    }
    if Feasible(p) {
      ScanDone(freq, p, curDiv, some, bestPick, bestError, freqFound, init);
      PickIsReference(freq, p, bestPick);
    }
    r := bestPick.freq;
  }
}
