/**
 Where the mode search falls short of the modes the VCO and the dividers allow, and exactly when it
 does not: which of them it visits, which requests it meets exactly, when its pick is the best of
 them and how close it comes otherwise; and when its pick exceeds the phase detector's limit.
 */
module MmcmLimits {
  import opened MmcmReference
  import opened MmcmSearch

  // ---------------------------------------------------------------- the visited grid and the legal one

  /**
   The F range the VCO and the counter allow for a main divider the search tries. Such a pair is
   called legal here, also where the code's D = 2 exceeds the phase detector (`PfdExceededIff`).
   */
  predicate LegalPair(p: int, d: int, fb: int) {
    && 10000 <= p <= 1200000 && TriedDivider(p, d)
    && 600000 * d <= p * fb <= 1200000 * d && 2 <= fb <= 64
  }

  /**
   The search rounds the F bounds for D = 1 and multiplies them by D. Row D misses nothing if the
   rounding errors, D times over, stay below one step of F, or lie beyond the limits of F.
   */
  predicate RowComplete(p: int, d: int)
    requires p > 0
  {
    var u, q := (VCO_MIN + p - 1) / p, VCO_MAX / p;
    && (VCO_MIN * d > FB_MAX * p || d * u <= FB_MIN || d * (p * u - VCO_MIN) < p)
    && (d * q >= FB_MAX || d * (VCO_MAX - p * q) < p)
  }

  ghost predicate AllRowsComplete(p: int)
    requires p > 0
  {
    forall d :: TriedDivider(p, d) ==> RowComplete(p, d)
  }

  /** The quotients of a feasible parent: at least one full step of the VCO band is in range. */
  lemma QuotientShape(p: int, d: int)
    requires Feasible(p) && FirstDiv(p) <= d
    ensures var u, q := (VCO_MIN + p - 1) / p, VCO_MAX / p;
            && 1 <= u <= q && VCO_MIN <= p * u < VCO_MIN + p && p * q <= VCO_MAX < p * q + p
            && VCO_MIN <= p * q && d >= 1 && d * u >= 2 && (p > VCO_MIN ==> u == 1)
  {
    var u, q := (VCO_MIN + p - 1) / p, VCO_MAX / p;
    VcoQuotients(p);
    NonemptyArith(p, q, u);
    MulLe(1, q, p);
    if u == 1 {
      assert d >= 2;
    } else {
      MulLe(2, u, d);
      MulLe(1, d, 2);
    }
    if p > VCO_MIN && u >= 2 {
      MulLe(2, u, p);
      assert false;
    }
  }

  /** An F at or above the lower VCO limit reaches the row's lower bound if the rounding error stays below one step. */
  lemma AtLeastLower(p: int, d: int, fb: int, u: int)
    requires p > 0 && VCO_MIN * d <= p * fb && d * (p * u - VCO_MIN) < p
    ensures d * u <= fb
  {
    assert p * (d * u) == VCO_MIN * d + d * (p * u - VCO_MIN);
    assert (fb + 1) * p == p * fb + p;
    if fb < d * u {
      MulLe(fb + 1, d * u, p);
      assert false;
    }
  }

  lemma AtMostUpper(p: int, d: int, fb: int, q: int)
    requires p > 0 && p * fb <= VCO_MAX * d && d * (VCO_MAX - p * q) < p
    ensures fb <= d * q
  {
    assert p * (d * q) == VCO_MAX * d - d * (VCO_MAX - p * q);
    assert (d * q + 1) * p == p * (d * q) + p;
    if fb > d * q {
      MulLe(d * q + 1, fb, p);
      assert false;
    }
  }

  /** A complete row visits every legal F. */
  lemma CompleteRowVisits(p: int, d: int, fb: int)
    requires LegalPair(p, d, fb) && RowComplete(p, d)
    ensures InGrid(p, d, fb)
  {
    var u, q := (VCO_MIN + p - 1) / p, VCO_MAX / p;
    if d * u > FB_MIN {
      MulLe(fb, FB_MAX, p);
      AtLeastLower(p, d, fb, u);
    }
    if d * q < FB_MAX {
      AtMostUpper(p, d, fb, q);
    }
  }

  /** One step below the row's lower bound is legal once the rounding error reaches that step. */
  lemma StepBelow(p: int, d: int, u: int, q: int) returns (fb: int)
    requires p > 0 && d >= 1 && u <= q && p * q <= VCO_MAX
    requires d * u > FB_MIN && VCO_MIN * d <= FB_MAX * p && d * (p * u - VCO_MIN) >= p
    ensures FB_MIN <= fb <= FB_MAX && fb < d * u && VCO_MIN * d <= p * fb <= VCO_MAX * d
  {
    fb := if d * u - 1 <= FB_MAX then d * u - 1 else FB_MAX;
    assert p * (d * u) == VCO_MIN * d + d * (p * u - VCO_MIN);
    assert p * (d * u - 1) == p * (d * u) - p;
    MulLe(fb, d * u, p);
    MulLe(u, q, p);
    MulLe(p * u, VCO_MAX, d);
    assert (p * u) * d == (d * u) * p;
  }

  lemma StepAbove(p: int, d: int, q: int) returns (fb: int)
    requires p > 0 && d >= 1 && q >= 1 && VCO_MIN <= p * q && d * q < FB_MAX
    requires d * q >= FB_MIN - 1 && d * (VCO_MAX - p * q) >= p
    ensures FB_MIN <= fb <= FB_MAX && fb > d * q && VCO_MIN * d <= p * fb <= VCO_MAX * d
  {
    fb := d * q + 1;
    assert p * fb == p * (d * q) + p;
    assert p * (d * q) == VCO_MAX * d - d * (VCO_MAX - p * q);
    MulLe(VCO_MIN, p * q, d);
    assert (p * q) * d == p * (d * q);
  }

  /** An incomplete row misses a legal F: just below its lower bound or just above its upper one. */
  lemma IncompleteRowMisses(p: int, d: int) returns (fb: int)
    requires Feasible(p) && TriedDivider(p, d) && !RowComplete(p, d)
    ensures LegalPair(p, d, fb) && !InGrid(p, d, fb)
  {
    var u, q := (VCO_MIN + p - 1) / p, VCO_MAX / p;
    QuotientShape(p, d);
    if d * q < FB_MAX && d * (VCO_MAX - p * q) >= p {
      MulLe(u, q, d);
      fb := StepAbove(p, d, q);
    } else {
      fb := StepBelow(p, d, u, q);
    }
  }

  /** The grid is exactly the legal one if and only if every row the search tries is complete. */
  lemma GridCompleteIff(p: int)
    requires Feasible(p)
    ensures AllRowsComplete(p) <==> forall d, fb :: InGrid(p, d, fb) <==> LegalPair(p, d, fb)
  {
    forall d, fb | InGrid(p, d, fb)
      ensures LegalPair(p, d, fb)
    {
      GridLegal(p, d, fb);
    }
    if AllRowsComplete(p) {
      forall d, fb | LegalPair(p, d, fb)
        ensures InGrid(p, d, fb)
      {
        CompleteRowVisits(p, d, fb);
      }
    } else {
      var d :| TriedDivider(p, d) && !RowComplete(p, d);
      var fb := IncompleteRowMisses(p, d);
    }
  }

  /** In particular a parent clock that divides the lower VCO limit has a complete grid. */
  lemma DividingParentComplete(p: int, k: int)
    requires Feasible(p) && 600000 == p * k
    ensures AllRowsComplete(p)
  {
    FloorUnique(VCO_MIN + p - 1, p, k, p - 1);
    FloorUnique(VCO_MAX, p, 2 * k, 0);
  }

  // ---------------------------------------------------------------- requests met exactly

  /** Some visited (D, F) and some output divider give exactly `g`. */
  ghost predicate Produces(p: int, g: int) {
    exists d, fb, c :: InGrid(p, d, fb) && 1 <= c <= 128 && OutFreq(p, d, fb, c) == g
  }

  /** Some legal pair and some output divider give exactly `g`. */
  ghost predicate LegalProduces(p: int, g: int) {
    exists d, fb, c :: LegalPair(p, d, fb) && 1 <= c <= 128 && OutFreq(p, d, fb, c) == g
  }

  /** A request is met exactly if and only if some visited pair can produce it with some divider. */
  lemma FixedPoint(g: int, p: int)
    requires Feasible(p) && 4000 <= g <= 800000
    ensures Rounded(g, p) == g <==> Produces(p, g)
  {
    var m := Best(g, p);
    GridLegal(p, m.maindiv, m.fbmult);
    if d, fb, c :| InGrid(p, d, fb) && 1 <= c <= 128 && OutFreq(p, d, fb, c) == g {
      DividerReproduces(g, p, d, fb, c);
      assert Beats(g, p, m, d, fb);
    }
  }

  /** With a complete grid, a request is met exactly if and only if any legal mode meets it. */
  lemma ExactRequestsMet(g: int, p: int)
    requires Feasible(p) && AllRowsComplete(p) && 4000 <= g <= 800000
    ensures Rounded(g, p) == g <==> LegalProduces(p, g)
  {
    GridCompleteIff(p);
    FixedPoint(g, p);
  }

  /**
   An incomplete grid can miss an exact mode: with a 500 MHz parent the legal mode D = 2, F = 3,
   c = 1 hits 750000, and every pick for 750000 is off by 250000.
   */
  lemma GridMissesLegalMode(m: Mode)
    requires IsPick(750000, 500000, m)
    ensures LegalPair(500000, 2, 3) && OutFreq(500000, 2, 3, 1) == 750000 && !Produces(500000, 750000)
    ensures m.freq == 1000000
  {
    var d, fb := m.maindiv, m.fbmult;
    GridLegal(500000, d, fb);
    assert fb == d * 2;
    VcoError(750000, 500000, d, fb);
    ClampLowNeverFires(750000, 500000, d, fb);
    FloorUnique(500000 * fb, d, 1000000, 0);
    FixedPoint(750000, 500000);
    PickUnique(750000, 500000, m, Best(750000, 500000));
  }

  // ---------------------------------------------------------------- how good the divider choice is

  /**
   The fixed-point divider is never off by more than one: for every pair the VCO allows, visited or
   not, the output divider nearest to the target is the computed one or a neighbour of it.
   */
  lemma OnlyNeighbours(freq: int, p: int, d: int, fb: int, c: int)
    requires LegalPair(p, d, fb) && 1 <= c <= 128
    ensures var f := Target(freq); var c0 := ClkDiv(f, p, d, fb);
            && (c < c0 ==> f <= OutFreq(p, d, fb, c0 - 1) <= OutFreq(p, d, fb, c))
            && (c > c0 ==> OutFreq(p, d, fb, c) <= OutFreq(p, d, fb, c0 + 1) <= f)
  {
    var f := Target(freq);
    BandFloor(p, d, fb);
    VcoError(f, p, d, fb);
    RawAtLeastOne(f, p, d, fb);
    var w, c0, raw := p * fb / d, ClkDiv(f, p, d, fb), RawClkDiv(f, p, d, fb);
    if c < c0 {
      MulLe(2000 * c0 - 1064, 2000 * raw - 1064, f);
      AboveTarget(f, w, c0);
      FloorAntitone(w, c, c0 - 1);
    }
    if c > c0 {
      BelowTarget(f, w, c0);
      FloorAntitone(w, c0 + 1, c);
    }
  }

  lemma AboveTarget(f: int, w: int, c: int)
    requires f >= OUT_MIN && c >= 2 && w >= 0 && (2000 * c - 1064) * f < 2000 * (w + 1)
    ensures w / (c - 1) >= f
  {
    FloorBounds(w, c - 1);
    assert (2000 * c - 1064) * f == 2000 * ((c - 1) * f) + 936 * f;
    if w / (c - 1) < f {
      MulLe(w / (c - 1) + 1, f, c - 1);
      assert false;
    }
  }

  lemma BelowTarget(f: int, w: int, c: int)
    requires f >= OUT_MIN && c >= 1 && w >= 0 && 2000 * w <= (2000 * c + 1064) * f
    ensures w / (c + 1) <= f
  {
    FloorBounds(w, c + 1);
    assert (2000 * c + 1064) * f == 2000 * ((c + 1) * f) - 936 * f;
    if w / (c + 1) > f {
      MulLe(f + 1, w / (c + 1), c + 1);
      assert false;
    }
  }

  lemma FloorAntitone(w: int, c: int, c': int)
    requires w >= 0 && 1 <= c <= c'
    ensures w / c' <= w / c
  {
    FloorBounds(w, c);
    FloorBounds(w, c');
    MulLe(c, c', w / c');
    if w / c' > w / c {
      MulLe(w / c + 1, w / c', c);
      assert false;
    }
  }

  /**
   The pick is nearly the best mode of the grid, whatever the output divider: its error is at most
   2.28 times that of any visited pair with any divider, plus 4.
   */
  lemma PickNearlyBest(freq: int, p: int, m: Mode, d: int, fb: int, c: int)
    requires IsPick(freq, p, m) && InGrid(p, d, fb) && 1 <= c <= 128
    ensures 117 * Err(Target(freq), m) <= 266 * Distance(Target(freq), OutFreq(p, d, fb, c)) + 375
  {
    assert Beats(Target(freq), p, m, d, fb);
    CandidateNearlyBest(freq, p, d, fb, c);
  }

  lemma CandidateNearlyBest(freq: int, p: int, d: int, fb: int, c: int)
    requires InGrid(p, d, fb) && 1 <= c <= 128
    ensures var f := Target(freq);
            117 * Err(f, Candidate(f, p, d, fb)) <= 266 * Distance(f, OutFreq(p, d, fb, c)) + 375
  {
    var f := Target(freq);
    GridLegal(p, d, fb);
    OnlyNeighbours(freq, p, d, fb, c);
    VcoBand(p, d, fb);
    VcoError(f, p, d, fb);
    ClampLowNeverFires(freq, p, d, fb);
    var c0, w := ClkDiv(f, p, d, fb), p * fb / d;
    MulLe(2000 * c0 - 1064, 2000 * RawClkDiv(f, p, d, fb) - 1064, f);
    if c < c0 {
      NearLower(f, w, c0);
    } else if c > c0 {
      NearUpper(f, w, c0);
    }
  }

  /** Against the next smaller divider, which gives at least the target. */
  lemma NearLower(f: int, w: int, c: int)
    requires f >= OUT_MIN && w >= 0 && c >= 2 && (2000 * c - 1064) * f < 2000 * (w + 1)
    requires w / (c - 1) >= f
    ensures 117 * Distance(f, w / c) <= 266 * Distance(f, w / (c - 1)) + 375
  {
    var g, g1 := w / c, w / (c - 1);
    FloorBounds(w, c);
    FloorBounds(w, c - 1);
    FloorAntitone(w, c - 1, c);
    if g < f {
      LowerErrors(f, w, c, g, g1);
      NearLowerArith(f, c, f - g, g1 - f, c * (f - g), c * (g1 - f));
    }
  }

  lemma LowerErrors(f: int, w: int, c: int, g: int, g1: int)
    requires w < c * g + c && w < (c - 1) * g1 + (c - 1) && (2000 * c - 1064) * f < 2000 * (w + 1)
    ensures 2000 * (c * (f - g) - c) < 1064 * f + 2000
    ensures 2000 * (c * (g1 - f) - (g1 - f) + c - 1) > 936 * f - 2000
  {
    var cf := c * f;
    assert (2000 * c - 1064) * f == 2000 * cf - 1064 * f;
    assert c * (f - g) == cf - c * g && c * (g1 - f) == c * g1 - cf && (c - 1) * g1 == c * g1 - g1;
  }

  lemma NearLowerArith(f: int, c: int, e: int, e1: int, ce: int, ce1: int)
    requires f >= OUT_MIN && c >= 2 && e >= 0 && e1 >= 0 && ce == c * e && ce1 == c * e1
    requires 2000 * (ce - c) < 1064 * f + 2000
    requires 2000 * (ce1 - e1 + c - 1) > 936 * f - 2000
    ensures 117 * e <= 266 * e1 + 375
  {
    assert (266 * e1 + 376) * c == 266 * ce1 + 376 * c && (117 * e) * c == 117 * ce;
    if 117 * e > 266 * e1 + 375 {
      MulLe(266 * e1 + 376, 117 * e, c);
      assert false;
    }
  }

  /** Against the next larger divider, which gives at most the target. */
  lemma NearUpper(f: int, w: int, c: int)
    requires f >= OUT_MIN && w >= 0 && c >= 1 && 2000 * w <= (2000 * c + 1064) * f
    requires w / (c + 1) <= f
    ensures 117 * Distance(f, w / c) <= 266 * Distance(f, w / (c + 1)) + 375
  {
    var g, g1 := w / c, w / (c + 1);
    FloorBounds(w, c);
    FloorBounds(w, c + 1);
    FloorAntitone(w, c, c + 1);
    if g >= f {
      UpperErrors(f, w, c, g, g1);
      NearUpperArith(f, c, g - f, f - g1, c * (g - f), c * (f - g1));
    }
  }

  lemma UpperErrors(f: int, w: int, c: int, g: int, g1: int)
    requires c * g <= w && (c + 1) * g1 <= w && 2000 * w <= (2000 * c + 1064) * f
    ensures 2000 * (c * (g - f)) <= 1064 * f
    ensures 2000 * (c * (f - g1) + (f - g1)) >= 936 * f
  {
    var cf := c * f;
    assert (2000 * c + 1064) * f == 2000 * cf + 1064 * f;
    assert c * (g - f) == c * g - cf && c * (f - g1) == cf - c * g1 && (c + 1) * g1 == c * g1 + g1;
  }

  lemma NearUpperArith(f: int, c: int, e: int, e1: int, ce: int, ce1: int)
    requires f >= OUT_MIN && c >= 1 && e >= 0 && e1 >= 0 && ce == c * e && ce1 == c * e1
    requires 2000 * ce <= 1064 * f && 2000 * (ce1 + e1) >= 936 * f
    ensures 117 * e <= 266 * e1
  {
    MulLe(1, c, e1);
    assert (266 * e1 + 1) * c == 266 * ce1 + c && (117 * e) * c == 117 * ce;
    if 117 * e > 266 * e1 {
      MulLe(266 * e1 + 1, 117 * e, c);
      assert false;
    }
  }

  /**
   The second reason a legal mode can be missed is the divider: a 10 MHz parent has a complete
   grid, yet for 440000 every pick is 600000, and c = 2 at the visited D = 1, F = 64 gives 320000.
   */
  lemma DividerMissesLegalMode(m: Mode)
    requires IsPick(440000, 10000, m)
    ensures AllRowsComplete(10000) && InGrid(10000, 1, 64) && OutFreq(10000, 1, 64, 2) == 320000
    ensures m.freq == 600000 && Distance(440000, 320000) < Err(440000, m)
  {
    DividingParentComplete(10000, 60);
    GridLegal(10000, m.maindiv, m.fbmult);
    TenMegahertzRow(60);
    TenMegahertzRow(m.fbmult);
    assert Beats(440000, 10000, m, 1, 60);
  }

  lemma TenMegahertzRow(fb: int)
    requires 60 <= fb <= 64
    ensures Candidate(440000, 10000, 1, fb) == Mode(10000 * fb, fb, 1, 1)
  {
  }

  /** The pick is as near as every mode the VCO and the dividers allow. */
  ghost predicate BestOfLegal(f: int, p: int, m: Mode) {
    forall d, fb, c :: LegalPair(p, d, fb) && 1 <= c <= 128 ==>
      Err(f, m) <= Distance(f, OutFreq(p, d, fb, c))
  }

  /** Some visited pair, with the divider the code computes for it, comes as near as `e`. */
  ghost predicate SomeVisitedWithin(f: int, p: int, e: int)
    requires f > 0
  {
    exists d, fb :: InGrid(p, d, fb) && Err(f, Candidate(f, p, d, fb)) <= e
  }

  /** The computed divider of a pair or a neighbour of it, within the divider's range. */
  predicate NearDivider(f: int, p: int, d: int, fb: int, c: int)
    requires d * f > 0
  {
    1 <= c <= 128 && Distance(ClkDiv(f, p, d, fb), c) <= 1
  }

  /** What the search could miss: pairs it does not visit, and neighbours of the dividers it computes. */
  ghost predicate NothingNearerMissed(f: int, p: int)
    requires f > 0
  {
    forall d, fb, c :: LegalPair(p, d, fb) && d * f > 0 && NearDivider(f, p, d, fb, c) ==>
      SomeVisitedWithin(f, p, Distance(f, OutFreq(p, d, fb, c)))
  }

  lemma VisitedWithin(freq: int, p: int, m: Mode, e: int)
    requires IsPick(freq, p, m)
    ensures SomeVisitedWithin(Target(freq), p, e) <==> Err(Target(freq), m) <= e
  {
    var f := Target(freq);
    if d, fb :| InGrid(p, d, fb) && Err(f, Candidate(f, p, d, fb)) <= e {
      assert Beats(f, p, m, d, fb);
    }
    assert InGrid(p, m.maindiv, m.fbmult) && m == Candidate(f, p, m.maindiv, m.fbmult);
  }

  /**
   The exact condition, for every request and parent clock: the pick is as near as every allowed
   mode if and only if each allowed pair, with the computed divider or one of its two neighbours,
   is matched by some candidate the search looks at.
   */
  lemma BestOfLegalIff(freq: int, p: int, m: Mode)
    requires IsPick(freq, p, m)
    ensures BestOfLegal(Target(freq), p, m) <==> NothingNearerMissed(Target(freq), p)
  {
    var f := Target(freq);
    GridLegal(p, m.maindiv, m.fbmult);
    if NothingNearerMissed(f, p) {
      forall d, fb, c | LegalPair(p, d, fb) && 1 <= c <= 128
        ensures Err(f, m) <= Distance(f, OutFreq(p, d, fb, c))
      {
        NearestOfThree(freq, p, m, d, fb, c);
      }
    }
    if BestOfLegal(f, p, m) {
      forall d, fb, c | LegalPair(p, d, fb) && d * f > 0 && NearDivider(f, p, d, fb, c)
        ensures SomeVisitedWithin(f, p, Distance(f, OutFreq(p, d, fb, c)))
      {
        VisitedWithin(freq, p, m, Distance(f, OutFreq(p, d, fb, c)));
      }
    }
  }

  lemma NearestOfThree(freq: int, p: int, m: Mode, d: int, fb: int, c: int)
    requires IsPick(freq, p, m) && NothingNearerMissed(Target(freq), p)
    requires LegalPair(p, d, fb) && 1 <= c <= 128
    ensures Err(Target(freq), m) <= Distance(Target(freq), OutFreq(p, d, fb, c))
  {
    var f := Target(freq);
    Positive(d, f);
    OnlyNeighbours(freq, p, d, fb, c);
    var c0 := ClkDiv(f, p, d, fb);
    var near := if c < c0 then c0 - 1 else if c > c0 then c0 + 1 else c0;
    assert NearDivider(f, p, d, fb, near);
    VisitedWithin(freq, p, m, Distance(f, OutFreq(p, d, fb, near)));
  }

  /** With a complete grid only the neighbours of the dividers the search computes are left to compare. */
  lemma BestOfCompleteIff(freq: int, p: int, m: Mode)
    requires IsPick(freq, p, m) && AllRowsComplete(p)
    ensures var f := Target(freq);
            BestOfLegal(f, p, m)
            <==> forall d, fb, c :: InGrid(p, d, fb) && d * f > 0 && NearDivider(f, p, d, fb, c) ==>
                   SomeVisitedWithin(f, p, Distance(f, OutFreq(p, d, fb, c)))
  {
    GridLegal(p, m.maindiv, m.fbmult);
    GridCompleteIff(p);
    BestOfLegalIff(freq, p, m);
  }

  // ---------------------------------------------------------------- the phase detector

  /** No visited pair is nearer to the target than D = 2, F = 2. */
  ghost predicate FirstPairNearest(f: int, p: int)
    requires f > 0
  {
    forall d, fb :: InGrid(p, d, fb) ==> Err(f, Candidate(f, p, 2, 2)) <= Err(f, Candidate(f, p, d, fb))
  }

  /**
   The pick exceeds the upper limit of the phase detector if and only if the parent clock is above
   twice that limit and no visited pair is nearer than the first one, D = 2 and F = 2.
   */
  lemma PfdExceededIff(freq: int, p: int, m: Mode)
    requires IsPick(freq, p, m)
    ensures p > 450000 * m.maindiv <==> p > 900000 && FirstPairNearest(Target(freq), p)
  {
    var f := Target(freq);
    GridLegal(p, m.maindiv, m.fbmult);
    if p > 900000 {
      FloorUnique(VCO_MAX, p, 1, VCO_MAX - p);
      FloorUnique(VCO_MIN + p - 1, p, 1, VCO_MIN - 1);
      assert InGrid(p, 2, 2);
      assert Beats(f, p, m, 2, 2);
    }
  }

  /** It happens: 500000 from a 1 GHz parent is met exactly with D = 2, at 500 MHz. */
  lemma PfdExceeded(m: Mode)
    requires IsPick(500000, 1000000, m)
    ensures m.maindiv == 2 && 1000000 > 450000 * m.maindiv
  {
    assert InGrid(1000000, 2, 2);
    assert Candidate(500000, 1000000, 2, 2) == Mode(500000, 2, 2, 2);
    assert Beats(500000, 1000000, m, 2, 2);
    GridLegal(1000000, m.maindiv, m.fbmult);
  }
}
