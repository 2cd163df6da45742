/**
 The clock device as the clock framework drives it: round_rate, set_rate and recalc_rate, in Hz.
 The stored rate and the six registers are fields of the device.
 */
module Dynclk {
  import opened MmcmReference
  import opened MmcmSearch
  import opened MmcmLimits
  import opened MmcmOutput
  import opened MmcmRegisters

  /** A request in Hz, in the search's unit (KHz times the factor five of the BUFR). */
  function ToKHz5(rate: nat): nat {
    (rate + 100) / 200
  }

  function ParentKHz(parentRate: nat): nat {
    (parentRate + 500) / 1000
  }

  /** Both conversions round to the nearest whole unit, ties upward. */
  lemma UnitsNearest(rate: nat, k: int)
    ensures Nearest(rate, 200, k) <==> k == ToKHz5(rate)
    ensures Nearest(rate, 1000, k) <==> k == ParentKHz(rate)
  {
    NearestUnique(rate, 200, k);
    NearestUnique(rate, 1000, k);
  }

  /** So no other whole unit is nearer to the rate. */
  lemma UnitsClosest(rate: nat, k: int)
    ensures Distance(rate, 200 * ToKHz5(rate)) <= Distance(rate, 200 * k)
    ensures Distance(rate, 1000 * ParentKHz(rate)) <= Distance(rate, 1000 * k)
  {
    UnitsNearest(rate, ToKHz5(rate));
    UnitsNearest(rate, ParentKHz(rate));
    NearestClosest(rate, 200, ToKHz5(rate), k);
    NearestClosest(rate, 1000, ParentKHz(rate), k);
  }

  /** The parent rates, in Hz, from which the search finds a mode. */
  predicate Usable(parentRate: nat) {
    9_999_500 <= parentRate < 1_200_000_500
  }

  /**
   What a rounded rate is, without the formulas: 200 Hz times the reference's pick for the nearest
   units of request and parent clock, or zero if the parent clock is unusable.
   */
  ghost predicate RoundsTo(rate: nat, parentRate: nat, r: int) {
    if Usable(parentRate) then exists f, p, m :: RoundsToMode(rate, parentRate, f, p, m) && r == m.freq * 200
    else r == 0
  }

  ghost predicate RoundsToMode(rate: nat, parentRate: nat, f: int, p: int, m: Mode) {
    Nearest(rate, 200, f) && Nearest(parentRate, 1000, p) && IsReferencePick(f, p, m)
  }

  lemma UsableIff(parentRate: nat)
    ensures Usable(parentRate) <==> Feasible(ParentKHz(parentRate))
  {
  }

  /** The rounded rate is exactly that. */
  lemma RoundHzIsReference(rate: nat, parentRate: nat, r: int)
    ensures r == RoundHz(rate, parentRate) <==> RoundsTo(rate, parentRate, r)
  {
    var f, p := ToKHz5(rate), ParentKHz(parentRate);
    UsableIff(parentRate);
    if Feasible(p) {
      var best := Best(f, p);
      PickIsReference(f, p, best);
      UnitsNearest(rate, f);
      UnitsNearest(parentRate, p);
      assert RoundsToMode(rate, parentRate, f, p, best);
      forall f', p', m | RoundsToMode(rate, parentRate, f', p', m)
        ensures m == best
      {
        UnitsNearest(rate, f');
        UnitsNearest(parentRate, p');
        PickIsReference(f, p, m);
        PickUnique(f, p, m, best);
      }
    }
  }

  /** The rate the driver would give for a request: zero when no mode exists. */
  ghost function RoundHz(rate: nat, parentRate: nat): (r: nat)
    ensures r == 0 <==> !Feasible(ParentKHz(parentRate))
    ensures r < TWO32
  {
    RoundedRange(ToKHz5(rate), ParentKHz(parentRate));
    Rounded(ToKHz5(rate), ParentKHz(parentRate)) * 200
  }

  lemma RoundedRange(f: int, p: int)
    ensures 0 <= Rounded(f, p) <= VCO_MAX && (Rounded(f, p) == 0 <==> !Feasible(p))
  {
    if Feasible(p) {
      PickLegal(f, p, Best(f, p));
    }
  }

  /** Rounding a rounded rate changes nothing: for every request and parent clock in Hz. */
  lemma RoundRateIdempotent(rate: nat, parentRate: nat)
    ensures RoundHz(RoundHz(rate, parentRate), parentRate) == RoundHz(rate, parentRate)
  {
    RoundedTwice(ToKHz5(rate), ParentKHz(parentRate));
    RoundedRange(ToKHz5(rate), ParentKHz(parentRate));
    UnitsRoundTrip(Rounded(ToKHz5(rate), ParentKHz(parentRate)));
  }

  lemma UnitsRoundTrip(g: nat)
    ensures ToKHz5(g * 200) == g && ParentKHz(g * 1000) == g
  {
  }

  /** The rate of a pick is one that round_rate leaves alone. */
  lemma BestRateFixed(f: int, p: int)
    requires Feasible(p)
    ensures Best(f, p).freq > 0 && RoundHz(Best(f, p).freq * 200, p * 1000) == Best(f, p).freq * 200
  {
    var g := Best(f, p).freq;
    PickLegal(f, p, Best(f, p));
    RoundedTwice(f, p);
    UnitsRoundTrip(g);
    UnitsRoundTrip(p);
    assert Rounded(f, p) == g && Rounded(g, p) == g;
  }

  class Device {
    var freq: nat
    var ctrl: bv32
    var regs: Regs
    const tables: Tables

    /** The state after probe: no rate set, output disabled. */
    constructor (tables: Tables)
      requires tables.Valid()
      ensures Valid() && freq == 0 && ctrl == 0 && this.tables == tables
    {
      this.tables := tables;
      freq, ctrl := 0, 0;
      regs := Regs(0, 0, 0, 0, 0, 0);
    }

    /** The hardware is programmed with a mode that produces the stored rate from this parent. */
    ghost predicate Realises(p: nat, m: Mode)
      requires tables.Valid()
      reads this
    {
      && m.fbmult >= 0 && m.clkdiv > 0 && m.maindiv > 0
      && Programs(regs, m.fbmult, m.clkdiv, m.maindiv, tables)
      && m.maindiv * m.clkdiv > 0
      && freq == p * m.fbmult / (m.maindiv * m.clkdiv) * 200
    }

    /** What every operation keeps: a stored rate is the one the registers produce from some parent clock. */
    ghost predicate Valid()
      reads this
    {
      tables.Valid() && (freq != 0 ==> exists f, p :: Programmed(f, p))
    }

    /** The registers hold the pick for request `f` from parent clock `p`, and the stored rate is its rate. */
    ghost predicate Programmed(f: int, p: int)
      requires tables.Valid()
      reads this
    {
      Feasible(p) && Realises(p, Best(f, p)) && freq == Best(f, p).freq * 200
    }

    method Enable()
      modifies `ctrl
      ensures ctrl == if freq != 0 then 1 else old(ctrl)
    {
      if freq != 0 {
        ctrl := 1;
      }
    }

    method Disable()
      modifies `ctrl
      ensures ctrl == 0
    {
      ctrl := 0;
    }

    method WriteReg(r: Regs)
      modifies `regs
      ensures regs == r
    {
      regs := regs.(clk0L := r.clk0L);
      regs := regs.(clkFBL := r.clkFBL);
      regs := regs.(clkFBHclk0H := r.clkFBHclk0H);
      regs := regs.(divclk := r.divclk);
      regs := regs.(lockL := r.lockL);
      regs := regs.(fltrLockH := r.fltrLockH);
    }

    method RoundRate(rate: nat, parentRate: nat) returns (r: nat)
      requires rate + 100 < 0x1_0000_0000 && parentRate + 500 < 0x1_0000_0000
      ensures r == RoundHz(rate, parentRate) && RoundsTo(rate, parentRate, r)
    {
      RoundHzIsReference(rate, parentRate, RoundHz(rate, parentRate));
      var uninitialised: Mode := *;
      var f, p := ToKHz5(rate), ParentKHz(parentRate);
      var found, clkMode := FindMode(f, p, uninitialised);
      if Feasible(p) {
        PickUnique(f, p, clkMode, Best(f, p));
        PickLegal(f, p, clkMode);
      }
      r := Mul32(clkMode.freq, 200);
    }

    /**
     recalc_rate. It ignores the parent clock, so what it reports is the rate of the parent that
     was given when the registers were programmed: exactly floor(P*F/(D*c)) * 200 of that mode.
     */
    method RecalcRate() returns (r: nat)
      requires Valid()
      ensures r == freq
      ensures r != 0 ==> exists f, p :: Programmed(f, p) && r == RoundHz(r, p * 1000)
    {
      if f, p :| freq != 0 && Programmed(f, p) {
        BestRateFixed(f, p);
      }
      r := freq;
    }

    /** The hardware holds the reference's pick for this request and parent rate, and it gives the stored rate. */
    ghost predicate SetFor(rate: nat, parentRate: nat)
      requires tables.Valid()
      reads this
    {
      exists f, p, m :: RoundsToMode(rate, parentRate, f, p, m) && Realises(p, m)
    }

    lemma Reprogrammed(rate: nat, parentRate: nat, f: int, p: int, m: Mode)
      requires tables.Valid() && f == ToKHz5(rate) && p == ParentKHz(parentRate)
      requires IsPick(f, p, m) && Realises(p, m)
      ensures SetFor(rate, parentRate)
    {
      UnitsNearest(rate, f);
      UnitsNearest(parentRate, p);
      PickIsReference(f, p, m);
      assert RoundsToMode(rate, parentRate, f, p, m);
    }

    /**
     set_rate. A zero argument or an unusable parent clock is refused and changes nothing; the
     stored rate is accepted without touching the hardware; otherwise the registers are left
     decoding to a mode that gives the stored rate, which is what round_rate promises, and the
     output is on. The register fill cannot fail here, so ignoring its result is harmless.
     */
    method SetRate(rate: nat, parentRate: nat) returns (ret: int)
      requires Valid()
      requires rate + 100 < 0x1_0000_0000 && parentRate + 500 < 0x1_0000_0000
      modifies this
      ensures Valid()
      ensures ret == (if rate == 0 || parentRate == 0 || (rate != old(freq) && !Usable(parentRate)) then -22 else 0)
      ensures (ret, freq) == SetRateSpec(old(freq), rate, parentRate)
      ensures ret != 0 || rate == old(freq) ==> unchanged(this)
      ensures ret == 0 && rate != old(freq) ==>
              freq == RoundHz(rate, parentRate) && freq != 0 && ctrl == 1
              && RoundsTo(rate, parentRate, freq) && SetFor(rate, parentRate)
    {
      UsableIff(parentRate);
      if parentRate == 0 || rate == 0 {
        return -EINVAL;
      }
      if rate == freq {
        return 0;
      }
      var uninitialised: Mode := *;
      var f, p := ToKHz5(rate), ParentKHz(parentRate);
      var found, clkMode := FindMode(f, p, uninitialised);
      if found == 0 {
        return -EINVAL;
      }
      PickUnique(f, p, clkMode, Best(f, p));
      PickLegal(f, p, clkMode);
      var garbage: Regs := *;
      var filled, clkReg := FindReg(garbage, clkMode.fbmult, clkMode.clkdiv, clkMode.maindiv, tables);
      assert filled == 0;
      WriteReg(clkReg);
      freq := Mul32(clkMode.freq, 200);
      Disable();
      Enable();
      assert Programmed(f, p);
      Reprogrammed(rate, parentRate, f, p, clkMode);
      RoundHzIsReference(rate, parentRate, freq);
      ret := 0;
    }
  }

  /** What set_rate returns and stores, as a function of the stored rate and the arguments. */
  ghost function SetRateSpec(freq: nat, rate: nat, parentRate: nat): (int, nat) {
    if parentRate == 0 || rate == 0 then (-EINVAL, freq)
    else if rate == freq then (0, freq)
    else if !Feasible(ParentKHz(parentRate)) then (-EINVAL, freq)
    else (0, RoundHz(rate, parentRate))
  }

  /** The stored rate after a run of set_rate calls with one parent clock, from probe. */
  ghost function RunRates(rates: seq<nat>, parentRate: nat): nat {
    if rates == [] then 0
    else SetRateSpec(RunRates(rates[..|rates| - 1], parentRate), rates[|rates| - 1], parentRate).1
  }

  lemma {:induction false} RunRounded(rates: seq<nat>, parentRate: nat)
    ensures var f := RunRates(rates, parentRate);
            f == 0 || (Feasible(ParentKHz(parentRate)) && RoundHz(f, parentRate) == f)
  {
    if rates != [] {
      RunRounded(rates[..|rates| - 1], parentRate);
      RoundRateIdempotent(rates[|rates| - 1], parentRate);
    }
  }

  /**
   Under one parent clock, whatever was set before: a set_rate succeeds exactly when both
   arguments are nonzero and the parent is usable, and then the stored rate is what round_rate
   says, also on the path that skips the reprogramming.
   */
  lemma SetMatchesRound(rates: seq<nat>, rate: nat, parentRate: nat)
    ensures var (ret, freq) := SetRateSpec(RunRates(rates, parentRate), rate, parentRate);
            && (ret == 0 <==> rate != 0 && parentRate != 0 && Feasible(ParentKHz(parentRate)))
            && (ret == 0 ==> freq == RoundHz(rate, parentRate))
  {
    RunRounded(rates, parentRate);
  }

  /**
   A rate that a parent clock rounds to itself, told from the grid: a multiple of 200 Hz that some
   visited (D, F) and some output divider give exactly, or, for a grid that exceeds the output
   maximum, the least visited VCO frequency above it.
   */
  ghost predicate FixedRate(rate: nat, p: int) {
    var g := rate / 200;
    rate % 200 == 0 && Feasible(p) && if g <= OUT_MAX then Produces(p, g) else GridExceeds(p) && LeastHigh(p, g)
  }

  lemma FixedRateIff(rate: nat, parentRate: nat)
    requires rate != 0
    ensures RoundHz(rate, parentRate) == rate <==> FixedRate(rate, ParentKHz(parentRate))
  {
    var g, p := rate / 200, ParentKHz(parentRate);
    RoundedRange(ToKHz5(rate), p);
    if Feasible(p) && rate % 200 == 0 {
      UnitsRoundTrip(g);
      FixedFrequencyIff(g, p);
    }
  }

  lemma FixedFrequencyIff(g: int, p: int)
    requires Feasible(p)
    ensures Rounded(g, p) == g <==> if g <= OUT_MAX then Produces(p, g) else GridExceeds(p) && LeastHigh(p, g)
  {
    if g > OUT_MAX {
      assert IsPick(OUT_MAX, p, Best(g, p));
      PickUnique(OUT_MAX, p, Best(g, p), Best(OUT_MAX, p));
      GridExceedsIff(p);
      if GridExceeds(p) {
        HighIsLeast(p);
      }
    } else if g >= OUT_MIN {
      FixedPoint(g, p);
    } else {
      PickLegal(g, p, Best(g, p));
      if Produces(p, g) {
        ProducedRange(p, g);
      }
    }
  }

  /** Even with the largest output divider nothing below 4687 can be produced. */
  lemma ProducedRange(p: int, g: int)
    requires Produces(p, g)
    ensures g > OUT_MIN
  {
    var d, fb, c :| InGrid(p, d, fb) && 1 <= c <= 128 && OutFreq(p, d, fb, c) == g;
    VcoBand(p, d, fb);
    QuotientFloor(p * fb / d, c);
  }

  lemma QuotientFloor(w: int, c: int)
    requires w >= VCO_MIN && 1 <= c <= 128
    ensures w / c > OUT_MIN
  {
    FloorBounds(w, c);
    var g := w / c;
    assert (g + 1) * c == c * g + c;
    if g <= OUT_MIN {
      MulLe(g + 1, OUT_MIN + 1, c);
      assert false;
    }
  }

  /**
   When the parent clock may have changed since the rate was stored, a successful set_rate need not
   leave the rounded rate. It does if and only if the request differs from the stored rate or is a
   rate the new parent clock can produce.
   */
  lemma SetMatchesRoundIff(freq: nat, rate: nat, parentRate: nat)
    requires SetRateSpec(freq, rate, parentRate).0 == 0
    ensures SetRateSpec(freq, rate, parentRate).1 == RoundHz(rate, parentRate)
            <==> rate != freq || FixedRate(rate, ParentKHz(parentRate))
  {
    FixedRateIff(rate, parentRate);
  }

  /** A stored rate is accepted again even from a 1 kHz parent, for which no mode exists. */
  lemma StaleRateAccepted()
    ensures var f := SetRateSpec(0, 25_000_000, 100_000_000).1;
            f != 0 && SetRateSpec(f, f, 1000) == (0, f) && RoundHz(f, 1000) == 0
  {
  }
}
