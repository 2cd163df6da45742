/**
 The mode search in the data sheet's numbers and without its formulas: which (D, F) pairs it looks
 at, which output divider it takes for a pair, and which of these modes it picks. The search of
 `MmcmSearch` is proved to find exactly this.
 */
module MmcmReference {

  datatype Mode = Mode(freq: int, fbmult: int, clkdiv: int, maindiv: int)

  /** The request, brought into the output range. */
  predicate Clamped(freq: int, f: int) {
    && 4000 <= f <= 800000
    && (freq <= 4000 ==> f == 4000) && (freq >= 800000 ==> f == 800000)
    && (4000 <= freq <= 800000 ==> f == freq)
  }

  /** The main dividers: a phase detector clock of at least 10 MHz, and D = 1 only up to 450 MHz. */
  predicate TriedDivider(p: int, d: int) {
    1 <= d <= 106 && 10000 * d <= p && (p > 450000 ==> d >= 2)
  }

  /** F is at least D times a whole multiplier that reaches 600 MHz. */
  predicate AtLeastWhole(p: int, d: int, fb: int, u: int) {
    600000 <= p * u && d * u <= fb
  }

  /** F is at most D times a whole multiplier that stays within 1200 MHz. */
  predicate AtMostWhole(p: int, d: int, fb: int, q: int) {
    p * q <= 1200000 && fb <= d * q
  }

  /** The visited pairs: F / D lies between two whole multipliers that the VCO allows. */
  ghost predicate Visited(p: int, d: int, fb: int) {
    && TriedDivider(p, d) && 2 <= fb <= 64
    && (exists u :: AtLeastWhole(p, d, fb, u)) && (exists q :: AtMostWhole(p, d, fb, q))
  }

  /** `q` is a / v rounded to the nearest whole number, ties upward. */
  predicate Nearest(a: int, v: int, q: int) {
    (2 * q - 1) * v <= 2 * a < (2 * q + 1) * v
  }

  /** The output divider, through a ratio rounded to thousandths: not quite the nearest one. */
  predicate DividerVia(f: int, p: int, d: int, fb: int, ratio: int, raw: int, c: int) {
    && Nearest(1000 * p, d * f, ratio) && Nearest(ratio * fb, 1000, raw)
    && c == if raw > 128 then 128 else if raw < 1 then 1 else raw
  }

  /** The output frequency in whole kHz: P * F / (D * c), rounded down. */
  predicate Outputs(p: int, d: int, fb: int, c: int, g: int) {
    g * (d * c) <= p * fb < (g + 1) * (d * c)
  }

  ghost predicate IsCandidate(f: int, p: int, m: Mode) {
    && Visited(p, m.maindiv, m.fbmult)
    && (exists ratio, raw :: DividerVia(f, p, m.maindiv, m.fbmult, ratio, raw, m.clkdiv))
    && Outputs(p, m.maindiv, m.fbmult, m.clkdiv, m.freq)
  }

  function Distance(f: int, g: int): nat {
    if g >= f then g - f else f - g
  }

  /** The order in which pairs are visited. */
  predicate Earlier(m: Mode, m': Mode) {
    m.maindiv < m'.maindiv || (m.maindiv == m'.maindiv && m.fbmult < m'.fbmult)
  }

  /** A candidate that none is nearer than, and none as near is earlier than. */
  ghost predicate IsReferencePick(freq: int, p: int, m: Mode) {
    exists f :: Clamped(freq, f) && IsCandidate(f, p, m)
                && forall m' :: IsCandidate(f, p, m') ==>
                     && Distance(f, m.freq) <= Distance(f, m'.freq)
                     && (Earlier(m', m) ==> Distance(f, m.freq) < Distance(f, m'.freq))
  }
}
