/**
 The dynamic-reconfiguration registers of the MMCM: how the driver encodes a mode in six
 32-bit words, and how the hardware reads the divider fields back. Divide ratios are numbers,
 register contents are bit vectors.
 */
module MmcmRegisters {

  const ERR_CLKCOUNTCALC: bv32 := 0xFFFF_FFFF
  const ERR_CLKDIVIDER: bv32 := 0x3000
  const DIV_1_REGMASK: bv32 := 0x1041
  const EINVAL := 22

  datatype Regs = Regs(clk0L: bv32, clkFBL: bv32, clkFBHclk0H: bv32, divclk: bv32, lockL: bv32, fltrLockH: bv32)

  predicate Fits40(x: bv64) {
    x & 0xFF_FFFF_FFFF == x
  }

  predicate Fits10(x: bv32) {
    x & 0x3FF == x
  }

  /** The lock (40-bit) and filter (10-bit) constants, indexed by feedback multiplier minus one. */
  datatype Tables = Tables(lock: seq<bv64>, filter: seq<bv32>) {
    ghost predicate Valid() {
      && |lock| == 64 && |filter| == 64
      && (forall i :: 0 <= i < 64 ==> Fits40(lock[i]))
      && (forall i :: 0 <= i < 64 ==> Fits10(filter[i]))
    }
  }

  // ---------------------------------------------------------------- the encoding

  /** The divider register for a ratio that is in range. */
  function DividerBits(divide: bv32): bv32 {
    if divide == 1 then DIV_1_REGMASK else
      var highTime := divide / 2;
      var odd := divide & 1 != 0;
      var lowTime := if odd then highTime + 1 else highTime;
      (if odd then 1 << 13 else 0) | (0x03F & lowTime) | (0xFC0 & (highTime << 6))
  }

  /** The count register from a divider register: the edge and no-count bits move up by ten. */
  function CountBits(divCalc: bv32): bv32 {
    (0xFFF & divCalc) | ((divCalc << 10) & 0x00C0_0000)
  }

  // ---------------------------------------------------------------- the hardware's reading

  /** A six-bit counter field; zero counts 64. */
  function Count6(x: bv32): bv32 {
    if x & 0x3F == 0 then 64 else x & 0x3F
  }

  /** How many input periods the output stays low, and high, in one period. */
  function LowTime(r: bv32): nat {
    Count6(r) as nat
  }

  function HighTime(r: bv32): nat {
    Count6(r >> 6) as nat
  }

  /**
   A divider or counter word divides by `n` with equal half periods: it is the word that bypasses
   the counter for one, and otherwise the low and high times are the halves of `n`, the longer one
   low, with the edge bit, half an input period, exactly for odd `n`; no other bit is set.
   */
  predicate Divides(r: bv32, n: nat, bypass: bv32, noCount: bv32, edge: bv32) {
    if n == 1 then r == bypass
    else
      && LowTime(r) == (n + 1) / 2 && HighTime(r) == n / 2
      && r & noCount == 0 && (r & edge != 0 <==> n % 2 == 1) && r & !(0xFFF | edge) == 0
  }

  /** The layout of the main divider: no-count in bit 12, edge in bit 13. */
  predicate DividerHolds(r: bv32, n: nat) {
    Divides(r, n, 0x1041, 0x1000, 0x2000)
  }

  /** The layout of the counters: no-count in bit 22, edge in bit 23. */
  predicate CounterHolds(r: bv32, n: nat) {
    Divides(r, n, 0x0040_0041, 0x0040_0000, 0x0080_0000)
  }

  /** No word divides by two different ratios. */
  lemma DividesUnique(r: bv32, n: nat, n': nat)
    requires n >= 1 && n' >= 1
    ensures DividerHolds(r, n) && DividerHolds(r, n') ==> n == n'
    ensures CounterHolds(r, n) && CounterHolds(r, n') ==> n == n'
  {
  }

  /** The 40-bit lock constant as the hardware joins it from two registers. */
  function JoinLock(fltrLockH: bv32, lockL: bv32): bv64 {
    (((fltrLockH & 0xFF) as bv64) << 32) | (lockL as bv64)
  }

  function FilterField(fltrLockH: bv32): bv32 {
    (fltrLockH >> 16) & 0x3FF
  }

  // ---------------------------------------------------------------- numbers and words

  lemma WordSuccessor(x: bv32)
    requires x as int < 128
    ensures (x + 1) as int == x as int + 1
  {
  }

  /** A small number as a 32-bit word. */
  function Word(n: nat): bv32
    requires n <= 128
  {
    if n == 0 then 0 else Word(n - 1) + 1
  }

  lemma {:induction false} WordValue(n: nat)
    requires n <= 128
    ensures Word(n) as int == n
  {
    if n > 0 {
      WordValue(n - 1);
      WordSuccessor(Word(n - 1));
    }
  }

  /** Comparing small words is comparing numbers. */
  lemma SmallWord(x: bv32)
    ensures x as int <= 126 ==> x <= 126
    ensures 2 <= x as int <= 128 ==> 2 <= x <= 128
  {
  }

  lemma ParityStep(n: nat, x: bv32, y: bv32)
    requires y == x + 1 && (x & 1 != 0 <==> n % 2 == 1)
    ensures y & 1 != 0 <==> (n + 1) % 2 == 1
  {
  }

  lemma WordStep(n: nat)
    requires n < 128
    ensures Word(n + 1) == Word(n) + 1
  {
  }

  lemma {:induction false} WordParity(n: nat)
    requires n <= 128
    ensures Word(n) & 1 != 0 <==> n % 2 == 1
  {
    if n > 0 {
      WordParity(n - 1);
      WordStep(n - 1);
      ParityStep(n - 1, Word(n - 1), Word(n));
    }
  }

  lemma HalfStep(x: bv32, x1: bv32, x2: bv32, h: bv32, h1: bv32)
    requires x <= 126 && x1 == x + 1 && x2 == x1 + 1 && h1 == h + 1 && x / 2 == h
    ensures x2 / 2 == h1
  {
  }

  /** Halving a word halves the number. */
  lemma {:induction false} HalfWord(n: nat)
    requires n <= 128
    ensures Word(n) / 2 == Word(n / 2)
  {
    if n >= 2 {
      var h := n / 2 - 1;
      assert (n - 2) / 2 == h;
      HalfWord(n - 2);
      WordStep(n - 2);
      WordStep(n - 1);
      WordStep(h);
      WordValue(n - 2);
      SmallWord(Word(n - 2));
      HalfStep(Word(n - 2), Word(n - 1), Word(n), Word(h), Word(h + 1));
    }
  }

  /** The two halves in their fields, the edge bit for odd ratios, and nothing else. */
  predicate FieldsHold(r: bv32, low: bv32, high: bv32, odd: bool, noCount: bv32, edge: bv32) {
    && Count6(r) == low && Count6(r >> 6) == high
    && r & noCount == 0 && (r & edge != 0 <==> odd) && r & !(0xFFF | edge) == 0
  }

  /** The fields of an encoded ratio `x` with halves `low` and `high`, in both layouts. */
  lemma BitFields(x: bv32, low: bv32, high: bv32)
    requires 2 <= x <= 128 && high == x / 2 && low == (if x & 1 != 0 then high + 1 else high)
    ensures FieldsHold(DividerBits(x), low, high, x & 1 != 0, 0x1000, 0x2000)
    ensures FieldsHold(CountBits(DividerBits(x)), low, high, x & 1 != 0, 0x0040_0000, 0x0080_0000)
  {
  }

  /** Fields that hold the halves as words hold them as numbers. */
  lemma FieldsDivide(r: bv32, n: nat, low: bv32, high: bv32, bypass: bv32, noCount: bv32, edge: bv32)
    requires n >= 2 && low as int == (n + 1) / 2 && high as int == n / 2
    requires FieldsHold(r, low, high, n % 2 == 1, noCount, edge)
    ensures Divides(r, n, bypass, noCount, edge)
  {
  }

  /** Encoding a ratio gives words that divide by it, and neither is the error value. */
  lemma BitsRoundTrip(n: nat)
    requires 1 <= n <= 128
    ensures DividerHolds(DividerBits(Word(n)), n) && CounterHolds(CountBits(DividerBits(Word(n))), n)
    ensures DividerBits(Word(n)) != 0x3000 && CountBits(DividerBits(Word(n))) != 0xFFFF_FFFF
  {
    NotErrors(Word(n));
    if n >= 2 {
      WordFields(n);
      WordsDivide(DividerBits(Word(n)), n, 0x1041, 0x1000, 0x2000);
      WordsDivide(CountBits(DividerBits(Word(n))), n, 0x0040_0041, 0x0040_0000, 0x0080_0000);
    }
  }

  lemma WordRange(n: nat)
    requires 2 <= n <= 128
    ensures 2 <= Word(n) <= 128
  {
    WordValue(n);
    SmallWord(Word(n));
  }

  /** The fields of an encoded number are the words of its halves. */
  lemma WordFields(n: nat)
    requires 2 <= n <= 128
    ensures var low, high := Word((n + 1) / 2), Word(n / 2);
            && FieldsHold(DividerBits(Word(n)), low, high, n % 2 == 1, 0x1000, 0x2000)
            && FieldsHold(CountBits(DividerBits(Word(n))), low, high, n % 2 == 1, 0x0040_0000, 0x0080_0000)
  {
    WordParity(n);
    HalfWord(n);
    UpperHalf(n);
    WordRange(n);
    BitFields(Word(n), Word((n + 1) / 2), Word(n / 2));
  }

  lemma WordsDivide(r: bv32, n: nat, bypass: bv32, noCount: bv32, edge: bv32)
    requires 2 <= n <= 128 && FieldsHold(r, Word((n + 1) / 2), Word(n / 2), n % 2 == 1, noCount, edge)
    ensures Divides(r, n, bypass, noCount, edge)
  {
    WordValue((n + 1) / 2);
    WordValue(n / 2);
    FieldsDivide(r, n, Word((n + 1) / 2), Word(n / 2), bypass, noCount, edge);
  }

  /** The longer half is one more than the other exactly for odd numbers. */
  lemma UpperHalf(n: nat)
    requires 2 <= n <= 128
    ensures Word((n + 1) / 2) == if n % 2 == 1 then Word(n / 2) + 1 else Word(n / 2)
  {
  }

  lemma NotErrors(x: bv32)
    ensures DividerBits(x) != 0x3000 && CountBits(DividerBits(x)) != 0xFFFF_FFFF
  {
  }

  /** The divider register: the error value exactly outside 1..128, else a word that divides by the ratio. */
  method Divider(divide: nat) returns (w: bv32)
    ensures w == 0x3000 <==> !(1 <= divide <= 128)
    ensures 1 <= divide <= 128 ==> w == DividerBits(Word(divide)) && DividerHolds(w, divide)
  {
    if divide < 1 || divide > 128 {
      return ERR_CLKDIVIDER;
    }
    w := DividerBits(Word(divide));
    BitsRoundTrip(divide);
  }

  /** The counter register, with the same guarantees. */
  method CountCalc(divide: nat) returns (w: bv32)
    ensures w == 0xFFFF_FFFF <==> !(1 <= divide <= 128)
    ensures 1 <= divide <= 128 ==> CounterHolds(w, divide)
  {
    var divCalc := Divider(divide);
    if divCalc == ERR_CLKDIVIDER {
      return ERR_CLKCOUNTCALC;
    }
    w := CountBits(divCalc);
    BitsRoundTrip(divide);
  }

  function LockLow(lock: bv64): bv32 {
    (lock & 0xFFFF_FFFF) as bv32
  }

  function LockHigh(lock: bv64): bv32 {
    ((lock >> 32) & 0xFF) as bv32
  }

  function WithFilter(high: bv32, filter: bv32): bv32 {
    high | ((filter << 16) & 0x03FF_0000)
  }

  lemma LockSplit(lock: bv64)
    requires Fits40(lock)
    ensures LockHigh(lock) & 0xFF == LockHigh(lock)
    ensures JoinLock(LockHigh(lock), LockLow(lock)) == lock
  {
  }

  /** The filter constant and the high lock bits share a register without touching each other. */
  lemma FilterMerge(high: bv32, low: bv32, filter: bv32)
    requires high & 0xFF == high && Fits10(filter)
    ensures JoinLock(WithFilter(high, filter), low) == JoinLock(high, low)
    ensures FilterField(WithFilter(high, filter)) == filter
    ensures WithFilter(high, filter) & 0xFC00_FF00 == 0
  {
  }

  /** The two words carry these lock and filter constants and nothing else. */
  predicate TablesHold(fltrLockH: bv32, lockL: bv32, lock: bv64, filter: bv32) {
    JoinLock(fltrLockH, lockL) == lock && FilterField(fltrLockH) == filter && fltrLockH & 0xFC00_FF00 == 0
  }

  /** The two words that carry the lock and filter constants. */
  method TableWords(lock: bv64, filter: bv32) returns (lockL: bv32, fltrLockH: bv32)
    requires Fits40(lock) && Fits10(filter)
    ensures TablesHold(fltrLockH, lockL, lock, filter)
  {
    lockL := LockLow(lock);
    fltrLockH := WithFilter(LockHigh(lock), filter);
    LockSplit(lock);
    FilterMerge(LockHigh(lock), lockL, filter);
  }

  /** The hardware reads these dividers and the matching table constants out of the registers. */
  ghost predicate Programs(r: Regs, fbmult: nat, clkdiv: nat, maindiv: nat, t: Tables)
    requires t.Valid()
  {
    && CounterHolds(r.clk0L, clkdiv) && CounterHolds(r.clkFBL, fbmult) && DividerHolds(r.divclk, maindiv)
    && r.clkFBHclk0H == 0
    && 1 <= fbmult <= 64
    && TablesHold(r.fltrLockH, r.lockL, t.lock[fbmult - 1], t.filter[fbmult - 1])
  }

  /**
   Fills the register image for a mode. It fails exactly when a divider is out of range: a bad
   feedback multiplier leaves the caller's struct as it was, a bad output divider leaves an error
   value in its field, a bad main divider comes after the counters. Otherwise the hardware reads the
   mode and its lock and filter constants back.
   */
  method FindReg(init: Regs, fbmult: nat, clkdiv: nat, maindiv: nat, t: Tables) returns (ret: int, regs: Regs)
    requires t.Valid()
    ensures ret == 0 || ret == -22
    ensures ret == 0 <==> 2 <= fbmult <= 64 && 1 <= clkdiv <= 128 && 1 <= maindiv <= 128
    ensures ret == 0 ==> Programs(regs, fbmult, clkdiv, maindiv, t)
    ensures !(2 <= fbmult <= 64) ==> regs == init
    ensures 2 <= fbmult <= 64 && !(1 <= clkdiv <= 128) ==> regs == init.(clk0L := 0xFFFF_FFFF)
    ensures 2 <= fbmult <= 64 && 1 <= clkdiv <= 128 && !(1 <= maindiv <= 128) ==>
              && CounterHolds(regs.clk0L, clkdiv) && CounterHolds(regs.clkFBL, fbmult)
              && regs == init.(clk0L := regs.clk0L, clkFBL := regs.clkFBL, clkFBHclk0H := 0, divclk := 0x3000)
  {
    regs := init;
    if fbmult < 2 || fbmult > 64 {
      return -EINVAL, regs;
    }
    var clk0L := CountCalc(clkdiv);
    regs := regs.(clk0L := clk0L);
    if regs.clk0L == ERR_CLKCOUNTCALC {
      return -EINVAL, regs;
    }
    var clkFBL := CountCalc(fbmult);
    regs := regs.(clkFBL := clkFBL);
    if regs.clkFBL == ERR_CLKCOUNTCALC {
      return -EINVAL, regs;
    }
    regs := regs.(clkFBHclk0H := 0);
    var divclk := Divider(maindiv);
    regs := regs.(divclk := divclk);
    if regs.divclk == ERR_CLKDIVIDER {
      return -EINVAL, regs;
    }
    var lockL, fltrLockH := TableWords(t.lock[fbmult - 1], t.filter[fbmult - 1]);
    regs := regs.(lockL := lockL, fltrLockH := fltrLockH);
    ret := 0;
  }
}
