// The arithmetic of main/led.c: the search for a timer resolution and divider, and the duty value.
// The source's 32-bit wrap-around is written out.

module PwmDivider {

  const UINT32 := 0x1_0000_0000
  const DIV_MAX := 0x3FFFF  // LEDC_TIMER_DIV_NUM_MAX

  function Pow2(n: nat): (p: nat)
    ensures p > 0
  {
    if n == 0 then 1 else 2 * Pow2(n - 1)
  }

  lemma {:induction false} Pow2Monotone(m: nat, n: nat)
    requires m <= n
    ensures Pow2(m) <= Pow2(n)
    decreases n
  {
    if m < n {
      Pow2Monotone(m, n - 1);
    }
  }

  lemma Pow2Small()
    ensures Pow2(4) == 16 && Pow2(14) == 16384
  {
    assert Pow2(3) == 8 && Pow2(8) == 32 * Pow2(3) && Pow2(13) == 32 * Pow2(8);
  }

  datatype Setting = Found(bits: nat, div: nat) | TooFast | NoSetting

  /** The period the search works with: period * prescaler, shifted left by 8, in 32 bits. */
  function Shifted(period: nat, prescaler: nat): nat {
    period * prescaler % UINT32 * 256 % UINT32
  }

  lemma ModIs(x: int, q: int, r: int)
    requires x == q * UINT32 + r && 0 <= r < UINT32
    ensures x % UINT32 == r
  {
  }

  /** The shift drops the top byte: the search sees the period modulo 2^24. */
  lemma ShiftDropsTopByte(d: nat)
    ensures d % UINT32 * 256 % UINT32 == d % 0x100_0000 * 256
  {
    var q, r := d / 0x100_0000, d % 0x100_0000;
    var low := q % 256 * 0x100_0000 + r;
    assert d == q * 0x100_0000 + r && q == q / 256 * 256 + q % 256;
    ModIs(d, q / 256, low);
    ModIs(low * 256, q % 256, r * 256);
  }

  lemma ShiftedIs(period: nat, prescaler: nat)
    ensures Shifted(period, prescaler) == period * prescaler % 0x100_0000 * 256
  {
    ShiftDropsTopByte(period * prescaler);
  }

  /** bits is the finest resolution, at least 4 and below bitMax, that a period of w cycles allows. */
  ghost predicate Finest(bits: nat, w: nat, bitMax: nat) {
    && 4 <= bits < bitMax && Pow2(bits) <= w
    && forall b :: bits < b < bitMax ==> w < Pow2(b)
  }

  lemma MulMonotone(a: nat, b: nat, p: nat)
    requires a <= b
    ensures a * p <= b * p
  {
  }

  lemma DivBelow(a: nat, p: nat, k: nat)
    requires p > 0 && a < k * p
    ensures a / p < k
  {
    assert a / p * p + a % p == a;
    if a / p >= k {
      MulMonotone(k, a / p, p);
    }
  }

  lemma DivAtLeast(a: nat, p: nat, k: nat)
    requires p > 0 && a >= k * p
    ensures a / p >= k
  {
    assert a / p * p + a % p == a;
    if a / p < k {
      MulMonotone(a / p + 1, k, p);
    }
  }

  /** 2^bits cycles fit in w cycles exactly when the divider is at least 1.0 (256 in 8.8 fixed point). */
  lemma DivAtLeastOne(w: nat, p: nat)
    requires p > 0
    ensures w * 256 / p >= 256 <==> p <= w
  {
    if p <= w {
      DivAtLeast(w * 256, p, 256);
    } else {
      DivBelow(w * 256, p, 256);
    }
  }

  /** The divider never exceeds what the register holds, and is below 2.0 unless the resolution is the
      finest there is. */
  lemma DivInRange(bits: nat, w: nat, bitMax: nat)
    requires Finest(bits, w, bitMax) && w < 0x100_0000 && bitMax >= 15
    ensures 256 <= w * 256 / Pow2(bits) <= 0x3FFFF
    ensures bits < bitMax - 1 ==> w * 256 / Pow2(bits) < 512
  {
    DivAtLeastOne(w, Pow2(bits));
    if bits < bitMax - 1 {
      assert w < Pow2(bits + 1) == 2 * Pow2(bits);
      DivBelow(w * 256, Pow2(bits), 512);
    } else {
      Pow2Small();
      Pow2Monotone(14, bits);
      assert w * 256 < 0x4_0000 * 16384 <= 0x4_0000 * Pow2(bits);
      DivBelow(w * 256, Pow2(bits), 0x4_0000);
    }
  }

  /** The search loop of jd_pwm_init: the finest resolution with a divider of at least 1.0. It fails
      exactly for periods that are below 16 cycles modulo 2^24, and never finds the period too fast. */
  method Search(period: nat, prescaler: nat, bitMax: nat) returns (s: Setting)
    requires bitMax >= 15
    ensures var w := period * prescaler % 0x100_0000;
            if w < 16 then s == NoSetting
            else s.Found? && Finest(s.bits, w, bitMax) && s.div == w * 256 / Pow2(s.bits)
                 && 256 <= s.div <= 0x3FFFF && (s.bits < bitMax - 1 ==> s.div < 512)
  {
    ShiftedIs(period, prescaler);
    ghost var w := period * prescaler % 0x100_0000;
    Pow2Small();
    var bits := bitMax - 1;
    while bits >= 4
      invariant 3 <= bits < bitMax
      invariant forall b :: bits < b < bitMax ==> w < Pow2(b)
    {
      var div := Shifted(period, prescaler) / Pow2(bits);
      DivAtLeastOne(w, Pow2(bits));
      if div >= 256 {
        Pow2Monotone(4, bits);
        DivInRange(bits, w, bitMax);
        if div > DIV_MAX {
          return TooFast;
        }
        return Found(bits, div);
      }
      bits := bits - 1;
    }
    assert w < Pow2(4);
    return NoSetting;
  }

  /** What the search computes, as a function. */
  ghost function Choose(period: nat, prescaler: nat, bitMax: nat): (s: Setting)
    requires bitMax >= 15
    ensures s.Found? <==> period * prescaler % 0x100_0000 >= 16
  {
    var w := period * prescaler % 0x100_0000;
    if w < 16 then NoSetting
    else
      FinestExists(w, bitMax);
      var bits: nat :| Finest(bits, w, bitMax);
      Found(bits, w * 256 / Pow2(bits))
  }

  lemma FinestExists(w: nat, bitMax: nat)
    requires w >= 16 && bitMax >= 15
    ensures exists bits: nat :: Finest(bits, w, bitMax)
  {
    Pow2Small();
    var bits := bitMax - 1;
    while w < Pow2(bits)
      invariant 4 <= bits < bitMax
      invariant forall b :: bits < b < bitMax ==> w < Pow2(b)
    {
      assert bits > 4;
      bits := bits - 1;
    }
    assert Finest(bits, w, bitMax);
  }

  lemma FinestIsUnique(a: nat, b: nat, w: nat, bitMax: nat)
    requires Finest(a, w, bitMax) && Finest(b, w, bitMax)
    ensures a == b
  {
  }

  /** The programmed period, div * 2^bits / 256 cycles, in 256ths of a cycle. */
  function Programmed(s: Setting): nat
    requires s.Found?
  {
    s.div * Pow2(s.bits)
  }

  /** The timer's period falls short of the requested one by less than 1/256, and never exceeds it,
      exactly when the request is between 16 and 2^24 cycles. */
  lemma PeriodIsAccurateIff(period: nat, prescaler: nat, bitMax: nat)
    requires bitMax >= 15
    ensures var requested := period * prescaler;
            var s := Choose(period, prescaler, bitMax);
            (s.Found? && Programmed(s) <= 256 * requested < Programmed(s) + requested)
            <==> 16 <= requested < 0x100_0000
  {
    var requested := period * prescaler;
    var w := requested % 0x100_0000;
    var s := Choose(period, prescaler, bitMax);
    if s.Found? {
      var p := Pow2(s.bits);
      assert w * 256 / p * p + w * 256 % p == w * 256;
      assert requested == requested / 0x100_0000 * 0x100_0000 + w;
      if requested >= 0x100_0000 {
        assert Programmed(s) <= 256 * w;
      }
    }
  }

  // ---- duty ----

  /** jd_pwm_set_duty: the value programmed for a request, with the 32-bit product. */
  function Duty(bits: nat, period: nat, request: nat): (d: nat)
    requires period > 0
    ensures d < Pow2(bits)
  {
    var d := Pow2(bits) * request % UINT32 / period;
    if d >= Pow2(bits) then Pow2(bits) - 1 else d
  }

  lemma QuotientIs(a: nat, p: nat)
    requires p > 0
    ensures a / p * p <= a < (a / p + 1) * p
  {
    assert a == a / p * p + a % p;
  }

  /** The duty is the share of the period, rounded down, of a product modulo 2^32, or the maximum where that is less. */
  lemma DutyIs(bits: nat, period: nat, request: nat)
    requires period > 0
    ensures var d, product := Duty(bits, period, request), Pow2(bits) * request % 0x1_0000_0000;
            && d * period <= product
            && (product < (d + 1) * period || d == Pow2(bits) - 1)
  {
    var d, product := Duty(bits, period, request), Pow2(bits) * request % 0x1_0000_0000;
    QuotientIs(product, period);
    MulMonotone(d, product / period, period);
  }

  lemma DivMonotone(a: nat, b: nat, p: nat)
    requires a <= b && p > 0
    ensures a / p <= b / p
  {
    DivBelow(a, p, b / p + 1);
  }

  lemma DutyUnwrapped(bits: nat, period: nat, request: nat)
    requires period > 0 && Pow2(bits) * request < UINT32
    ensures var d := Pow2(bits) * request / period;
            Duty(bits, period, request) == if d >= Pow2(bits) then Pow2(bits) - 1 else d
  {
    var product := Pow2(bits) * request;
    assert product % UINT32 == product;
  }

  lemma {:induction false} Pow2Splits(bits: nat, n: nat)
    requires bits <= n
    ensures Pow2(bits) * Pow2(n - bits) == Pow2(n)
    decreases n
  {
    if bits < n {
      Pow2Splits(bits, n - 1);
      assert Pow2(n - bits) == 2 * Pow2(n - 1 - bits);
    }
  }

  lemma Pow2Of32()
    ensures Pow2(32) == UINT32
  {
    assert Pow2(8) == 256 && Pow2(16) == 256 * Pow2(8) && Pow2(24) == 256 * Pow2(16) && Pow2(32) == 256 * Pow2(24);
  }

  /** The first request whose product does not fit 32 bits. */
  function FirstWrap(bits: nat): (r: nat)
    requires bits <= 32
    ensures r > 0 && Pow2(bits) * r == UINT32
  {
    Pow2Splits(bits, 32);
    Pow2Of32();
    Pow2(32 - bits)
  }

  lemma MulLess(p: nat, r: nat, w: nat)
    requires r < w
    ensures p * r + p <= p * w
  {
    assert p * w == p * r + p * (w - r);
    MulMonotone(1, w - r, p);
  }

  lemma WrapsFrom(bits: nat, request: nat)
    requires bits <= 32
    ensures Pow2(bits) * request >= UINT32 <==> request >= FirstWrap(bits)
  {
    var p, w := Pow2(bits), FirstWrap(bits);
    if request < w {
      MulLess(p, request, w);
    } else if w < request {
      MulLess(p, w, request);
    }
  }

  /** There the programmed duty drops to 0, whatever the period. */
  lemma DutyWraps(bits: nat, period: nat)
    requires bits <= 32 && period > 0
    ensures Duty(bits, period, FirstWrap(bits)) == 0
  {
    assert 0 / period == 0;
  }

  /** The quotient that decides: d is at least 1 once capped below by p, where p is at least 2. */
  lemma CappedQuotient(product: nat, p: nat, period: nat)
    requires p >= 2 && period > 0
    ensures var d := product / period; (if d >= p then p - 1 else d) >= 1 <==> product >= period
  {
    if product >= period {
      DivAtLeast(product, period, 1);
    } else {
      DivBelow(product, period, 1);
    }
  }

  lemma ProductBefore(p: nat, w: nat)
    requires w > 0
    ensures p * (w - 1) == p * w - p && p <= p * w
  {
    MulMonotone(1, w, p);
  }

  lemma DutyAboveZero(bits: nat, period: nat, request: nat, product: nat)
    requires period > 0 && Pow2(bits) >= 2 && product == Pow2(bits) * request < UINT32
    ensures Duty(bits, period, request) >= 1 <==> product >= period
  {
    DutyUnwrapped(bits, period, request);
    CappedQuotient(product, Pow2(bits), period);
  }

  /** Just before, it is above 0 unless the period exceeds every product that fits. */
  lemma DutyBeforeWrap(bits: nat, period: nat)
    requires 1 <= bits <= 32 && period > 0
    ensures Duty(bits, period, FirstWrap(bits) - 1) >= 1 <==> Pow2(bits) + period <= UINT32
  {
    var p, w := Pow2(bits), FirstWrap(bits);
    ProductBefore(p, w);
    Pow2Monotone(1, bits);
    DutyAboveZero(bits, period, w - 1, UINT32 - p);
  }

  /** A product modulo 2^32 is at most the last multiple of p below 2^32. */
  lemma ModOfMultiple(p: nat, w: nat, request: nat)
    requires p > 0 && w > 0 && p * w == UINT32
    ensures p * request % UINT32 <= UINT32 - p
  {
    var q, r := request / w, request % w;
    assert request == q * w + r;
    assert p * request == p * (q * w) + p * r;
    assert p * (q * w) == q * (p * w);
    MulLess(p, r, w);
    ModIs(p * request, q, p * r);
  }

  /** A longer period programs duty 0 for every request. */
  lemma LongPeriodIsSilent(bits: nat, period: nat, request: nat)
    requires bits <= 32 && period > 0 && Pow2(bits) + period > UINT32
    ensures Duty(bits, period, request) == 0
  {
    ModOfMultiple(Pow2(bits), FirstWrap(bits), request);
    DivBelow(Pow2(bits) * request % UINT32, period, 1);
  }

  /** As long as the product fits in 32 bits, the programmed duty grows with the request. */
  lemma DutyIsMonotone(bits: nat, period: nat, a: nat, b: nat)
    requires period > 0 && a <= b && Pow2(bits) * b < UINT32
    ensures Duty(bits, period, a) <= Duty(bits, period, b)
  {
    MulMonotone(a, b, Pow2(bits));
    DutyUnwrapped(bits, period, a);
    DutyUnwrapped(bits, period, b);
    DivMonotone(Pow2(bits) * a, Pow2(bits) * b, period);
  }

  ghost predicate MonotoneUpTo(bits: nat, period: nat, b: nat)
    requires period > 0
  {
    forall a: nat, c: nat :: a <= c <= b ==> Duty(bits, period, a) <= Duty(bits, period, c)
  }

  lemma DutyFallsAtWrap(bits: nat, period: nat)
    requires 1 <= bits <= 32 && period > 0 && Pow2(bits) + period <= UINT32
    ensures Duty(bits, period, FirstWrap(bits) - 1) > Duty(bits, period, FirstWrap(bits))
  {
    DutyWraps(bits, period);
    DutyBeforeWrap(bits, period);
  }

  lemma ShortEnough(bits: nat, period: nat, b: nat)
    requires period > 0 && Pow2(bits) * b < UINT32
    ensures MonotoneUpTo(bits, period, b)
  {
    forall a: nat, c: nat | a <= c <= b ensures Duty(bits, period, a) <= Duty(bits, period, c) {
      MulMonotone(c, b, Pow2(bits));
      DutyIsMonotone(bits, period, a, c);
    }
  }

  lemma AlwaysSilent(bits: nat, period: nat, b: nat)
    requires bits <= 32 && period > 0 && Pow2(bits) + period > UINT32
    ensures MonotoneUpTo(bits, period, b)
  {
    forall a: nat, c: nat | a <= c <= b ensures Duty(bits, period, a) <= Duty(bits, period, c) {
      LongPeriodIsSilent(bits, period, a);
    }
  }

  /** The programmed duty grows with the request up to b exactly when the product for b fits in 32 bits, or the
      period is so long that the duty is always 0. */
  lemma DutyIsMonotoneIff(bits: nat, period: nat, b: nat)
    requires 1 <= bits <= 32 && period > 0
    ensures MonotoneUpTo(bits, period, b) <==> Pow2(bits) * b < UINT32 || Pow2(bits) + period > UINT32
  {
    if Pow2(bits) * b < UINT32 {
      ShortEnough(bits, period, b);
    } else if Pow2(bits) + period > UINT32 {
      AlwaysSilent(bits, period, b);
    } else {
      WrapsFrom(bits, b);
      DutyFallsAtWrap(bits, period);
      assert FirstWrap(bits) - 1 <= FirstWrap(bits) <= b;
    }
  }

  /** The duty is the maximum exactly when the product, in 32 bits, reaches one step below the whole period. */
  lemma DutySaturatesIff(bits: nat, period: nat, request: nat)
    requires period > 0
    ensures Duty(bits, period, request) == Pow2(bits) - 1
            <==> Pow2(bits) * request % UINT32 >= (Pow2(bits) - 1) * period
  {
    var product, top := Pow2(bits) * request % UINT32, Pow2(bits) - 1;
    if product >= top * period {
      DivAtLeast(product, period, top);
    } else {
      DivBelow(product, period, top);
    }
  }

  lemma DutySaturates(bits: nat, period: nat, request: nat)
    requires period > 0 && Pow2(bits) * request < UINT32 && request >= period
    ensures Duty(bits, period, request) == Pow2(bits) - 1
  {
    DutySaturatesIff(bits, period, request);
    MulMonotone(period, request, Pow2(bits));
    MulMonotone(Pow2(bits) - 1, Pow2(bits), period);
  }

  /** A request of the whole period falls short of the maximum once its product wraps. */
  lemma WholePeriodWraps(p: nat, period: nat)
    requires p > 0 && 0 < period < UINT32 && p * period >= UINT32
    ensures p * period % UINT32 < (p - 1) * period
  {
    var x := p * period;
    assert (p - 1) * period == x - period;
    assert x == x / UINT32 * UINT32 + x % UINT32;
    DivAtLeast(x, UINT32, 1);
  }

  /** Every request from the whole period up to b programs the maximum exactly when the product for b fits in 32
      bits. */
  lemma DutySaturatesUpToIff(bits: nat, period: nat, b: nat)
    requires 1 <= bits <= 32 && 0 < period <= b && period < UINT32
    ensures (forall request: nat :: period <= request <= b ==> Duty(bits, period, request) == Pow2(bits) - 1)
            <==> Pow2(bits) * b < UINT32
  {
    Pow2Monotone(1, bits);
    if Pow2(bits) * b < UINT32 {
      forall request: nat | period <= request <= b ensures Duty(bits, period, request) == Pow2(bits) - 1 {
        MulMonotone(request, b, Pow2(bits));
        DutySaturates(bits, period, request);
      }
    } else if period < FirstWrap(bits) {
      WrapsFrom(bits, b);
      DutyWraps(bits, period);
      assert period <= FirstWrap(bits) <= b && Duty(bits, period, FirstWrap(bits)) != Pow2(bits) - 1;
    } else {
      WrapsFrom(bits, period);
      WholePeriodWraps(Pow2(bits), period);
      DutySaturatesIff(bits, period, period);
      assert period <= period <= b;
    }
  }
}
