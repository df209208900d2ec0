// Tick-to-nanosecond conversion without intermediates wider than 64 bits.

module Clock {
  import opened Words

  const TWO_TO_THE_32: nat := 0x1_0000_0000

  function Mul64(a: nat, b: nat): nat { (a * b) % TWO_TO_THE_64 }

  // The bits of a value from position n up.
  function Top(value: nat, n: nat): nat {
    if n == 0 then value else Top(value, n - 1) / 2
  }

  predicate Bit(value: nat, n: nat) {
    Top(value, n) % 2 == 1
  }

  function Quotient(n: nat, d: nat): (q: nat)
    requires d > 0
  {
    n / d
  }

  // One addition modulo the divisor, as the program does it: the 64-bit sum may have wrapped.
  method AddMod(a: nat, b: nat, divisor: nat, quotient: nat) returns (r: nat, q: nat)
    requires a < divisor < TWO_TO_THE_64 && b < divisor && quotient + 1 < TWO_TO_THE_64
    ensures r < divisor
    ensures (q == quotient && r == a + b) || (q == quotient + 1 && r + divisor == a + b)
  {
    var sum := Add64(a, b);
    if sum < a || sum >= divisor {
      q := Add64(quotient, 1);
      r := Sub64(sum, divisor);
    } else {
      q := quotient;
      r := sum;
    }
  }

  // quotient and remainder of value * top by the divisor.
  ghost predicate Divided(value: nat, top: nat, divisor: nat, quotient: nat, remainder: nat) {
    remainder < divisor && quotient * divisor + remainder == value * top
  }

  // One turn of the loop: doubles the number of bits taken so far and adds the next one.
  method TakeBit(value: nat, multiplier: nat, divisor: nat, bit: nat, quotient: nat, remainder: nat)
    returns (q: nat, r: nat)
    requires value < divisor < TWO_TO_THE_64 && multiplier < TWO_TO_THE_32
    requires Divided(value, Top(multiplier, bit + 1), divisor, quotient, remainder)
    ensures Divided(value, Top(multiplier, bit), divisor, q, r)
  {
    ghost var top := Top(multiplier, bit + 1);
    TopIsSmall(multiplier, bit + 1, TWO_TO_THE_32);
    QuotientBound(quotient, divisor, remainder, value, top);
    NextBit(multiplier, bit);
    q := Mul64(quotient, 2);
    assert q == 2 * quotient;
    r, q := AddMod(remainder, remainder, divisor, q);
    Double(value, top, divisor, quotient, remainder, q, r);
    if Bit(multiplier, bit) {
      ghost var doubled, rest := q, r;
      r, q := AddMod(r, value, divisor, q);
      AddOne(value, 2 * top, divisor, doubled, rest, q, r);
    }
  }

  // value * multiplier / divisor, bit by bit from the top. For every 64-bit value below the divisor
  // and every 32-bit multiplier the wrapping arithmetic yields the exact floor.
  method MulDivFraction(value: nat, multiplier: nat, divisor: nat) returns (quotient: nat)
    requires value < divisor < TWO_TO_THE_64 && multiplier < TWO_TO_THE_32
    ensures quotient == Quotient(value * multiplier, divisor)
  {
    quotient := 0;
    var remainder: nat := 0;
    ThirtyTwoBits(multiplier);
    var bit := 31;
    while bit >= 0
      invariant -1 <= bit <= 31
      invariant Divided(value, Top(multiplier, bit + 1), divisor, quotient, remainder)
    {
      quotient, remainder := TakeBit(value, multiplier, divisor, bit, quotient, remainder);
      bit := bit - 1;
    }
    FloorIsUnique(value * multiplier, divisor, quotient, remainder);
  }

  lemma {:induction false} NextBit(m: nat, bit: nat)
    ensures Top(m, bit) == 2 * Top(m, bit + 1) + if Bit(m, bit) then 1 else 0
  {
  }

  lemma {:induction false} TopIsSmall(m: nat, n: nat, bound: nat)
    requires m < bound
    ensures Top(m, n) < bound
  {
    if n > 0 { TopIsSmall(m, n - 1, bound); }
  }

  lemma {:induction false} ThirtyTwoBits(m: nat)
    requires m < TWO_TO_THE_32
    ensures Top(m, 32) == 0
  {
    EightBits(m, 0, 16777216);
    EightBits(m, 8, 65536);
    EightBits(m, 16, 256);
    EightBits(m, 24, 1);
  }

  lemma {:induction false} EightBits(m: nat, n: nat, bound: nat)
    requires Top(m, n) < 256 * bound
    ensures Top(m, n + 8) < bound
  {
    assert Top(m, n + 2) < 64 * bound;
    assert Top(m, n + 4) < 16 * bound;
    assert Top(m, n + 6) < 4 * bound;
  }

  lemma {:induction false} MulMonotone(a: nat, b: nat, c: nat)
    requires a <= b
    ensures a * c <= b * c
  {
  }

  lemma {:induction false} FloorIsUnique(n: nat, d: nat, q: nat, r: nat)
    requires r < d && n == q * d + r
    ensures Quotient(n, d) == q
  {
    var k := Quotient(n, d);
    assert n == k * d + n % d;
    assert k < q ==> (k + 1) * d <= q * d by { if k < q { MulMonotone(k + 1, q, d); } }
    assert q < k ==> (q + 1) * d <= k * d by { if q < k { MulMonotone(q + 1, k, d); } }
  }

  lemma {:induction false} Double(value: nat, top: nat, divisor: nat, quotient: nat, remainder: nat, q: nat, r: nat)
    requires Divided(value, top, divisor, quotient, remainder) && r < divisor
    requires (q == 2 * quotient && r == 2 * remainder) || (q == 2 * quotient + 1 && r + divisor == 2 * remainder)
    ensures Divided(value, 2 * top, divisor, q, r)
  {
    assert value * (2 * top) == 2 * (value * top);
    assert (2 * quotient) * divisor == 2 * (quotient * divisor);
    assert (2 * quotient + 1) * divisor == 2 * (quotient * divisor) + divisor;
  }

  lemma {:induction false} AddOne(value: nat, top: nat, divisor: nat, quotient: nat, remainder: nat, q: nat, r: nat)
    requires Divided(value, top, divisor, quotient, remainder) && r < divisor
    requires (q == quotient && r == remainder + value) || (q == quotient + 1 && r + divisor == remainder + value)
    ensures Divided(value, top + 1, divisor, q, r)
  {
    assert value * (top + 1) == value * top + value;
    assert (quotient + 1) * divisor == quotient * divisor + divisor;
  }

  lemma {:induction false} QuotientBound(quotient: nat, divisor: nat, remainder: nat, value: nat, top: nat)
    requires value < divisor && quotient * divisor + remainder == value * top
    ensures quotient <= top
  {
    assert quotient > top ==> (top + 1) * divisor <= quotient * divisor by {
      if quotient > top { MulMonotone(top + 1, quotient, divisor); }
    }
    MulMonotone(value, divisor, top);
    assert (top + 1) * divisor == divisor * top + divisor;
  }

  // ----- the clock -----

  // The number of whole nanoseconds in a tick count, unbounded.
  function ExactNs(ticks: nat, frequency: nat): nat
    requires frequency > 0
  {
    Quotient(ticks * NS_PER_SECOND, frequency)
  }

  function ClockNs(ticks: nat, frequency: nat): nat {
    if frequency == 0 then 0 else ExactNs(ticks, frequency) % TWO_TO_THE_64
  }

  // A missing counter or a zero frequency reads as 0.
  method MonotonicNs(frequency: nat, counter: nat, available: bool) returns (ns: nat)
    requires frequency < TWO_TO_THE_64 && counter < TWO_TO_THE_64
    ensures ns == if available then ClockNs(counter, frequency) else 0
    ensures !available || frequency == 0 ==> ns == 0
  {
    if !available || frequency == 0 { return 0; }
    var wholeSeconds := Quotient(counter, frequency);
    var fractionalTicks := counter % frequency;
    var fraction := MulDivFraction(fractionalTicks, NS_PER_SECOND, frequency);
    ns := Add64(Mul64(wholeSeconds, NS_PER_SECOND), fraction);
    SecondsPlusFraction(counter, frequency);
    WrapTwice(wholeSeconds * NS_PER_SECOND, fraction);
  }

  lemma {:induction false} DivMod(n: nat, d: nat)
    requires d > 0
    ensures n == Quotient(n, d) * d + n % d && n % d < d
  {
  }

  lemma {:induction false} Scaled(w: nat, f: nat, r: nat, c: nat, k: nat)
    ensures (w * f + r) * c == w * c * f + r * c
    ensures (w * c + k) * f == w * c * f + k * f
  {
  }

  lemma {:induction false} SecondsPlusFraction(ticks: nat, f: nat)
    requires f > 0
    ensures ExactNs(ticks, f) == Quotient(ticks, f) * NS_PER_SECOND + Quotient(ticks % f * NS_PER_SECOND, f)
  {
    var w, x := Quotient(ticks, f), ticks % f * NS_PER_SECOND;
    var k, r := Quotient(x, f), x % f;
    DivMod(ticks, f);
    DivMod(x, f);
    Scaled(w, f, ticks % f, NS_PER_SECOND, k);
    FloorIsUnique(ticks * NS_PER_SECOND, f, w * NS_PER_SECOND + k, r);
  }

  lemma {:induction false} WrapTwice(a: nat, b: nat)
    ensures (a % TWO_TO_THE_64 + b) % TWO_TO_THE_64 == (a + b) % TWO_TO_THE_64
  {
  }

  lemma {:induction false} FloorIsMonotone(a: nat, b: nat, d: nat)
    requires d > 0 && a <= b
    ensures Quotient(a, d) <= Quotient(b, d)
  {
    var q, p := Quotient(a, d), Quotient(b, d);
    DivMod(a, d);
    DivMod(b, d);
    assert p < q ==> (p + 1) * d <= q * d by { if p < q { MulMonotone(p + 1, q, d); } }
  }

  // The reading is the exact nanosecond count precisely when that count fits 64 bits, and as long as
  // it does the clock never runs backwards.
  lemma {:induction false} ClockIsExactWhileItFits(ticks: nat, frequency: nat)
    requires frequency > 0
    ensures ClockNs(ticks, frequency) == ExactNs(ticks, frequency)
       <==> ExactNs(ticks, frequency) < 18_446_744_073_709_551_616
  {
  }

  // As many ticks as the counter makes in a second are a thousand million nanoseconds, and so for any
  // number of seconds.
  lemma {:induction false} WholeSeconds(seconds: nat, frequency: nat)
    requires frequency > 0
    ensures ExactNs(seconds * frequency, frequency) == seconds * 1_000_000_000
  {
    var ns := seconds * NS_PER_SECOND;
    assert seconds * frequency * NS_PER_SECOND == ns * frequency;
    FloorIsUnique(seconds * frequency * NS_PER_SECOND, frequency, ns, 0);
  }

  lemma {:induction false} OneTickMore(ticks: nat, frequency: nat)
    requires frequency > 0
    ensures ExactNs(ticks, frequency) <= ExactNs(ticks + 1, frequency) <= ExactNs(ticks, frequency) + NS_PER_SECOND
  {
    var before, now := ExactNs(ticks, frequency), ExactNs(ticks + 1, frequency);
    var bound := before + NS_PER_SECOND + 1;
    FloorIsMonotone(ticks * NS_PER_SECOND, (ticks + 1) * NS_PER_SECOND, frequency);
    DivMod(ticks * NS_PER_SECOND, frequency);
    DivMod((ticks + 1) * NS_PER_SECOND, frequency);
    Distribute(before, NS_PER_SECOND + 1, frequency);
    MulMonotone(1, frequency, NS_PER_SECOND);
    assert now >= bound ==> bound * frequency <= now * frequency by {
      if now >= bound { MulMonotone(bound, now, frequency); }
    }
  }

  lemma {:induction false} Distribute(a: nat, b: nat, c: nat)
    ensures (a + b) * c == a * c + b * c
  {
  }

  lemma {:induction false} NoTicksNoTime(frequency: nat)
    requires frequency > 0
    ensures ExactNs(0, frequency) == 0
  {
    FloorIsUnique(0, frequency, 0, 0);
  }

  // The tick at which the count first leaves 64 bits.
  lemma {:induction false} FirstBeyond(later: nat, frequency: nat) returns (ticks: nat)
    requires frequency > 0 && ExactNs(later, frequency) >= TWO_TO_THE_64
    ensures ticks < later && ExactNs(ticks, frequency) < TWO_TO_THE_64 <= ExactNs(ticks + 1, frequency)
  {
    NoTicksNoTime(frequency);
    ticks := later - 1;
    if ExactNs(ticks, frequency) >= TWO_TO_THE_64 { ticks := FirstBeyond(ticks, frequency); }
  }

  ghost predicate NeverBackwards(later: nat, frequency: nat) {
    forall a: nat, b: nat | a <= b <= later :: ClockNs(a, frequency) <= ClockNs(b, frequency)
  }

  lemma {:induction false} WrapsAtMostOnce(n: nat)
    requires n < 2 * TWO_TO_THE_64
    ensures n % TWO_TO_THE_64 == if n < TWO_TO_THE_64 then n else n - TWO_TO_THE_64
  {
  }

  lemma {:induction false} OrderedWhileItFits(a: nat, b: nat, later: nat, frequency: nat)
    requires frequency > 0 && a <= b <= later && ExactNs(later, frequency) < TWO_TO_THE_64
    ensures ClockNs(a, frequency) <= ClockNs(b, frequency)
  {
    FloorIsMonotone(a * NS_PER_SECOND, b * NS_PER_SECOND, frequency);
    FloorIsMonotone(b * NS_PER_SECOND, later * NS_PER_SECOND, frequency);
    WrapsAtMostOnce(ExactNs(a, frequency));
    WrapsAtMostOnce(ExactNs(b, frequency));
  }

  lemma {:induction false} BackwardsBeyond(later: nat, frequency: nat) returns (ticks: nat)
    requires frequency > 0 && ExactNs(later, frequency) >= TWO_TO_THE_64
    ensures ticks < later && ClockNs(ticks + 1, frequency) < ClockNs(ticks, frequency)
  {
    ticks := FirstBeyond(later, frequency);
    OneTickMore(ticks, frequency);
    WrapsAtMostOnce(ExactNs(ticks, frequency));
    WrapsAtMostOnce(ExactNs(ticks + 1, frequency));
  }

  // Up to a tick the clock never runs backwards if and only if that tick's count fits 64 bits.
  lemma {:induction false} ClockIsMonotoneIffItFits(later: nat, frequency: nat)
    requires frequency > 0
    ensures NeverBackwards(later, frequency) <==> ExactNs(later, frequency) < TWO_TO_THE_64
  {
    if ExactNs(later, frequency) < TWO_TO_THE_64 {
      forall a: nat, b: nat | a <= b <= later ensures ClockNs(a, frequency) <= ClockNs(b, frequency) {
        OrderedWhileItFits(a, b, later, frequency);
      }
    } else {
      var ticks := BackwardsBeyond(later, frequency);
    }
  }
}
