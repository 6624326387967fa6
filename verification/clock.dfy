/**
 The bus clock divisor (setFrequency). The peripheral clock F_CPU is a
 parameter; the arithmetic is C's unsigned 32-bit arithmetic, with the
 result stored into the eight-bit baud register.
 */
module Clock {
  import opened TwiTypes

  const Two32 := 0x1_0000_0000

  /** Rise time, in nanoseconds, of the speed profile a frequency selects.
      Only 400 kHz and 1 MHz have their own profile; every other value,
      100 kHz included, takes the 1000 ns one. */
  function RiseTime(frequency: uint32): uint16 {
    if frequency == 400000 then 300
    else if frequency == 1000000 then 120
    else 1000
  }

  /** Peripheral clock cycles taken by the rise time: F_CPU/1000000 * t_rise / 1000. */
  function RiseCycles(fcpu: uint32, frequency: uint32): nat {
    (fcpu / 1000000) * RiseTime(frequency) / 1000
  }

  /** The signed value of the divisor expression before unsigned wrap-around. */
  function RawDivisor(fcpu: uint32, frequency: uint32): int
    requires frequency > 0
  {
    fcpu / frequency - RiseCycles(fcpu, frequency) - 10
  }

  /** The value setFrequency writes to the baud register: the divisor is
      computed in uint32 (a negative difference wraps modulo 2^32), halved,
      and truncated to its low eight bits. */
  function Baud(fcpu: uint32, frequency: uint32): (b: byte)
    requires frequency > 0
  {
    Register(RawDivisor(fcpu, frequency))
  }

  /** uint32 wrap-around, halving, then truncation to eight bits. */
  function Register(raw: int): byte {
    var wrapped: uint32 := raw % Two32;
    (wrapped / 2) % 0x100
  }

  /** The product F_CPU/1000000 * t_rise never exceeds 32 bits, so the
      rise-cycle term is computed without wrap-around. */
  lemma RiseCyclesFit(fcpu: uint32, frequency: uint32)
    ensures (fcpu / 1000000) * RiseTime(frequency) < Two32
    ensures RiseCycles(fcpu, frequency) <= 4294
  {
    var q := fcpu / 1000000;
    assert q <= 4294;
    assert q * RiseTime(frequency) <= 4294 * 1000;
  }

  /** In the register's range the stored divisor inverts the bus period
      formula: the requested frequency times (10 + 2*baud + rise cycles)
      lies within one peripheral clock period pair of F_CPU, i.e. the bus
      runs at the requested frequency up to the rounding of two divisions. */
  lemma BaudInvertsPeriod(fcpu: uint32, frequency: uint32)
    requires frequency > 0
    requires 0 <= RawDivisor(fcpu, frequency) < 512
    ensures var b := Baud(fcpu, frequency);
            var rise := RiseCycles(fcpu, frequency);
            && 2 * b == RawDivisor(fcpu, frequency) - RawDivisor(fcpu, frequency) % 2
            && frequency * (10 + 2 * b + rise) <= fcpu < frequency * (12 + 2 * b + rise)
  {
    var raw := RawDivisor(fcpu, frequency);
    var rise := RiseCycles(fcpu, frequency);
    var ticks := fcpu / frequency;
    RegisterInRange(raw);
    var b := raw / 2;
    assert 10 + 2 * b + rise <= ticks < 12 + 2 * b + rise;
    QuotientBounds(fcpu, frequency);
    MulMonotone(frequency, 10 + 2 * b + rise, ticks);
    MulMonotone(frequency, ticks + 1, 12 + 2 * b + rise);
  }

  lemma RegisterInRange(raw: int)
    requires 0 <= raw < 512
    ensures Register(raw) == raw / 2
    ensures 2 * (raw / 2) == raw - raw % 2
  {
    assert raw % Two32 == raw;
  }

  lemma QuotientBounds(n: nat, k: nat)
    requires k > 0
    ensures k * (n / k) <= n < k * (n / k + 1)
  {
    assert n == k * (n / k) + n % k;
  }

  lemma MulMonotone(k: nat, x: int, y: int)
    requires x <= y
    ensures k * x <= k * y
  {
    assert k * y - k * x == k * (y - x);
  }

  /** Below the register's range the uint32 subtraction wraps: the value
      written is taken from 2^32 plus the negative difference. At the clock
      rates the part supports (F_CPU at most 20 MHz) the difference is at
      least -30, so the register receives 0xF1 or more, the slowest divisors
      there are, instead of the fastest. */
  lemma BaudWrapsWhenNegative(fcpu: uint32, frequency: uint32)
    requires frequency > 0
    requires RawDivisor(fcpu, frequency) < 0
    ensures Baud(fcpu, frequency) == ((Two32 + RawDivisor(fcpu, frequency)) / 2) % 0x100
    ensures fcpu <= 20000000 ==> Baud(fcpu, frequency) >= 0xF1
  {
    var raw := RawDivisor(fcpu, frequency);
    RiseCyclesFit(fcpu, frequency);
    var ticks := fcpu / frequency;
    assert ticks >= 0;
    assert raw == ticks - RiseCycles(fcpu, frequency) - 10;
    assert -Two32 <= raw;
    RegisterOfNegative(raw);
    if fcpu <= 20000000 {
      RiseCyclesAtMostMegahertz(fcpu, frequency);
      RegisterOfSmallNegative(raw);
    }
  }

  /** The rise time is at most 1000 ns, so it takes at most one cycle per MHz. */
  lemma RiseCyclesAtMostMegahertz(fcpu: uint32, frequency: uint32)
    ensures RiseCycles(fcpu, frequency) <= fcpu / 1000000
  {
    var q := fcpu / 1000000;
    MulMonotone(q, RiseTime(frequency), 1000);
    assert q * 1000 / 1000 == q;
  }

  lemma RegisterOfSmallNegative(x: int)
    requires -30 <= x < 0
    ensures Register(x) >= 0xF1
  {
    RegisterOfNegative(x);
    assert (Two32 + x) / 2 == 0x7FFF_FF00 + (0x200 + x) / 2;
  }

  lemma RegisterOfNegative(x: int)
    requires -Two32 <= x < 0
    ensures Register(x) == ((Two32 + x) / 2) % 0x100
  {
    assert x % Two32 == Two32 + x;
  }

  /** An unlisted frequency does not fall back to the 100 kHz divisor: only
      the rise time falls back, and the division still uses the caller's
      frequency. With F_CPU = 16 MHz, 200 kHz gives 27, 100 kHz gives 67. */
  lemma FallbackKeepsCallerFrequency()
    ensures Baud(16000000, 100000) == 67
    ensures Baud(16000000, 200000) == 27
    ensures Baud(16000000, 400000) == 13
    ensures Baud(16000000, 1000000) == 2
  {
    assert RawDivisor(16000000, 100000) == 160 - 16 - 10;
    assert RawDivisor(16000000, 200000) == 80 - 16 - 10;
    assert RawDivisor(16000000, 400000) == 40 - 4 - 10;
    assert RawDivisor(16000000, 1000000) == 16 - 1 - 10;
    RegisterInRange(134);
    RegisterInRange(54);
    RegisterInRange(26);
    RegisterInRange(5);
  }

  /** With F_CPU = 16 MHz, asking for 2 MHz makes the difference negative
      (8 - 16 - 10); the wrapped uint32 halved is 0x7FFFFFF7, of which the
      register keeps 0xF7. */
  lemma FastRequestWraps()
    ensures RawDivisor(16000000, 2000000) == -18
    ensures Baud(16000000, 2000000) == 0xF7
  {
  }
}
