/** The 64-by-32-bit division of utils.c, in two 32-bit steps. */
module Division {
  const WORD: nat := 0x1_0000_0000
  const CYCLESPERTICK: nat := 109000

  /** divl: edx:eax by a 32-bit divisor. It faults unless the quotient fits in 32 bits. */
  method Divl(edx: nat, eax: nat, divisor: nat) returns (q: nat, r: nat)
    requires eax < WORD && 0 < divisor < WORD && (edx * WORD + eax) / divisor < WORD
    ensures q == (edx * WORD + eax) / divisor && r == (edx * WORD + eax) % divisor
  {
    q, r := (edx * WORD + eax) / divisor, (edx * WORD + eax) % divisor;
  }

  /** A number is determined by its division with remainder. */
  lemma DivisionIsUnique(n: nat, b: nat, q: nat, r: nat)
    requires b > 0 && n == q * b + r && r < b
    ensures n / b == q && n % b == r
  {
    var d := n / b - q;
    assert (n / b) * b == q * b + d * b;
    assert d >= 1 ==> d * b >= b;
    assert d <= -1 ==> d * b + b <= 0;
    assert n == (n / b) * b + n % b;
  }

  lemma QuotientFits(m: nat, b: nat)
    requires b > 0 && m < b * WORD
    ensures m / b < WORD
  {
    var q := m / b;
    assert q >= WORD ==> q * b >= WORD * b;
    assert m == q * b + m % b;
  }

  lemma Recombine(h: nat, u: nat, low: nat, q: nat, r: nat, b: nat)
    requires u * WORD + low == q * b + r
    ensures (h * b + u) * WORD + low == (h * WORD + q) * b + r
  {
    assert (h * b + u) * WORD == (h * b) * WORD + u * WORD;
    assert (h * WORD + q) * b == (h * WORD) * b + q * b;
    assert (h * b) * WORD == (h * WORD) * b;
  }

  /** Dividing the two halves in turn: the second quotient fits in 32 bits, and the quotients combine. */
  lemma TwoSteps(high: nat, low: nat, base: nat)
    requires low < WORD && 0 < base < WORD
    ensures var m := (high % base) * WORD + low;
      && m / base < WORD
      && (high * WORD + low) / base == (high / base) * WORD + m / base
      && (high * WORD + low) % base == m % base
  {
    var h, u := high / base, high % base;
    var m := u * WORD + low;
    assert (u + 1) * WORD <= base * WORD;
    QuotientFits(m, base);
    Recombine(h, u, low, m / base, m % base, base);
    assert high == h * base + u;
    DivisionIsUnique(high * WORD + low, base, h * WORD + m / base, m % base);
  }

  /** What do_div has in edx and in the upper half of the result before divl; zero halves skip the division. */
  function Upper(high: nat, base: nat): nat
    requires base > 0
  {
    if high != 0 then high % base else high
  }

  function Higher(high: nat, base: nat): nat
    requires base > 0
  {
    if high != 0 then high / base else high
  }

  lemma DivideByHalves(n: nat, base: nat)
    requires n < WORD * WORD && 0 < base < WORD
    ensures var m := Upper(n / WORD, base) * WORD + n % WORD;
      m / base < WORD && n / base == Higher(n / WORD, base) * WORD + m / base && n % base == m % base
  {
    var high, low := n / WORD, n % WORD;
    assert n == high * WORD + low;
    if high == 0 { DivisionIsUnique(0, base, 0, 0); }
    assert Upper(high, base) == high % base && Higher(high, base) == high / base;
    TwoSteps(high, low, base);
  }

  /** do_div: replaces the dividend by the quotient and returns the remainder. */
  method DoDiv(n: nat, base: nat) returns (quotient: nat, mod: nat)
    requires n < WORD * WORD && 0 < base < WORD
    ensures quotient == n / base && mod == n % base
  {
    var low, high := n % WORD, n / WORD;
    DivideByHalves(n, base);
    var upper := high;
    if high != 0 {
      upper := high % base;
      high := high / base;
    }
    low, mod := Divl(upper, low, base);
    quotient := high * WORD + low;
  }

  /** get_ticks: the time-stamp counter in ticks, cut to 32 bits by the return type. */
  method GetTicks(eax: nat, edx: nat) returns (ticks: nat)
    requires eax < WORD && edx < WORD
    ensures ticks == (edx * 0x1_0000_0000 + eax) / 109000 % 0x1_0000_0000
  {
    var t, _ := DoDiv(edx * WORD + eax, CYCLESPERTICK);
    ticks := t % WORD;
  }
}
