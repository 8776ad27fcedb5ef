/** The retry delay, in exact arithmetic with the random draw as a parameter. */
module Backoff {

  /** The exponential term: base, doubled once per attempt after the first. */
  function Raw(attempts: int, base: nat): (raw: nat)
  {
    if attempts <= 0 then 0 else if attempts == 1 then base else 2 * Raw(attempts - 1, base)
  }

  function PowerOfTwo(n: nat): nat {
    if n == 0 then 1 else 2 * PowerOfTwo(n - 1)
  }

  /** No delay before the first attempt; then base times two to the number of attempts before. */
  lemma {:induction false} RawIsExponential(attempts: int, base: nat)
    ensures Raw(attempts, base) == if attempts <= 0 then 0 else base * PowerOfTwo(attempts - 1)
    decreases attempts
  {
    if attempts > 1 {
      RawIsExponential(attempts - 1, base);
      assert base * (2 * PowerOfTwo(attempts - 2)) == 2 * (base * PowerOfTwo(attempts - 2));
    }
  }

  type Draw = d: real | 0.0 <= d < 1.0 witness 0.0

  function Scaled(draw: Draw, n: nat): (x: real)
    ensures 0.0 <= x <= n as real
    ensures n > 0 ==> x < n as real
  {
    ScaledBelow(draw, n as real);
    draw * n as real
  }

  lemma ScaledBelow(draw: real, n: real)
    requires 0.0 <= draw < 1.0 && n >= 0.0
    ensures 0.0 <= draw * n <= n
    ensures n > 0.0 ==> draw * n < n
  {
    assert draw * n == n - (1.0 - draw) * n;
  }

  function Clamp(jitter: real, max: nat): (delay: int)
    requires 0.0 <= jitter
    ensures 0 <= delay <= max
    ensures delay as real <= jitter
  {
    if jitter > max as real then max else jitter.Floor
  }

  /** `draw` is the uniform draw in [0, 1). */
  function Delay(attempts: int, base: nat, max: nat, draw: Draw): (delay: int)
    ensures 0 <= delay <= max
    ensures delay <= Raw(attempts, base)
  {
    if attempts <= 0 then 0 else Clamp(Scaled(draw, Raw(attempts, base)), max)
  }

  /** The delays that some draw gives. */
  predicate Possible(attempts: int, base: nat, max: nat, delay: int) {
    0 <= delay <= max && (delay < Raw(attempts, base) || (Raw(attempts, base) == 0 && delay == 0))
  }

  /** Retrying at once is always possible. */
  lemma ZeroIsPossible(attempts: int, base: nat, max: nat)
    ensures Possible(attempts, base, max, 0)
  {}

  lemma DrawFor(raw: nat, delay: nat) returns (draw: Draw)
    requires delay < raw
    ensures Scaled(draw, raw) == delay as real
  {
    var d, r := delay as real, raw as real;
    draw := d / r;
    assert draw * r == d;
  }

  /** Full jitter reaches exactly the whole numbers below the exponential term, up to the cap. */
  lemma DelaysExactly(attempts: int, base: nat, max: nat, delay: int)
    ensures Possible(attempts, base, max, delay) <==> exists draw: Draw :: Delay(attempts, base, max, draw) == delay
  {
    var raw := Raw(attempts, base);
    if Possible(attempts, base, max, delay) {
      if raw == 0 {
        assert Delay(attempts, base, max, 0.0) == delay;
      } else {
        var draw := DrawFor(raw, delay);
        assert Delay(attempts, base, max, draw) == delay;
      }
    }
    forall draw: Draw ensures Possible(attempts, base, max, Delay(attempts, base, max, draw)) {
      DelayIsPossible(attempts, base, max, draw);
    }
  }

  lemma DelayIsPossible(attempts: int, base: nat, max: nat, draw: Draw)
    ensures Possible(attempts, base, max, Delay(attempts, base, max, draw))
  {
    var raw := Raw(attempts, base);
    if raw > 0 {
      assert Scaled(draw, raw) < raw as real;
    }
  }

  /** The delay as docs/worker.md words it: cap first, then draw. */
  function DocumentedDelay(attempts: int, base: nat, max: nat, draw: Draw): int
  {
    var raw := Raw(attempts, base);
    Scaled(draw, if raw <= max then raw else max).Floor
  }

  ghost predicate AgreesWithDocs(attempts: int, base: nat, max: nat) {
    forall draw: Draw :: Delay(attempts, base, max, draw) == DocumentedDelay(attempts, base, max, draw)
  }

  lemma DrawAbove(max: nat, raw: nat) returns (draw: Draw)
    requires max < raw
    ensures Scaled(draw, raw) > max as real
  {
    var m, r := max as real, raw as real;
    var ratio := m / r;
    assert ratio * r == m;
    assert 0.0 <= ratio < 1.0;
    draw := (ratio + 1.0) / 2.0;
    assert draw * r == (m + r) / 2.0;
  }

  /** The code draws first and caps afterwards. The two readings give the same delay for every
      draw exactly when the exponential term does not exceed the cap, or the cap is zero. */
  lemma DocsAgreeExactlyBelowCap(attempts: int, base: nat, max: nat)
    ensures AgreesWithDocs(attempts, base, max) <==> Raw(attempts, base) <= max || max == 0
  {
    var raw := Raw(attempts, base);
    if raw > max && max > 0 {
      // A draw that lands above the cap: the code returns the cap, the documented form less.
      var draw := DrawAbove(max, raw);
      assert Delay(attempts, base, max, draw) == max;
      assert Scaled(draw, max) < max as real;
      assert DocumentedDelay(attempts, base, max, draw) < max;
    }
  }
}
