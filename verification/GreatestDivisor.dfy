/** The greatest common divisor, by Euclid's algorithm. */
module GreatestDivisor {

  function Gcd(a: nat, b: nat): nat
    decreases b
  {
    if b == 0 then a else Gcd(b, a % b)
  }

  /** It divides both numbers and is a combination of them, so every common divisor divides it. */
  lemma {:induction false} Bezout(a: nat, b: nat) returns (x: int, y: int, p: nat, q: nat)
    ensures Gcd(a, b) == x * a + y * b
    ensures a == p * Gcd(a, b) && b == q * Gcd(a, b)
    decreases b
  {
    if b == 0 {
      x, y, p, q := 1, 0, 1, 0;
    } else {
      var x', y', p', q' := Bezout(b, a % b);
      var turns := a / b;
      assert a == turns * b + a % b;
      x, y, p, q := y', x' - turns * y', turns * p' + q', p';
      BezoutStep(a, b, turns, a % b, x', y', p', q', Gcd(b, a % b));
    }
  }

  lemma BezoutStep(a: nat, b: nat, turns: nat, rest: nat, x: int, y: int, p: nat, q: nat, d: nat)
    requires a == turns * b + rest && d == x * b + y * rest && b == p * d && rest == q * d
    ensures d == y * a + (x - turns * y) * b && a == (turns * p + q) * d
  {
    Combine(a, b, turns, rest, x, y);
    Regroup(turns, p, q, d);
  }

  lemma Combine(a: nat, b: nat, turns: nat, rest: nat, x: int, y: int)
    requires a == turns * b + rest
    ensures x * b + y * rest == y * a + (x - turns * y) * b
  {
    calc {
      y * a + (x - turns * y) * b;
      y * (turns * b + rest) + x * b - turns * y * b;
      y * (turns * b) + y * rest + x * b - turns * y * b;
      { assert y * (turns * b) == turns * y * b; }
      x * b + y * rest;
    }
  }

  lemma Regroup(turns: nat, p: nat, q: nat, d: nat)
    ensures (turns * p + q) * d == turns * (p * d) + q * d
  {
  }

  lemma {:induction false} GcdPositive(a: nat, b: nat)
    requires a > 0 || b > 0
    ensures Gcd(a, b) > 0
    decreases b
  {
    if b > 0 {
      GcdPositive(b, a % b);
    }
  }
}
