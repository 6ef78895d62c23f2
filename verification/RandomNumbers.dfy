/** The multiply-with-carry generator. */
module RandomNumbers {
  import opened Common
  import opened Division

  const HALF: nat := 0x1_0000
  const A_Z: nat := 36969
  const A_W: nat := 18000
  /** The moduli of the two sequences: 65536 times the multiplier, less one. */
  const M_Z: nat := 0x9068ffff
  const M_W: nat := 0x464fffff

  class Random {
    var w: nat
    var z: nat

    ghost predicate Valid()
      reads this
    {
      w < WORD && z < WORD
    }

    constructor (seed: nat)
      requires seed < WORD
      ensures Valid() && w == SeedW(seed) && z == SeedZ(seed)
    {
      var w1, z1 := seed, WORD - 1 - seed;
      if w1 == 0 || w1 == 0x464fffff { w1 := (w1 + 1) % WORD; }
      if z1 == 0 || z1 == 0x9068ffff { z1 := (z1 + 1) % WORD; }
      w, z := w1, z1;
    }

    /** Each word steps to 'multiplier times low half plus high half' without being cut off; the
        number is the low half of z over the high, plus w. */
    method Next() returns (r: nat)
      requires Valid()
      modifies this
      ensures Valid() && z == Step(A_Z, old(z)) && w == Step(A_W, old(w))
      ensures r == (z % HALF * HALF + w) % WORD
    {
      NotCutOff(A_Z, z);
      NotCutOff(A_W, w);
      z := CutStep(36969, z);
      w := CutStep(18000, w);
      ShiftedLeft(z);
      r := (z * 65536 % WORD + w) % WORD;
    }
  }

  function SeedW(seed: nat): nat
  {
    if seed == 0 || seed == M_W then seed + 1 else seed
  }

  function SeedZ(seed: nat): nat
    requires seed < WORD
  {
    var z := WORD - 1 - seed;
    if z == 0 || z == M_Z then z + 1 else z
  }

  function Step(a: nat, x: nat): nat
  {
    a * (x % HALF) + x / HALF
  }

  /** The step in 32-bit arithmetic. */
  function CutStep(a: nat, x: nat): nat
  {
    (a * (x % 65536) % WORD + x / 65536) % WORD
  }

  lemma NotCutOff(a: nat, x: nat)
    requires a <= A_Z && x < WORD
    ensures CutStep(a, x) == Step(a, x) < WORD
  {
    StepFits(a, x);
  }

  /** No product or sum of a step reaches 2^32. */
  lemma StepFits(a: nat, x: nat)
    requires a <= A_Z && x < WORD
    ensures a * (x % HALF) < WORD && Step(a, x) < WORD
  {
    Bounded(a, x % HALF);
    assert x / HALF < HALF;
  }

  lemma Bounded(a: nat, lo: nat)
    requires a <= A_Z && lo < HALF
    ensures a * lo <= A_Z * (HALF - 1)
  {
    var d: nat := A_Z - a;
    assert A_Z * lo == a * lo + d * lo;
    assert d * lo >= 0 && lo <= HALF - 1;
  }

  lemma ShiftedLeft(z: nat)
    ensures z * HALF % WORD == z % HALF * HALF
  {
    var q, d := z / HALF, z % HALF;
    assert z * HALF == q * WORD + d * HALF;
    Reduced(WORD, q, d * HALF);
  }

  lemma Reduced(m: nat, k: nat, r: nat)
    requires r < m
    ensures (k * m + r) % m == r
  {
    Quotient(m, k, r);
    assert k * m == m * k;
  }

  // ----- one step, modulo the modulus -----

  /** A step multiplies by the multiplier, modulo 65536 times the multiplier less one. */
  lemma StepMultiplies(a: nat, x: nat)
    requires a > 0
    ensures a * x == Step(a, x) + (a * HALF - 1) * (x / HALF)
  {
    var hi, lo := x / HALF, x % HALF;
    assert a * x == a * (HALF * hi + lo) == a * HALF * hi + a * lo;
  }

  /** The step can be undone: 65536 times the new value is the old one. */
  lemma StepIsUndone(a: nat, x: nat)
    requires a > 0 && x < a * HALF - 1
    ensures HALF * Step(a, x) % (a * HALF - 1) == x
  {
    var m, hi, lo := a * HALF - 1, x / HALF, x % HALF;
    assert HALF * Step(a, x) == lo * m + x by {
      assert HALF * (a * lo + hi) == (a * HALF) * lo + HALF * hi;
      assert lo * m == (a * HALF) * lo - lo;
    }
    Reduced(m, lo, x);
  }

  // ----- runs -----

  function Power(a: nat, n: nat): nat
  {
    if n == 0 then 1 else a * Power(a, n - 1)
  }

  function After(a: nat, x: nat, n: nat): nat
  {
    if n == 0 then x else Step(a, After(a, x, n - 1))
  }

  /** How many moduli lie between a^n x and the n-th value. */
  lemma {:induction false} RunMultiplies(a: nat, m: nat, x: nat, n: nat) returns (k: nat)
    requires a > 0 && m == a * HALF - 1
    ensures Power(a, n) * x == After(a, x, n) + m * k
  {
    if n == 0 {
      k := 0;
    } else {
      var y := After(a, x, n - 1);
      var j := RunMultiplies(a, m, x, n - 1);
      StepMultiplies(a, y);
      k := Compose(a, m, Power(a, n - 1), x, y, j, Step(a, y), y / HALF);
    }
  }

  lemma Compose(a: nat, m: nat, p: nat, x: nat, y: nat, j: nat, next: nat, h: nat) returns (k: nat)
    requires p * x == y + m * j && a * y == next + m * h
    ensures a * p * x == next + m * k
  {
    k := a * j + h;
    assert a * p * x == a * (p * x) == a * (y + m * j) == a * y + a * (m * j);
    assert a * (m * j) == m * (a * j);
    assert m * (a * j) + m * h == m * (a * j + h);
  }

  /** n steps multiply the word by the n-th power of its multiplier, modulo its modulus. */
  lemma RunIsPower(a: nat, x: nat, n: nat)
    requires a > 0
    ensures a * HALF - 1 > 0 && After(a, x, n) % (a * HALF - 1) == Power(a, n) * x % (a * HALF - 1)
  {
    var m := a * HALF - 1;
    var k := RunMultiplies(a, m, x, n);
    SameRemainder(m, k, After(a, x, n));
  }

  /** The words of a generator after n calls of Next. */
  lemma WordsAfter(seed: nat, n: nat)
    requires seed < WORD
    ensures After(A_Z, SeedZ(seed), n) % M_Z == Power(A_Z, n) * SeedZ(seed) % M_Z
    ensures After(A_W, SeedW(seed), n) % M_W == Power(A_W, n) * SeedW(seed) % M_W
  {
    RunIsPower(A_Z, SeedZ(seed), n);
    RunIsPower(A_W, SeedW(seed), n);
  }

  // ----- the values the generator must not take -----

  /** A word that is not a multiple of its modulus never becomes one. */
  lemma NotAMultiple(a: nat, x: nat)
    requires a > 0 && x % (a * HALF - 1) != 0
    ensures Step(a, x) % (a * HALF - 1) != 0
  {
    var m := a * HALF - 1;
    var hi, lo := x / HALF, x % HALF;
    var y := Step(a, x);
    assert HALF * y == x + m * lo by {
      assert HALF * (a * lo + hi) == (a * HALF) * lo + HALF * hi;
      assert m * lo == (a * HALF) * lo - lo;
    }
    SameRemainder(m, lo, x);
    if y % m == 0 {
      MultipleTimes(m, y);
      assert false;
    }
  }

  lemma MultipleTimes(m: nat, y: nat)
    requires m > 0 && y % m == 0
    ensures HALF * y % m == 0
  {
    var k := y / m;
    assert HALF * y == 0 + m * (HALF * k);
    SameRemainder(m, HALF * k, 0);
  }

  lemma {:induction false} NeverAMultiple(a: nat, x: nat, n: nat)
    requires a > 0 && x % (a * HALF - 1) != 0
    ensures After(a, x, n) % (a * HALF - 1) != 0
  {
    if n > 0 {
      NeverAMultiple(a, x, n - 1);
      NotAMultiple(a, After(a, x, n - 1));
    }
  }

  predicate Stuck(x: nat, m: nat)
  {
    x == 0 || x == m
  }

  /** Whatever the seed, z never becomes 0 or its modulus, the two values it could never leave. */
  lemma ZNeverSticks(seed: nat, n: nat)
    requires seed < WORD
    ensures !Stuck(After(A_Z, SeedZ(seed), n), M_Z)
  {
    NeverAMultiple(A_Z, SeedZ(seed), n);
  }

  /** w can become 0 or its modulus for exactly two seeds, the other multiples of the modulus
      that fit a word: the constructor does not look for them. */
  lemma WSticksForTwoSeeds(seed: nat)
    requires seed < WORD
    ensures (exists n: nat :: Stuck(After(A_W, SeedW(seed), n), M_W)) <==> seed == 0x8c9ffffe || seed == 0xd2effffd
  {
    if seed == 0x8c9ffffe || seed == 0xd2effffd {
      assert After(A_W, SeedW(seed), 0) == seed;
      assert Stuck(After(A_W, SeedW(seed), 1), M_W);
    } else {
      assert SeedW(seed) % M_W != 0;
      forall n: nat ensures !Stuck(After(A_W, SeedW(seed), n), M_W) {
        NeverAMultiple(A_W, SeedW(seed), n);
      }
    }
  }

  /** Both values are traps: a word that is 0 or its modulus stays what it is. */
  lemma {:induction false} StuckForever(a: nat, n: nat)
    requires 0 < a < HALF
    ensures After(a, 0, n) == 0 && After(a, a * HALF - 1, n) == a * HALF - 1
  {
    if n > 0 {
      StuckForever(a, n - 1);
      var m := a * HALF - 1;
      assert m == (a - 1) * HALF + (HALF - 1);
      assert m / HALF == a - 1 && m % HALF == HALF - 1;
    }
  }
}
