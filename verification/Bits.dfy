/** Bitwise and, exclusive or and shifts on natural numbers. */
module Bits {
  type byte = x: int | 0 <= x < 256

  /** The last bit of a and b, and of a exclusive-or b. */
  function Both(a: nat, b: nat): nat {
    if a % 2 == 1 && b % 2 == 1 then 1 else 0
  }

  function One(a: nat, b: nat): nat {
    if a % 2 != b % 2 then 1 else 0
  }

  function And(a: nat, b: nat): nat
    decreases a
  {
    if a == 0 then 0 else 2 * And(a / 2, b / 2) + Both(a, b)
  }

  function Xor(a: nat, b: nat): nat
    decreases a + b
  {
    if a == 0 then b else if b == 0 then a
    else 2 * Xor(a / 2, b / 2) + One(a, b)
  }

  function Shl(a: nat, k: nat): nat {
    if k == 0 then a else 2 * Shl(a, k - 1)
  }

  function Shr(a: nat, k: nat): nat
    decreases k
  {
    if k == 0 then a else Shr(a / 2, k - 1)
  }

  /** k ones. */
  function Ones(k: nat): nat {
    if k == 0 then 0 else 2 * Ones(k - 1) + 1
  }

  /** The last k bits. */
  function Low(a: nat, k: nat): nat
    decreases k
  {
    if k == 0 then 0 else 2 * Low(a / 2, k - 1) + a % 2
  }

  lemma {:induction false} Halves(x: nat, bit: nat)
    requires bit <= 1
    ensures (2 * x + bit) / 2 == x && (2 * x + bit) % 2 == bit
  {
  }

  lemma {:induction false} AndStep(a: nat, b: nat)
    ensures And(a, b) == 2 * And(a / 2, b / 2) + Both(a, b)
  {
  }

  lemma {:induction false} XorStep(a: nat, b: nat)
    ensures Xor(a, b) == 2 * Xor(a / 2, b / 2) + One(a, b)
    ensures Xor(a, b) / 2 == Xor(a / 2, b / 2) && Xor(a, b) % 2 == One(a, b)
  {
  }

  lemma {:induction false} AndZero(a: nat)
    ensures And(a, 0) == 0
  {
    if a == 0 {
    } else {
      AndZero(a / 2);
    }
  }

  /** Masking with k ones keeps the last k bits. */
  lemma {:induction false} AndOnes(a: nat, k: nat)
    ensures And(a, Ones(k)) == Low(a, k)
    decreases k
  {
    if k == 0 {
      AndZero(a);
    } else {
      AndStep(a, Ones(k));
      Halves(Ones(k - 1), 1);
      AndOnes(a / 2, k - 1);
    }
  }

  /** Masking with a shifted mask masks the bits above, where they are. */
  lemma {:induction false} AndShifted(a: nat, m: nat, k: nat)
    ensures And(a, Shl(m, k)) == Shl(And(Shr(a, k), m), k)
    decreases k
  {
    if k == 0 {
    } else {
      AndStep(a, Shl(m, k));
      Halves(Shl(m, k - 1), 0);
      AndShifted(a / 2, m, k - 1);
    }
  }

  lemma {:induction false} ShlShr(a: nat, k: nat)
    ensures Shr(Shl(a, k), k) == a
    decreases k
  {
    if k == 0 {
    } else {
      ShlShr(a, k - 1);
    }
  }

  lemma {:induction false} ShlAdd(a: nat, j: nat, k: nat)
    ensures Shl(Shl(a, j), k) == Shl(a, j + k)
    decreases k
  {
    if k == 0 {
    } else {
      ShlAdd(a, j, k - 1);
    }
  }

  /** Exclusive or works bit by bit: the last k bits only depend on the last k bits. */
  lemma {:induction false} LowXor(a: nat, b: nat, k: nat)
    ensures Low(Xor(a, b), k) == Xor(Low(a, k), Low(b, k))
    decreases k
  {
    if k == 0 {
    } else {
      LowXor(a / 2, b / 2, k - 1);
      LowXorStep(a, b, k);
    }
  }

  lemma {:induction false} LowXorStep(a: nat, b: nat, k: nat)
    requires k > 0 && Low(Xor(a / 2, b / 2), k - 1) == Xor(Low(a / 2, k - 1), Low(b / 2, k - 1))
    ensures Low(Xor(a, b), k) == Xor(Low(a, k), Low(b, k))
  {
    hide Low, Xor;
    LowStep(a, k);
    LowStep(b, k);
    Halves(Low(a / 2, k - 1), a % 2);
    Halves(Low(b / 2, k - 1), b % 2);
    XorStep(Low(a, k), Low(b, k));
    XorStep(a, b);
    LowStep(Xor(a, b), k);
  }

  lemma {:induction false} LowStep(a: nat, k: nat)
    requires k > 0
    ensures Low(a, k) == 2 * Low(a / 2, k - 1) + a % 2
  {
  }

  /** Arithmetic meaning of Low, Shr and Shl, one bit at a time. */
  lemma {:induction false} HalfModDiv(a: nat, p: nat)
    requires p >= 1
    ensures a % (2 * p) == 2 * ((a / 2) % p) + a % 2
    ensures a / (2 * p) == a / 2 / p
  {
    var q, r := a / 2 / p, (a / 2) % p;
    assert a == 2 * p * q + (2 * r + a % 2);
    ModUnique(a, 2 * p, q, 2 * r + a % 2);
  }

  lemma {:induction false} Multiple(m: int, d: int)
    requires m >= 0
    ensures d >= 1 ==> m * d >= m
    ensures d <= -1 ==> m * d <= -m
  {
  }

  lemma {:induction false} ModUnique(a: nat, m: nat, q: nat, r: nat)
    requires m >= 1 && a == m * q + r && r < m
    ensures a % m == r && a / m == q
  {
    var d := a / m - q;
    assert m * (a / m) + a % m == a;
    assert m * d == r - a % m;
    Multiple(m, d);
  }

  lemma {:induction false} LowIsMod(a: nat, k: nat)
    ensures Shl(1, k) >= 1 && Low(a, k) == a % Shl(1, k) && Shr(a, k) == a / Shl(1, k)
    decreases k
  {
    if k == 0 {
    } else {
      LowIsMod(a / 2, k - 1);
      HalfModDiv(a, Shl(1, k - 1));
    }
  }

  // ---- what the operations mean ----

  /** Adding without the carries, and the carries: together they make the sum. */
  lemma {:induction false} XorAndSum(a: nat, b: nat)
    ensures Xor(a, b) + 2 * And(a, b) == a + b
    decreases a + b
  {
    if a == 0 || b == 0 {
      AndZero(a);
    } else {
      XorAndSum(a / 2, b / 2);
    }
  }

  /** Each bit of an exclusive or is the sum of the two bits modulo 2, each bit of an and their product. */
  lemma {:induction false} BitsOf(a: nat, b: nat, k: nat)
    ensures Shr(Xor(a, b), k) % 2 == (Shr(a, k) % 2 + Shr(b, k) % 2) % 2
    ensures Shr(And(a, b), k) % 2 == (Shr(a, k) % 2) * (Shr(b, k) % 2)
    decreases k
  {
    XorStep(a, b);
    AndStep(a, b);
    if k == 0 {
      BitOfOne(a, b);
    } else {
      Halves(And(a / 2, b / 2), Both(a, b));
      BitsOf(a / 2, b / 2, k - 1);
    }
  }

  lemma {:induction false} BitOfOne(a: nat, b: nat)
    ensures One(a, b) == (a % 2 + b % 2) % 2 && Both(a, b) == (a % 2) * (b % 2)
    ensures And(a, b) % 2 == Both(a, b)
  {
    Halves(And(a / 2, b / 2), Both(a, b));
  }

  /** Exclusive or undoes itself. */
  lemma {:induction false} XorTwice(a: nat, b: nat)
    ensures Xor(a, a) == 0 && Xor(Xor(a, b), b) == a
    decreases a + b
  {
    if a == 0 && b == 0 {
    } else if a == 0 || b == 0 {
      XorSelf(a);
      XorSelf(b);
    } else {
      XorSelf(a);
      XorTwice(a / 2, b / 2);
      XorStep(a, b);
      XorStep(Xor(a, b), b);
    }
  }

  lemma {:induction false} XorSelf(a: nat)
    ensures Xor(a, a) == 0
  {
    if a == 0 {
    } else {
      XorSelf(a / 2);
    }
  }

  lemma {:induction false} ShlIsTimes(a: nat, k: nat)
    ensures Shl(a, k) == a * Shl(1, k)
    decreases k
  {
    if k == 0 {
    } else {
      ShlIsTimes(a, k - 1);
      TimesTwo(a, Shl(1, k - 1));
    }
  }

  lemma {:induction false} TimesTwo(a: nat, p: nat)
    ensures 2 * (a * p) == a * (2 * p)
  {
  }
}
