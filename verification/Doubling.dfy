/** Arrays that grow by doubling: the queue's ring of items and the words of `msplit`. */
module Doubling {

  /** The size an array of `c` slots has after doubling until it holds `n`. */
  function Grown(c: nat, n: nat): (d: nat)
    requires c > 0
    ensures d >= n && d >= c && (n <= c ==> d == c)
    ensures d == c || d <= 2 * (n - 1)
    decreases n - c
  {
    if n <= c then c else Grown(2 * c, n)
  }

  /** `d` is `c` doubled some number of times. */
  predicate Doubled(c: nat, d: nat)
    requires c > 0
    decreases d - c
  {
    d == c || (c < d && Doubled(2 * c, d))
  }

  function Power(k: nat): nat {
    if k == 0 then 1 else 2 * Power(k - 1)
  }

  lemma {:induction false} PowerOfDoubled(c: nat, d: nat) returns (k: nat)
    requires c > 0 && Doubled(c, d)
    ensures d == c * Power(k)
    decreases d - c
  {
    k := 0;
    if d != c {
      k := PowerOfDoubled(2 * c, d);
      k := k + 1;
    }
  }

  lemma {:induction false} DoubledToPower(c: nat, k: nat)
    requires c > 0
    ensures Doubled(c, c * Power(k))
    decreases k
  {
    if k > 0 {
      DoubledToPower(2 * c, k - 1);
      assert c * Power(k) == 2 * c * Power(k - 1);
      PowerIsPositive(k - 1);
    }
  }

  lemma {:induction false} PowerIsPositive(k: nat)
    ensures Power(k) >= 1
  {
    if k > 0 {
      PowerIsPositive(k - 1);
    }
  }

  /** The doubled sizes are `c` times the powers of two. */
  lemma DoubledIsPower(c: nat, d: nat)
    requires c > 0
    ensures Doubled(c, d) <==> exists k: nat :: d == c * Power(k)
  {
    if Doubled(c, d) {
      var k := PowerOfDoubled(c, d);
    }
    if k: nat :| d == c * Power(k) {
      DoubledToPower(c, k);
    }
    hide Doubled, Power;
  }

  lemma {:induction false} GrownStep(c: nat, n: nat)
    requires c > 0
    ensures Grown(c, n + 1) == if n + 1 > Grown(c, n) then 2 * Grown(c, n) else Grown(c, n)
    decreases n - c
  {
    if n > c {
      GrownStep(2 * c, n);
    }
  }

  lemma {:induction false} GrownIsDoubled(c: nat, n: nat)
    requires c > 0
    ensures Doubled(c, Grown(c, n))
    decreases n - c
  {
    if n > c {
      GrownIsDoubled(2 * c, n);
    }
  }

  /** Among the doubled sizes, `Grown` is the least that holds `n`. */
  lemma {:induction false} GrownIsLeast(c: nat, n: nat, d: nat)
    requires c > 0 && Doubled(c, d) && n <= d
    ensures Grown(c, n) <= d
    decreases d - c
  {
    if n > c {
      GrownIsLeast(2 * c, n, d);
    }
  }

  /** An array that is too small for `n` may be doubled once more on the way there. */
  lemma {:induction false} DoubledOnce(c: nat, d: nat, n: nat)
    requires c > 0 && Doubled(c, d) && d < n
    ensures Doubled(c, 2 * d) && 2 * d <= Grown(c, n)
    decreases d - c
  {
    if c < d {
      DoubledOnce(2 * c, d, n);
    }
  }

  lemma {:induction false} GrownMonotone(c: nat, n: nat, m: nat)
    requires c > 0 && n <= m
    ensures Grown(c, n) <= Grown(c, m)
    decreases n - c
  {
    if n > c {
      GrownMonotone(2 * c, n, m);
    }
  }

  lemma FullWhenDoubled(c: nat, n: nat)
    requires c > 0
    ensures Grown(c, n) == n <==> Doubled(c, n)
  {
    GrownIsDoubled(c, n);
    if Doubled(c, n) {
      GrownIsLeast(c, n, n);
    }
  }
}
