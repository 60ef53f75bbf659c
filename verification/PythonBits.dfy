/** Python's bitwise operators on integers of unbounded size: a negative number is an infinite run of leading ones. */
module PythonBits {

  /** Bit i of a. Dafny's division rounds down for a positive divisor, as an arithmetic shift does. */
  predicate Has(a: int, i: nat)
    decreases i
  {
    if i == 0 then a % 2 == 1 else Has(a / 2, i - 1)
  }

  function Abs(a: int): nat {
    if a < 0 then -a else a
  }

  function Not(a: int): int {
    -a - 1
  }

  function And(a: int, b: int): int
    decreases Abs(a)
  {
    if a == 0 || b == 0 then 0
    else if a == -1 then b
    else if b == -1 then a
    else 2 * And(a / 2, b / 2) + if a % 2 == 1 && b % 2 == 1 then 1 else 0
  }

  function Or(a: int, b: int): int
    decreases Abs(a)
  {
    if a == -1 || b == -1 then -1
    else if a == 0 then b
    else if b == 0 then a
    else 2 * Or(a / 2, b / 2) + if a % 2 == 1 || b % 2 == 1 then 1 else 0
  }

  function Xor(a: int, b: int): int
    decreases Abs(a)
  {
    if a == 0 then b
    else if b == 0 then a
    else if a == -1 then Not(b)
    else if b == -1 then Not(a)
    else 2 * Xor(a / 2, b / 2) + if a % 2 != b % 2 then 1 else 0
  }

  /** `1 << i`. */
  function Pow2(i: nat): (p: int)
    ensures p >= 1
  {
    if i == 0 then 1 else 2 * Pow2(i - 1)
  }

  lemma {:induction false} HasConstant(i: nat)
    ensures !Has(0, i) && Has(-1, i)
  {
    if i > 0 { HasConstant(i - 1); }
  }

  lemma {:induction false} HasNot(a: int, i: nat)
    ensures Has(Not(a), i) <==> !Has(a, i)
    decreases i
  {
    if i > 0 {
      assert Not(a) / 2 == Not(a / 2);
      HasNot(a / 2, i - 1);
    }
  }

  lemma AndStep(a: int, b: int)
    ensures And(a, b) / 2 == And(a / 2, b / 2)
    ensures And(a, b) % 2 == 1 <==> a % 2 == 1 && b % 2 == 1
  {
  }

  lemma {:induction false} HasAnd(a: int, b: int, i: nat)
    ensures Has(And(a, b), i) <==> Has(a, i) && Has(b, i)
    decreases i
  {
    AndStep(a, b);
    if i > 0 { HasAnd(a / 2, b / 2, i - 1); }
  }

  lemma OrStep(a: int, b: int)
    ensures Or(a, b) / 2 == Or(a / 2, b / 2)
    ensures Or(a, b) % 2 == 1 <==> a % 2 == 1 || b % 2 == 1
  {
  }

  lemma {:induction false} HasOr(a: int, b: int, i: nat)
    ensures Has(Or(a, b), i) <==> Has(a, i) || Has(b, i)
    decreases i
  {
    OrStep(a, b);
    if i > 0 { HasOr(a / 2, b / 2, i - 1); }
  }

  lemma XorStep(a: int, b: int)
    ensures Xor(a, b) / 2 == Xor(a / 2, b / 2)
    ensures Xor(a, b) % 2 == 1 <==> a % 2 != b % 2
  {
  }

  lemma {:induction false} HasXor(a: int, b: int, i: nat)
    ensures Has(Xor(a, b), i) <==> Has(a, i) != Has(b, i)
    decreases i
  {
    XorStep(a, b);
    if i > 0 { HasXor(a / 2, b / 2, i - 1); }
  }

  lemma {:induction false} HasPow2(c: nat, i: nat)
    ensures Has(Pow2(c), i) <==> i == c
  {
    if c == 0 {
      if i > 0 { HasConstant(i - 1); }
    } else if i > 0 {
      HasPow2(c - 1, i - 1);
    }
  }

  /** `(1 << n) - 1` has exactly the bits below n. */
  lemma {:induction false} HasFull(n: nat, i: nat)
    ensures Has(Pow2(n) - 1, i) <==> i < n
  {
    if n == 0 {
      HasConstant(i);
    } else if i > 0 {
      assert (Pow2(n) - 1) / 2 == Pow2(n - 1) - 1;
      HasFull(n - 1, i - 1);
    }
  }

  /** Two natural numbers with the same bits are equal. */
  lemma {:induction false} SameBits(a: nat, b: nat)
    requires forall i: nat :: Has(a, i) <==> Has(b, i)
    ensures a == b
  {
    if a > 0 || b > 0 {
      forall i: nat ensures Has(a / 2, i) <==> Has(b / 2, i) {
        assert Has(a, i + 1) <==> Has(b, i + 1);
      }
      assert Has(a, 0) <==> Has(b, 0);
      SameBits(a / 2, b / 2);
    }
  }

  lemma Doubled(a: int, b: int)
    ensures And(2 * a, 2 * b) == 2 * And(a, b)
    ensures And(2 * a + 1, 2 * b + 1) == 2 * And(a, b) + 1
    ensures b > 0 ==> Xor(2 * a, 2 * b) == 2 * Xor(a, b)
  {
    assert (2 * a) / 2 == a && (2 * a + 1) / 2 == a && (2 * b) / 2 == b && (2 * b + 1) / 2 == b;
  }

  /** `f & -f` is the lowest bit of f; taking it out of f with `^` makes f smaller. */
  lemma {:induction false} LowestBit(f: int) returns (c: nat)
    requires f > 0
    ensures And(f, -f) == Pow2(c) && Has(f, c)
    ensures 0 <= Xor(f, Pow2(c)) < f
  {
    var g := f / 2;
    if f % 2 == 1 {
      c := 0;
      AndNot(g);
      Doubled(g, Not(g));
      assert f == 2 * g + 1 && -f == 2 * Not(g) + 1;
      XorOne(f);
    } else {
      var d := LowestBit(g);
      c := d + 1;
      Doubled(g, -g);
      Doubled(g, Pow2(d));
      assert f == 2 * g && -f == 2 * (-g);
    }
  }

  lemma XorOne(f: int)
    requires f > 0 && f % 2 == 1
    ensures Xor(f, 1) == f - 1
  {
    assert Xor(f / 2, 0) == f / 2;
  }

  lemma {:induction false} AndNot(a: int)
    ensures And(a, Not(a)) == 0
    decreases Abs(a)
  {
    if a != 0 && a != -1 {
      assert Not(a) / 2 == Not(a / 2);
      AndNot(a / 2);
    }
  }

  /** The bits of a combination of natural numbers make a natural number. */
  lemma {:induction false} NaturalBits(a: nat, b: nat)
    ensures And(a, b) >= 0 && Or(a, b) >= 0
    decreases a
  {
    if a > 0 && b > 0 {
      NaturalBits(a / 2, b / 2);
    }
  }
}
