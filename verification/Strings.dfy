/**
 Counting characters in strings, splitting at them, and comparing strings.
 */
module Strings {

  function Count(s: string, c: char): nat {
    if s == "" then 0 else Count(s[..|s| - 1], c) + if s[|s| - 1] == c then 1 else 0
  }

  lemma {:induction false} CountOfConcatenation(a: string, b: string, c: char)
    ensures Count(a + b, c) == Count(a, c) + Count(b, c)
  {
    if b == "" {
      assert a + b == a;
    } else {
      CountOfConcatenation(a, b[..|b| - 1], c);
      assert (a + b)[..|a + b| - 1] == a + b[..|b| - 1];
    }
  }

  lemma {:induction false} CountOfNone(s: string, c: char)
    requires c !in s
    ensures Count(s, c) == 0
  {
    if s != "" {
      CountOfNone(s[..|s| - 1], c);
    }
  }

  /** Comparison of strings, character by character. */
  predicate StringLess(a: string, b: string) {
    b != "" && (a == "" || a[0] < b[0] || (a[0] == b[0] && StringLess(a[1..], b[1..])))
  }

  lemma {:induction false} StringTransitive(a: string, b: string, c: string)
    requires StringLess(a, b) && StringLess(b, c)
    ensures StringLess(a, c)
  {
    if a != "" && a[0] == b[0] && b[0] == c[0] {
      StringTransitive(a[1..], b[1..], c[1..]);
    }
  }

  lemma {:induction false} StringIrreflexive(a: string)
    ensures !StringLess(a, a)
  {
    if a != "" {
      StringIrreflexive(a[1..]);
    }
  }

  lemma {:induction false} StringTotal(a: string, b: string)
    ensures StringLess(a, b) || a == b || StringLess(b, a)
  {
    if a != "" && b != "" && a[0] == b[0] {
      StringTotal(a[1..], b[1..]);
      assert a == [a[0]] + a[1..] && b == [b[0]] + b[1..];
    }
  }

  /** What comes before and after a separator can be told, if what comes before holds as many of them. */
  lemma SplitsAlike(a: string, x: string, b: string, y: string, c: char)
    requires a + [c] + x == b + [c] + y && Count(a, c) == Count(b, c)
    ensures a == b && x == y
  {
    if |a| < |b| {
      ShorterHoldsFewer(a, x, b, y, c);
    } else if |b| < |a| {
      ShorterHoldsFewer(b, y, a, x, c);
    } else {
      assert (a + [c] + x)[..|a|] == a && (b + [c] + y)[..|b|] == b;
      assert (a + [c] + x)[|a| + 1..] == x && (b + [c] + y)[|b| + 1..] == y;
    }
  }

  lemma ShorterHoldsFewer(a: string, x: string, b: string, y: string, c: char)
    requires a + [c] + x == b + [c] + y && |a| < |b|
    ensures Count(a, c) < Count(b, c)
  {
    var all := a + [c] + x;
    assert b == all[..|b|] by {
      assert (b + [c] + y)[..|b|] == b;
    }
    var rest := b[|a| + 1..];
    assert b == a + [c] + rest;
    CountOfConcatenation(a + [c], rest, c);
    CountOfConcatenation(a, [c], c);
    assert Count([c], c) == 1 by {
      assert [c][..0] == "";
    }
  }

  // ---------------------------------------------------------------------------------------- numbers

  const DIGITS: string := "0123456789"

  /** The decimal form. */
  function Decimal(n: nat): string {
    (if n < 10 then "" else Decimal(n / 10)) + [DIGITS[n % 10]]
  }

  lemma {:induction false} DecimalHasNo(n: nat, c: char)
    requires c !in DIGITS
    ensures Count(Decimal(n), c) == 0
  {
    CountOfNone([DIGITS[n % 10]], c);
    if n >= 10 {
      DecimalHasNo(n / 10, c);
      CountOfConcatenation(Decimal(n / 10), [DIGITS[n % 10]], c);
    } else {
      assert Decimal(n) == [DIGITS[n % 10]];
    }
  }

  lemma {:induction false} DecimalIsInjective(m: nat, n: nat)
    requires Decimal(m) == Decimal(n)
    ensures m == n
  {
    var x, y := Decimal(m), Decimal(n);
    assert x[|x| - 1] == DIGITS[m % 10] && y[|y| - 1] == DIGITS[n % 10];
    assert m % 10 == n % 10;
    assert x[..|x| - 1] == if m < 10 then "" else Decimal(m / 10);
    assert y[..|y| - 1] == if n < 10 then "" else Decimal(n / 10);
    if m >= 10 && n >= 10 {
      DecimalIsInjective(m / 10, n / 10);
    }
  }
}
