/**
 * Strings as the dashboard compares and writes them: Python's ordering of
 * `str` values and fixed-width, zero-padded decimal numerals (the `%Y`, `%m`,
 * `%d` fields of `strftime`/`strptime`).
 */
module Text {

  /** Python's `a < b` on strings: code point by code point, a proper prefix first. */
  predicate Less(a: string, b: string)
    decreases |a|
  {
    |b| > 0 && (|a| == 0 || a[0] < b[0] || (a[0] == b[0] && Less(a[1..], b[1..])))
  }

  /** Python's `a <= b` on strings. */
  predicate AtMost(a: string, b: string)
  {
    Less(a, b) || a == b
  }

  lemma {:induction false} LessIrreflexive(a: string)
    ensures !Less(a, a)
  {
    if |a| > 0 {
      LessIrreflexive(a[1..]);
    }
  }

  lemma {:induction false} LessAsymmetric(a: string, b: string)
    ensures Less(a, b) ==> !Less(b, a)
    decreases |a|
  {
    if |a| > 0 && |b| > 0 && a[0] == b[0] {
      LessAsymmetric(a[1..], b[1..]);
    }
  }

  /** Two different strings are ordered one way or the other. */
  lemma {:induction false} LessTotal(a: string, b: string)
    ensures a == b || Less(a, b) || Less(b, a)
    decreases |a|
  {
    if |a| > 0 && |b| > 0 && a[0] == b[0] {
      LessTotal(a[1..], b[1..]);
      if a[1..] == b[1..] {
        assert a == [a[0]] + a[1..] && b == [b[0]] + b[1..];
      }
    }
  }

  /**
   * `>=` and `<` on strings are exact complements: a key is kept by the
   * window test `d >= c` exactly when the pruning test `d < c` rejects it.
   */
  lemma Complement(c: string, d: string)
    ensures AtMost(c, d) <==> !Less(d, c)
  {
    LessIrreflexive(d);
    LessAsymmetric(c, d);
    LessTotal(c, d);
  }

  /**
   * Comparing two concatenations whose first parts have the same length:
   * equal first parts defer to the second parts, different ones decide.
   */
  lemma {:induction false} LessConcat(p: string, s: string, q: string, t: string)
    requires |p| == |q|
    ensures p == q ==> (Less(p + s, q + t) <==> Less(s, t))
    ensures p != q ==> (Less(p + s, q + t) <==> Less(p, q))
    decreases |p|
  {
    if |p| > 0 {
      assert (p + s)[0] == p[0] && (q + t)[0] == q[0];
      assert (p + s)[1..] == p[1..] + s && (q + t)[1..] == q[1..] + t;
      LessConcat(p[1..], s, q[1..], t);
      if p[0] == q[0] && p[1..] != q[1..] {
        assert p != q;
      }
      if p[0] == q[0] && p[1..] == q[1..] {
        assert p == [p[0]] + p[1..] && q == [q[0]] + q[1..];
      }
    } else {
      assert p + s == s && q + t == t;
    }
  }

  // ---------------------------------------------------------------------------
  // Zero-padded decimal numerals

  predicate IsDigit(c: char)
  {
    '0' <= c <= '9'
  }

  predicate AllDigits(s: string)
  {
    forall i :: 0 <= i < |s| ==> IsDigit(s[i])
  }

  function Pow10(k: nat): (r: nat)
    ensures r >= 1
  {
    if k == 0 then 1 else 10 * Pow10(k - 1)
  }

  function DigitChar(n: int): (c: char)
    requires 0 <= n < 10
    ensures IsDigit(c)
  {
    ('0' as int + n) as char
  }

  /** The last `k` decimal digits of `n`, zero-padded on the left (`%0kd` for `n < 10^k`). */
  function Padded(n: nat, k: nat): (s: string)
    ensures |s| == k && AllDigits(s)
  {
    if k == 0 then [] else Padded(n / 10, k - 1) + [DigitChar(n % 10)]
  }

  /** The number a string of decimal digits denotes (Python's `int(s)` on ASCII digits). */
  function Value(s: string): nat
    requires AllDigits(s)
  {
    if s == [] then 0 else 10 * Value(s[..|s| - 1]) + (s[|s| - 1] as int - '0' as int)
  }

  lemma {:induction false} ValueBound(s: string)
    requires AllDigits(s)
    ensures Value(s) < Pow10(|s|)
  {
    if s != [] {
      ValueBound(s[..|s| - 1]);
    }
  }

  /** Reading back a padded numeral gives the number, when it fits in `k` digits. */
  lemma {:induction false} ValueOfPadded(n: nat, k: nat)
    requires n < Pow10(k)
    ensures Value(Padded(n, k)) == n
  {
    if k > 0 {
      ValueOfPadded(n / 10, k - 1);
      var s := Padded(n, k);
      assert s[..|s| - 1] == Padded(n / 10, k - 1);
    }
  }

  /** Padding the value of a digit string back to its width gives the string. */
  lemma {:induction false} PaddedOfValue(s: string)
    requires AllDigits(s)
    ensures Padded(Value(s), |s|) == s
  {
    if s != [] {
      var init := s[..|s| - 1];
      PaddedOfValue(init);
      var v := Value(s);
      var last := s[|s| - 1] as int - '0' as int;
      assert v / 10 == Value(init) && v % 10 == last;
      assert s == init + [s[|s| - 1]];
    }
  }

  /** Fixed-width numerals sort as the numbers they denote. */
  lemma {:induction false} PaddedLess(a: nat, b: nat, k: nat)
    requires a < b < Pow10(k)
    ensures Less(Padded(a, k), Padded(b, k))
  {
    var pa, pb := Padded(a / 10, k - 1), Padded(b / 10, k - 1);
    var la, lb := [DigitChar(a % 10)], [DigitChar(b % 10)];
    LessConcat(pa, la, pb, lb);
    if a / 10 == b / 10 {
      assert a % 10 < b % 10;
    } else {
      PaddedLess(a / 10, b / 10, k - 1);
      LessIrreflexive(pa);
    }
  }

  /** Equal-width numerals compare, in both directions, as their numbers. */
  lemma PaddedOrder(a: nat, b: nat, k: nat)
    requires a < Pow10(k) && b < Pow10(k)
    ensures Less(Padded(a, k), Padded(b, k)) <==> a < b
  {
    if a < b {
      PaddedLess(a, b, k);
    } else if b < a {
      PaddedLess(b, a, k);
      LessAsymmetric(Padded(b, k), Padded(a, k));
    } else {
      LessIrreflexive(Padded(a, k));
    }
  }
}
