/** The order on the `date` attribute of stored records.

    The loader sorts scanned records by their `date` string, so "latest"
    means greatest under Python's comparison of strings: lexicographic by
    code point, a proper prefix ordered before its extensions. This module
    defines that order, proves it is a total order, and proves that on
    `YYYY-MM-DD` strings it is the chronological order. */
module DateOrder {

  /** Python's `a <= b` on two strings. */
  predicate DateLe(a: string, b: string)
    decreases |a|
  {
    if a == [] then true
    else if b == [] then false
    else if a[0] != b[0] then a[0] < b[0]
    else DateLe(a[1..], b[1..])
  }

  /** Python's `a < b` on two strings. */
  predicate DateLt(a: string, b: string)
  {
    !DateLe(b, a)
  }

  lemma {:induction false} DateLeReflexive(a: string)
    ensures DateLe(a, a)
    decreases |a|
  {
    if a != [] {
      DateLeReflexive(a[1..]);
    }
  }

  lemma {:induction false} DateLeAntisymmetric(a: string, b: string)
    requires DateLe(a, b) && DateLe(b, a)
    ensures a == b
    decreases |a|
  {
    if a != [] && b != [] {
      DateLeAntisymmetric(a[1..], b[1..]);
      assert a == [a[0]] + a[1..];
      assert b == [b[0]] + b[1..];
    }
  }

  lemma {:induction false} DateLeTransitive(a: string, b: string, c: string)
    requires DateLe(a, b) && DateLe(b, c)
    ensures DateLe(a, c)
    decreases |a|
  {
    if a != [] && b != [] && c != [] && a[0] == b[0] && b[0] == c[0] {
      DateLeTransitive(a[1..], b[1..], c[1..]);
    }
  }

  lemma {:induction false} DateLeTotal(a: string, b: string)
    ensures DateLe(a, b) || DateLe(b, a)
    decreases |a|
  {
    if a != [] && b != [] && a[0] == b[0] {
      DateLeTotal(a[1..], b[1..]);
    }
  }

  /** `<` is the strict part of `<=`, as Python's string comparison promises. */
  lemma {:induction false} DateLtIsStrict(a: string, b: string)
    ensures DateLt(a, b) <==> DateLe(a, b) && a != b
  {
    DateLeTotal(a, b);
    DateLeReflexive(a);
    if DateLe(a, b) && DateLe(b, a) {
      DateLeAntisymmetric(a, b);
    }
  }

  /** Comparing two concatenations whose first parts have the same length:
      the first parts decide unless they are equal. */
  lemma {:induction false} DateLeConcat(p: string, q: string, p': string, q': string)
    requires |p| == |p'|
    ensures DateLe(p + q, p' + q') <==> if p == p' then DateLe(q, q') else DateLe(p, p')
    decreases |p|
  {
    if p == [] {
      assert p + q == q && p' + q' == q';
    } else {
      assert (p + q)[0] == p[0] && (p' + q')[0] == p'[0];
      assert (p + q)[1..] == p[1..] + q;
      assert (p' + q')[1..] == p'[1..] + q';
      DateLeConcat(p[1..], q, p'[1..], q');
      assert p == [p[0]] + p[1..];
      assert p' == [p'[0]] + p'[1..];
    }
  }

  predicate IsDigit(c: char)
  {
    '0' <= c <= '9'
  }

  predicate AllDigits(s: string)
  {
    forall i :: 0 <= i < |s| ==> IsDigit(s[i])
  }

  function Pow10(n: nat): (r: nat)
    ensures r >= 1
  {
    if n == 0 then 1 else 10 * Pow10(n - 1)
  }

  /** The number a string of decimal digits spells, most significant first. */
  function Number(s: string): nat
    requires AllDigits(s)
    decreases |s|
  {
    if s == [] then 0
    else ((s[0] as int) - ('0' as int)) * Pow10(|s| - 1) + Number(s[1..])
  }

  lemma {:induction false} NumberBound(s: string)
    requires AllDigits(s)
    ensures Number(s) < Pow10(|s|)
    decreases |s|
  {
    if s != [] {
      NumberBound(s[1..]);
      var d := (s[0] as int) - ('0' as int);
      var p := Pow10(|s| - 1);
      assert IsDigit(s[0]);
      MulMonotone(d, 9, p);
      assert Number(s) == d * p + Number(s[1..]);
      assert Pow10(|s|) == 10 * p;
    }
  }

  /** On digit strings of one length, string order is numeric order. */
  lemma {:induction false} DigitStringOrder(a: string, b: string)
    requires AllDigits(a) && AllDigits(b) && |a| == |b|
    ensures DateLe(a, b) <==> Number(a) <= Number(b)
    decreases |a|
  {
    if a != [] {
      if a[0] == b[0] {
        DigitStringOrder(a[1..], b[1..]);
      } else if a[0] < b[0] {
        FirstDigitDecides(a, b);
      } else {
        FirstDigitDecides(b, a);
      }
    }
  }

  /** A smaller leading digit makes the smaller number. */
  lemma FirstDigitDecides(a: string, b: string)
    requires AllDigits(a) && AllDigits(b) && |a| == |b| > 0
    requires a[0] < b[0]
    ensures Number(a) < Number(b)
  {
    var p := Pow10(|a| - 1);
    var da := (a[0] as int) - ('0' as int);
    var db := (b[0] as int) - ('0' as int);
    NumberBound(a[1..]);
    assert Number(a) == da * p + Number(a[1..]);
    assert Number(b) == db * p + Number(b[1..]);
    LeadingDigitBound(da, db, Number(a[1..]), Number(b[1..]), p);
  }

  /** The arithmetic behind FirstDigitDecides, kept apart from strings. */
  lemma LeadingDigitBound(da: int, db: int, ra: int, rb: int, p: int)
    requires 0 <= da < db && 0 <= ra < p && 0 <= rb
    ensures da * p + ra < db * p + rb
  {
    MulMonotone(da + 1, db, p);
    assert (da + 1) * p == da * p + p;
  }

  lemma MulMonotone(x: int, y: int, p: int)
    requires p >= 0
    requires x <= y
    ensures x * p <= y * p
  {
  }

  /** A `YYYY-MM-DD` string. */
  predicate IsIsoDate(s: string)
  {
    |s| == 10 && s[4] == '-' && s[7] == '-' &&
    AllDigits(s[..4]) && AllDigits(s[5..7]) && AllDigits(s[8..])
  }

  function Year(s: string): nat
    requires IsIsoDate(s)
  {
    Number(s[..4])
  }

  function Month(s: string): nat
    requires IsIsoDate(s)
  {
    Number(s[5..7])
  }

  function Day(s: string): nat
    requires IsIsoDate(s)
  {
    Number(s[8..])
  }

  /** Two digit strings of one length are equal exactly when their numbers are. */
  lemma DigitStringEq(a: string, b: string)
    requires AllDigits(a) && AllDigits(b) && |a| == |b|
    ensures a == b <==> Number(a) == Number(b)
  {
    DigitStringOrder(a, b);
    DigitStringOrder(b, a);
    if DateLe(a, b) && DateLe(b, a) {
      DateLeAntisymmetric(a, b);
    }
  }

  /** Splits the comparison of two strings at position k. */
  lemma DateLeSplit(a: string, b: string, k: nat)
    requires k <= |a| && k <= |b|
    ensures DateLe(a, b) <==> if a[..k] == b[..k] then DateLe(a[k..], b[k..]) else DateLe(a[..k], b[..k])
  {
    assert a == a[..k] + a[k..];
    assert b == b[..k] + b[k..];
    DateLeConcat(a[..k], a[k..], b[..k], b[k..]);
  }

  /** Sorting `YYYY-MM-DD` strings as strings orders them by year, then
      month, then day: the latest date in string order is the latest day. */
  lemma IsoDateOrderIsChronological(a: string, b: string)
    requires IsIsoDate(a) && IsIsoDate(b)
    ensures DateLe(a, b) <==>
      Year(a) < Year(b) ||
      (Year(a) == Year(b) && (Month(a) < Month(b) || (Month(a) == Month(b) && Day(a) <= Day(b))))
  {
    // year
    DateLeSplit(a, b, 4);
    DigitStringOrder(a[..4], b[..4]);
    DigitStringEq(a[..4], b[..4]);
    // the first dash
    var a1, b1 := a[4..], b[4..];
    DateLeSplit(a1, b1, 1);
    assert a1[..1] == b1[..1] == ['-'];
    var a2, b2 := a1[1..], b1[1..];
    assert a2 == a[5..] && b2 == b[5..];
    // month
    DateLeSplit(a2, b2, 2);
    assert a2[..2] == a[5..7] && b2[..2] == b[5..7];
    DigitStringOrder(a[5..7], b[5..7]);
    DigitStringEq(a[5..7], b[5..7]);
    // the second dash
    var a3, b3 := a2[2..], b2[2..];
    DateLeSplit(a3, b3, 1);
    assert a3[..1] == b3[..1] == ['-'];
    assert a3[1..] == a[8..] && b3[1..] == b[8..];
    // day
    DigitStringOrder(a[8..], b[8..]);
  }
}
