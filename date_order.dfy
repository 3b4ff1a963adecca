/** The order the client sorts holidays by. The comparator subtracts two
    `Date` values parsed from `yyyy-mm-dd` strings; the model compares the
    strings character by character and proves that, on well-formed ISO dates,
    this is the calendar order of (year, month, day). */
module DateOrder {

  /** Strict lexicographic order on strings (a proper prefix comes first). */
  predicate LexLess(a: string, b: string) {
    if |a| == 0 then |b| > 0
    else if |b| == 0 then false
    else if a[0] == b[0] then LexLess(a[1..], b[1..])
    else a[0] < b[0]
  }

  lemma {:induction false} LexIrreflexive(a: string)
    ensures !LexLess(a, a)
  {
    if |a| > 0 {
      LexIrreflexive(a[1..]);
    }
  }

  lemma {:induction false} LexAsymmetric(a: string, b: string)
    ensures LexLess(a, b) ==> !LexLess(b, a)
  {
    if |a| > 0 && |b| > 0 && a[0] == b[0] {
      LexAsymmetric(a[1..], b[1..]);
    }
  }

  lemma {:induction false} LexTotal(a: string, b: string)
    ensures a != b ==> LexLess(a, b) || LexLess(b, a)
  {
    if |a| > 0 && |b| > 0 && a[0] == b[0] {
      LexTotal(a[1..], b[1..]);
      if a[1..] == b[1..] {
        assert a == [a[0]] + a[1..] && b == [b[0]] + b[1..];
      }
    }
  }

  lemma {:induction false} LexTransitive(a: string, b: string, c: string)
    ensures LexLess(a, b) && LexLess(b, c) ==> LexLess(a, c)
  {
    if |a| > 0 && |b| > 0 && |c| > 0 && a[0] == b[0] == c[0] {
      LexTransitive(a[1..], b[1..], c[1..]);
    }
  }

  /** `a` comes no later than `b`: what the comparator's non-positive result
      means. */
  predicate DateLe(a: string, b: string) {
    !LexLess(b, a)
  }

  lemma DateLeTotal(a: string, b: string)
    ensures DateLe(a, b) || DateLe(b, a)
  {
    LexAsymmetric(a, b);
  }

  lemma DateLeTransitive(a: string, b: string, c: string)
    requires DateLe(a, b) && DateLe(b, c)
    ensures DateLe(a, c)
  {
    LexTotal(a, b);
    LexTransitive(c, a, b);
  }

  // ----- ISO calendar dates -----

  predicate IsDigit(c: char) {
    '0' <= c <= '9'
  }

  predicate AllDigits(s: string) {
    forall i :: 0 <= i < |s| ==> IsDigit(s[i])
  }

  function Pow10(n: nat): (p: nat)
    ensures p >= 1
  {
    if n == 0 then 1 else 10 * Pow10(n - 1)
  }

  /** The decimal value of a digit string, most significant digit first. */
  function Number(s: string): (v: nat)
    requires AllDigits(s)
    ensures v < Pow10(|s|)
  {
    if s == [] then 0
    else
      var d := (s[0] as int) - ('0' as int);
      MulMonotone(d, 9, Pow10(|s| - 1));
      d * Pow10(|s| - 1) + Number(s[1..])
  }

  /** `yyyy-mm-dd`, the value of an `<input type="date">`. */
  predicate IsIsoDate(s: string) {
    |s| == 10 && s[4] == '-' && s[7] == '-' &&
    AllDigits(s[0..4]) && AllDigits(s[5..7]) && AllDigits(s[8..10])
  }

  function Year(s: string): nat requires IsIsoDate(s) { Number(s[0..4]) }
  function Month(s: string): nat requires IsIsoDate(s) { Number(s[5..7]) }
  function Day(s: string): nat requires IsIsoDate(s) { Number(s[8..10]) }

  /** The calendar order of two ISO dates, by year, then month, then day. */
  predicate CalendarBefore(a: string, b: string)
    requires IsIsoDate(a) && IsIsoDate(b)
  {
    Year(a) < Year(b) ||
    (Year(a) == Year(b) && Month(a) < Month(b)) ||
    (Year(a) == Year(b) && Month(a) == Month(b) && Day(a) < Day(b))
  }

  lemma MulMonotone(x: nat, y: nat, p: nat)
    requires x <= y
    ensures x * p <= y * p
  {
  }

  /** On digit strings of one length, character order is numeric order. */
  lemma {:induction false} DigitsOrder(x: string, y: string)
    requires AllDigits(x) && AllDigits(y) && |x| == |y|
    ensures LexLess(x, y) <==> Number(x) < Number(y)
    ensures x == y <==> Number(x) == Number(y)
  {
    if |x| > 0 {
      DigitsOrder(x[1..], y[1..]);
      var p := Pow10(|x| - 1);
      var dx := (x[0] as int) - ('0' as int);
      var dy := (y[0] as int) - ('0' as int);
      assert Number(x) == dx * p + Number(x[1..]);
      assert Number(y) == dy * p + Number(y[1..]);
      if dx < dy {
        MulMonotone(dx + 1, dy, p);
        assert Number(x) < (dx + 1) * p;
      } else if dy < dx {
        MulMonotone(dy + 1, dx, p);
        assert Number(y) < (dy + 1) * p;
      } else {
        assert x[0] == y[0];
        assert x == [x[0]] + x[1..] && y == [y[0]] + y[1..];
      }
    }
  }

  /** Comparing two concatenations whose first parts have one length. */
  lemma {:induction false} LexConcat(x1: string, x2: string, y1: string, y2: string)
    requires |x1| == |y1|
    ensures LexLess(x1 + x2, y1 + y2) <==> LexLess(x1, y1) || (x1 == y1 && LexLess(x2, y2))
  {
    if |x1| > 0 {
      LexConcat(x1[1..], x2, y1[1..], y2);
      assert (x1 + x2)[1..] == x1[1..] + x2;
      assert (y1 + y2)[1..] == y1[1..] + y2;
      if x1[0] == y1[0] {
        assert x1 == y1 <==> x1[1..] == y1[1..] by {
          assert x1 == [x1[0]] + x1[1..] && y1 == [y1[0]] + y1[1..];
        }
      }
    } else {
      assert x1 + x2 == x2 && y1 + y2 == y2;
    }
  }

  /** For ISO dates the string order the model sorts by is the calendar
      order that subtracting the parsed `Date` values gives. */
  lemma IsoLexOrderIsCalendarOrder(a: string, b: string)
    requires IsIsoDate(a) && IsIsoDate(b)
    ensures LexLess(a, b) <==> CalendarBefore(a, b)
  {
    assert a == a[0..4] + (a[4..5] + (a[5..7] + (a[7..8] + a[8..10])));
    assert b == b[0..4] + (b[4..5] + (b[5..7] + (b[7..8] + b[8..10])));
    assert a[4..5] == b[4..5] == "-" && a[7..8] == b[7..8] == "-";
    DigitsOrder(a[0..4], b[0..4]);
    DigitsOrder(a[5..7], b[5..7]);
    DigitsOrder(a[8..10], b[8..10]);
    LexIrreflexive("-");
    LexConcat(a[0..4], a[4..5] + (a[5..7] + (a[7..8] + a[8..10])), b[0..4], b[4..5] + (b[5..7] + (b[7..8] + b[8..10])));
    LexConcat(a[4..5], a[5..7] + (a[7..8] + a[8..10]), b[4..5], b[5..7] + (b[7..8] + b[8..10]));
    LexConcat(a[5..7], a[7..8] + a[8..10], b[5..7], b[7..8] + b[8..10]);
    LexConcat(a[7..8], a[8..10], b[7..8], b[8..10]);
  }
}
