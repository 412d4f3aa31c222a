/** The text that the optimizer query renders for an average price, as
    PostgreSQL's `round(x::numeric, 3)::varchar` produces it, and the order
    of such texts that `ORDER BY` applies to a varchar column. */
module PriceText {
  import opened Decimal

  /** `round(x, 3)` on a numeric, counted in thousandths: the nearest
      thousandth, halves rounded away from zero. */
  function RoundToThousandths(x: real): (m: int)
    ensures x >= 0.0 ==> m as real - 0.5 <= x * 1000.0 < m as real + 0.5
    ensures x < 0.0 ==> m as real - 0.5 < x * 1000.0 <= m as real + 0.5
  {
    if x >= 0.0 then (x * 1000.0 + 0.5).Floor else -((-x * 1000.0 + 0.5).Floor)
  }

  /** The text of a numeric of scale 3 given in thousandths: an optional minus
      sign, the integer part, a point and exactly three fraction digits. */
  function NumericText(m: int): (s: string)
    ensures |s| >= 5 && s[|s| - 4] == '.'
    ensures s[0] == '-' <==> m < 0
  {
    var a := if m < 0 then -m else m;
    (if m < 0 then "-" else "") + NatText(a / 1000) + "."
      + [DigitChar(a % 1000 / 100), DigitChar(a % 100 / 10), DigitChar(a % 10)]
  }

  /** The text spells the value: after the sign, the integer part and the
      three fraction digits read back as `|m|` thousandths. */
  lemma NumericTextSpellsValue(m: int)
    ensures var s := NumericText(m);
      var sign := if m < 0 then 1 else 0;
      && sign < |s| - 4
      && AllDigits(s[sign..|s| - 4]) && AllDigits(s[|s| - 3..])
      && DigitsValue(s[sign..|s| - 4]) * 1000 + DigitsValue(s[|s| - 3..]) == (if m < 0 then -m else m)
  {
    var a := if m < 0 then -m else m;
    var sign := if m < 0 then 1 else 0;
    var s := NumericText(m);
    var whole := NatText(a / 1000);
    var fraction := [DigitChar(a % 1000 / 100), DigitChar(a % 100 / 10), DigitChar(a % 10)];
    assert s == (if m < 0 then "-" else "") + whole + "." + fraction;
    assert s[sign..|s| - 4] == whole;
    assert s[|s| - 3..] == fraction;
    NatTextRoundTrip(a / 1000);
    ThreeDigitsValue(a % 1000 / 100, a % 100 / 10, a % 10);
    HundredsOfThousands(a);
    TensOfHundreds(a);
  }

  lemma ThreeDigitsValue(x: int, y: int, z: int)
    requires 0 <= x < 10 && 0 <= y < 10 && 0 <= z < 10
    ensures DigitsValue([DigitChar(x), DigitChar(y), DigitChar(z)]) == 100 * x + 10 * y + z
  {
    var s := [DigitChar(x), DigitChar(y), DigitChar(z)];
    assert s[..2][..1][..0] == [];
    assert DigitsValue(s[..2][..1]) == x;
    assert DigitsValue(s[..2]) == 10 * x + y;
  }

  /** Code-point lexicographic order of strings (the C collation). */
  predicate TextLe(a: string, b: string)
    decreases |a|
  {
    if a == [] then true
    else if b == [] then false
    else a[0] < b[0] || (a[0] == b[0] && TextLe(a[1..], b[1..]))
  }

  lemma {:induction false} TextLeReflexive(a: string)
    ensures TextLe(a, a)
    decreases |a|
  {
    if a != [] {
      TextLeReflexive(a[1..]);
    }
  }

  lemma {:induction false} TextLeTotal(a: string, b: string)
    ensures TextLe(a, b) || TextLe(b, a)
    decreases |a|
  {
    if a != [] && b != [] && a[0] == b[0] {
      TextLeTotal(a[1..], b[1..]);
    }
  }

  lemma {:induction false} TextLeTransitive(a: string, b: string, c: string)
    requires TextLe(a, b) && TextLe(b, c)
    ensures TextLe(a, c)
    decreases |a|
  {
    if a != [] && b != [] && c != [] && a[0] == b[0] && b[0] == c[0] {
      TextLeTransitive(a[1..], b[1..], c[1..]);
    }
  }

  /** For a value in [0, 10) the text is `d.ddd`. */
  lemma SmallNumericText(m: int)
    requires 0 <= m < 10000
    ensures NumericText(m) == [DigitChar(m / 1000), '.', DigitChar(m % 1000 / 100), DigitChar(m % 100 / 10), DigitChar(m % 10)]
  {
    assert NatText(m / 1000) == [DigitChar(m / 1000)];
  }

  /** On five-character texts the order is that of the first difference. */
  lemma TextLeFive(a: string, b: string)
    requires |a| == 5 && |b| == 5
    ensures TextLe(a, b) <==>
      a[0] < b[0] || (a[0] == b[0] && (a[1] < b[1] || (a[1] == b[1] && (a[2] < b[2] || (a[2] == b[2] &&
      (a[3] < b[3] || (a[3] == b[3] && a[4] <= b[4])))))))
  {
    var a1, b1 := a[1..], b[1..];
    var a2, b2 := a1[1..], b1[1..];
    var a3, b3 := a2[1..], b2[1..];
    var a4, b4 := a3[1..], b3[1..];
    assert TextLe(a4[1..], b4[1..]);
    assert TextLe(a4, b4) <==> a4[0] <= b4[0];
    assert TextLe(a3, b3) <==> a3[0] < b3[0] || (a3[0] == b3[0] && TextLe(a4, b4));
    assert TextLe(a2, b2) <==> a2[0] < b2[0] || (a2[0] == b2[0] && TextLe(a3, b3));
    assert TextLe(a1, b1) <==> a1[0] < b1[0] || (a1[0] == b1[0] && TextLe(a2, b2));
  }

  lemma HundredsOfThousands(m: int)
    requires 0 <= m
    ensures m % 1000 % 100 == m % 100
  {
    var q0, r0 := m / 1000, m % 1000;
    var q1, r1 := r0 / 100, r0 % 100;
    assert m == 100 * (10 * q0 + q1) + r1;
  }

  lemma TensOfHundreds(m: int)
    requires 0 <= m
    ensures m % 100 % 10 == m % 10
  {
    var q0, r0 := m / 100, m % 100;
    var q1, r1 := r0 / 10, r0 % 10;
    assert m == 10 * (10 * q0 + q1) + r1;
  }

  /** The four decimal digits of a value in [0, 10000). */
  lemma FourDigits(m: int)
    requires 0 <= m < 10000
    ensures 0 <= m / 1000 < 10 && 0 <= m % 1000 / 100 < 10 && 0 <= m % 100 / 10 < 10 && 0 <= m % 10 < 10
    ensures m == 1000 * (m / 1000) + 100 * (m % 1000 / 100) + 10 * (m % 100 / 10) + m % 10
  {
    HundredsOfThousands(m);
    TensOfHundreds(m);
  }

  /** Lexicographic order of digit tuples is the order of their values. */
  lemma DigitTupleOrder(q0: int, q1: int, q2: int, q3: int, r0: int, r1: int, r2: int, r3: int)
    requires 0 <= q0 < 10 && 0 <= q1 < 10 && 0 <= q2 < 10 && 0 <= q3 < 10
    requires 0 <= r0 < 10 && 0 <= r1 < 10 && 0 <= r2 < 10 && 0 <= r3 < 10
    ensures (q0 < r0 || (q0 == r0 && (q1 < r1 || (q1 == r1 && (q2 < r2 || (q2 == r2 && q3 <= r3))))))
      <==> 1000 * q0 + 100 * q1 + 10 * q2 + q3 <= 1000 * r0 + 100 * r1 + 10 * r2 + r3
  {
  }

  /** For rounded averages in [0, 10) the text order is the numeric order. */
  lemma TextOrderIsNumericBelowTen(m: int, n: int)
    requires 0 <= m < 10000 && 0 <= n < 10000
    ensures TextLe(NumericText(m), NumericText(n)) <==> m <= n
  {
    SmallNumericText(m);
    SmallNumericText(n);
    TextLeFive(NumericText(m), NumericText(n));
    FourDigits(m);
    FourDigits(n);
    DigitTupleOrder(m / 1000, m % 1000 / 100, m % 100 / 10, m % 10, n / 1000, n % 1000 / 100, n % 100 / 10, n % 10);
  }

  /** Below zero the text order is not the numeric order: `-0.050` sorts
      before `-0.100`, although -0.100 is the smaller value. */
  lemma TextOrderMisranksNegatives()
    ensures TextLe(NumericText(-50), NumericText(-100))
    ensures !TextLe(NumericText(-100), NumericText(-50))
  {
    var s, t := NumericText(-50), NumericText(-100);
    assert NatText(0) == "0";
    assert s == "-0.050";
    assert t == "-0.100";
    assert s[1..][1..][1..] == "050" && t[1..][1..][1..] == "100";
  }
}
