/**
  `SocialLocation.build_cell_key` of social/models.py: both coordinates, exact decimals, printed with
  four places.  Rounding is half to even, and the sign is printed even when only zeros are left.
*/
module CellKey {
  import opened Options
  import opened Text

  /** The decimal with digits `mag`, `scale` of them after the point; `1E+2` has the scale -2. */
  datatype Coord = Coord(neg: bool, mag: nat, scale: int)

  /** A coordinate in ten-thousandths of a degree. */
  datatype Cell = Cell(neg: bool, n: nat)

  function Pow10(k: nat): (p: nat)
    ensures p > 0
  {
    if k == 0 then 1 else 10 * Pow10(k - 1)
  }

  /** `n / p` rounded to the nearest integer, a tie to the even one. */
  function HalfEven(n: nat, p: nat): nat
    requires p > 0
  {
    var q, r := n / p, n % p;
    if 2 * r < p || (2 * r == p && q % 2 == 0) then q else q + 1
  }

  function Rounded(c: Coord): Cell {
    Cell(c.neg, if c.scale <= 4 then c.mag * Pow10(4 - c.scale) else HalfEven(c.mag, Pow10(c.scale - 4)))
  }

  /** The last k digits of m, zeros included. */
  function Padded(m: nat, k: nat): (s: string)
    ensures |s| == k && AllDigits(s)
    decreases k
  {
    if k == 0 then "" else Padded(m / 10, k - 1) + [DigitChar(m % 10)]
  }

  function Print(c: Cell): string {
    var unsigned := Dec(c.n / 10000) + "." + Padded(c.n % 10000, 4);
    if c.neg then "-" + unsigned else unsigned
  }

  function BuildCellKey(latitude: Coord, longitude: Coord): string {
    Print(Rounded(latitude)) + "," + Print(Rounded(longitude))
  }

  // ---- reading a key back -------------------------------------------------------------

  /** The text before a point and the four characters after it. */
  function AtPoint(s: string): Option<(string, string)> {
    if |s| > 5 && s[|s| - 5] == '.' then Some((s[..|s| - 5], s[|s| - 4..])) else None
  }

  function ParseUnsigned(s: string): Option<nat> {
    match AtPoint(s)
    case None => None
    case Some((whole, frac)) =>
      if AllDigits(whole) && AllDigits(frac) then Some(DecValue(whole) * 10000 + DecValue(frac)) else None
  }

  function ParseCell(s: string): Option<Cell> {
    var neg := s != "" && s[0] == '-';
    var n := ParseUnsigned(if neg then s[1..] else s);
    if n.None? then None else Some(Cell(neg, n.value))
  }

  function CommaAt(s: string): (i: nat)
    ensures i <= |s| && ',' !in s[..i] && (i < |s| ==> s[i] == ',')
  {
    if s == "" || s[0] == ',' then 0
    else
      var i := CommaAt(s[1..]);
      assert s[..i + 1] == [s[0]] + s[1..][..i];
      i + 1
  }

  function ParseKey(s: string): Option<(Cell, Cell)> {
    var i := CommaAt(s);
    if i == |s| then None
    else
      var a, b := ParseCell(s[..i]), ParseCell(s[i + 1..]);
      if a.None? || b.None? then None else Some((a.value, b.value))
  }

  lemma SnocValue(s: string, c: char)
    requires AllDigits(s) && IsDigit(c)
    ensures DecValue(s + [c]) == DecValue(s) * 10 + DigitValue(c)
  {
    assert (s + [c])[..|s|] == s;
  }

  lemma {:induction false} PaddedValue(m: nat, k: nat)
    requires m < Pow10(k)
    ensures DecValue(Padded(m, k)) == m
    decreases k
  {
    if k > 0 {
      PaddedValue(m / 10, k - 1);
      SnocValue(Padded(m / 10, k - 1), DigitChar(m % 10));
    }
  }

  lemma AtPointParts(whole: string, frac: string)
    requires whole != "" && |frac| == 4
    ensures AtPoint(whole + "." + frac) == Some((whole, frac))
  {
    var body := whole + "." + frac;
    assert body[..|whole|] == whole && body[|whole| + 1..] == frac;
  }

  lemma ParseSigned(body: string, n: nat)
    requires body != "" && IsDigit(body[0]) && ParseUnsigned(body) == Some(n)
    ensures ParseCell(body) == Some(Cell(false, n)) && ParseCell("-" + body) == Some(Cell(true, n))
  {
    assert ("-" + body)[1..] == body;
  }

  lemma TenThousand()
    ensures Pow10(4) == 10000
  {
    assert Pow10(1) == 10;
    assert Pow10(2) == 100;
    assert Pow10(3) == 1000;
  }

  lemma DigitsHaveNoComma(s: string, u: string)
    requires AllDigits(s) && AllDigits(u)
    ensures ',' !in s + "." + u && ',' !in "-" + (s + "." + u)
  {
    assert ',' !in s && ',' !in u;
  }

  lemma ParseUnsignedInverts(n: nat)
    ensures var body := Dec(n / 10000) + "." + Padded(n % 10000, 4);
            ParseUnsigned(body) == Some(n) && IsDigit(body[0])
  {
    var whole, frac := Dec(n / 10000), Padded(n % 10000, 4);
    AtPointParts(whole, frac);
    DecRoundTrip(n / 10000);
    TenThousand();
    PaddedValue(n % 10000, 4);
    assert (whole + "." + frac)[0] == whole[0];
  }

  lemma ParseInvertsPrint(c: Cell)
    ensures ParseCell(Print(c)) == Some(c) && ',' !in Print(c)
  {
    var whole, frac := Dec(c.n / 10000), Padded(c.n % 10000, 4);
    ParseUnsignedInverts(c.n);
    ParseSigned(whole + "." + frac, c.n);
    DigitsHaveNoComma(whole, frac);
  }

  lemma CommaAtFirst(a: string, b: string)
    requires ',' !in a
    ensures CommaAt(a + "," + b) == |a|
  {
    var all, i := a + "," + b, CommaAt(a + "," + b);
    assert all[|a|] == ',';
    assert forall k | 0 <= k < |a| :: all[k] == a[k];
    assert forall k | 0 <= k < i :: all[..i][k] == all[k];
  }

  /** A cell key reads back as the two rounded coordinates. */
  lemma KeyReadsBack(latitude: Coord, longitude: Coord)
    ensures ParseKey(BuildCellKey(latitude, longitude)) == Some((Rounded(latitude), Rounded(longitude)))
  {
    var a, b := Print(Rounded(latitude)), Print(Rounded(longitude));
    ParseInvertsPrint(Rounded(latitude));
    ParseInvertsPrint(Rounded(longitude));
    CommaAtFirst(a, b);
    var key := a + "," + b;
    assert key[..|a|] == a && key[|a| + 1..] == b;
  }

  // ---- half to even -----------------------------------------------------------------------

  /** `x / 10^k`, exactly */
  function Shift(x: real, k: nat): real {
    if k == 0 then x else Shift(x, k - 1) / 10.0
  }

  function Abs(x: real): real { if x < 0.0 then -x else x }

  /** The coordinate without its sign, exactly. */
  function Size(c: Coord): real {
    if c.scale >= 0 then Shift(c.mag as real, c.scale) else (c.mag * Pow10(-c.scale)) as real
  }

  function Value(c: Coord): real { if c.neg then -Size(c) else Size(c) }

  /** The degrees a cell stands for. */
  function Degrees(c: Cell): real {
    var v := c.n as real / 10000.0;
    if c.neg then -v else v
  }

  lemma {:induction false} ShiftLinear(x: real, y: real, k: nat)
    ensures Shift(x + y, k) == Shift(x, k) + Shift(y, k)
    ensures Shift(-x, k) == -Shift(x, k)
    ensures x <= y ==> Shift(x, k) <= Shift(y, k)
    ensures x < y ==> Shift(x, k) < Shift(y, k)
  {
    if k > 0 { ShiftLinear(x, y, k - 1); }
  }

  lemma {:induction false} ShiftWhole(q: nat, k: nat)
    ensures Shift((q * Pow10(k)) as real, k) == q as real
    decreases k
  {
    if k > 0 {
      ShiftWhole(10 * q, k - 1);
      assert q * Pow10(k) == 10 * q * Pow10(k - 1);
    }
  }

  lemma {:induction false} ShiftTwice(x: real, j: nat, k: nat)
    ensures Shift(Shift(x, j), k) == Shift(x, j + k)
  {
    if k > 0 { ShiftTwice(x, j, k - 1); }
  }

  /** The closest multiple of 1/10000, and the even one of two. */
  predicate Nearest(x: real, n: nat) {
    && Abs(x - n as real / 10000.0) <= 0.00005
    && (Abs(x - n as real / 10000.0) == 0.00005 ==> n % 2 == 0)
  }

  lemma NearestIsUnique(x: real, m: nat, n: nat)
    requires Nearest(x, m) && Nearest(x, n)
    ensures m == n
  {
    var dm, dn := m as real / 10000.0, n as real / 10000.0;
    assert Abs(dm - dn) <= 0.0001;
    assert -1 <= m - n <= 1;
  }

  lemma HalfEvenNearest(mag: nat, k: nat)
    ensures var x := Shift(mag as real, k);
            var q := HalfEven(mag, Pow10(k));
            -0.5 <= x - q as real <= 0.5 && (Abs(x - q as real) == 0.5 ==> q % 2 == 0)
  {
    ShiftQuotient(mag, k);
    RemainderHalf(mag % Pow10(k), k);
  }

  lemma DivMod(n: nat, p: nat) returns (q: nat, r: nat)
    requires p > 0
    ensures q == n / p && r == n % p && n == q * p + r
  {
    q, r := n / p, n % p;
  }

  lemma ShiftQuotient(mag: nat, k: nat)
    ensures Shift(mag as real, k) == (mag / Pow10(k)) as real + Shift((mag % Pow10(k)) as real, k)
  {
    var q, r := DivMod(mag, Pow10(k));
    ShiftSplit(mag, q, r, k);
  }

  lemma ShiftSplit(mag: nat, q: nat, r: nat, k: nat)
    requires mag == q * Pow10(k) + r
    ensures Shift(mag as real, k) == q as real + Shift(r as real, k)
  {
    ShiftWhole(q, k);
    ShiftLinear((q * Pow10(k)) as real, r as real, k);
  }

  /** A remainder is less than one half, one half or more of the divisor, before and after scaling. */
  lemma RemainderHalf(r: nat, k: nat)
    requires r < Pow10(k)
    ensures var x := Shift(r as real, k);
            && 0.0 <= x < 1.0 && (2 * r < Pow10(k) <==> x < 0.5) && (2 * r == Pow10(k) <==> x == 0.5)
  {
    var x, one := r as real, Pow10(k) as real;
    ShiftWhole(1, k);
    ShiftWhole(0, k);
    ShiftLinear(x, x, k);
    ShiftLinear(0.0, x, k);
    ShiftLinear(x, one, k);
    ShiftLinear(x + x, one, k);
    ShiftLinear(one, x + x, k);
    assert 1 * Pow10(k) == Pow10(k) && 0 * Pow10(k) == 0;
  }

  /** What is kept of a coordinate is the one cell nearest to it, ties to even. */
  lemma RoundsToNearest(c: Coord)
    ensures Nearest(Size(c), Rounded(c).n)
    ensures Abs(Value(c) - Degrees(Rounded(c))) <= 0.00005
    ensures forall x, n: nat | Nearest(x, n) && x == Size(c) :: n == Rounded(c).n
  {
    var x, n := Size(c), Rounded(c).n;
    if c.scale < 0 {
      ShiftUp(c.mag, -c.scale);
    } else if c.scale <= 4 {
      ShiftSmall(c.mag, c.scale);
    } else {
      var k := c.scale - 4;
      HalfEvenNearest(c.mag, k);
      ShiftTwice(c.mag as real, k, 4);
      ShiftFour(Shift(c.mag as real, k));
    }
    assert Nearest(x, n);
    forall m: nat | Nearest(x, m) ensures m == n { NearestIsUnique(x, m, n); }
  }

  lemma ShiftFour(x: real)
    ensures Shift(x, 4) == x / 10000.0
  {
    assert Shift(x, 1) == x / 10.0;
    assert Shift(x, 2) == x / 100.0;
    assert Shift(x, 3) == x / 1000.0;
  }

  lemma ShiftUp(mag: nat, k: nat)
    ensures (mag * Pow10(4 + k)) as real / 10000.0 == (mag * Pow10(k)) as real
  {
    assert Pow10(1 + k) == 10 * Pow10(k);
    assert Pow10(2 + k) == 100 * Pow10(k);
    assert Pow10(3 + k) == 1000 * Pow10(k);
    assert Pow10(4 + k) == 10000 * Pow10(k);
    var n := mag * Pow10(k);
    assert mag * Pow10(4 + k) == 10000 * n;
  }

  lemma ShiftSmall(mag: nat, scale: nat)
    requires scale <= 4
    ensures Shift(mag as real, scale) == (mag * Pow10(4 - scale)) as real / 10000.0
  {
    var y := (mag * Pow10(4 - scale)) as real;
    ShiftWhole(mag, 4 - scale);
    ShiftTwice(y, 4 - scale, scale);
    ShiftFour(y);
  }

  // ---- what a shared key means ---------------------------------------------------------------

  /** Equal keys are equal rounded coordinates, sign included, and such places are at most 0.0001 of a
      degree apart in each coordinate. */
  lemma EqualKeysExactly(a: Coord, b: Coord, c: Coord, d: Coord)
    ensures BuildCellKey(a, b) == BuildCellKey(c, d) <==> Rounded(a) == Rounded(c) && Rounded(b) == Rounded(d)
    ensures BuildCellKey(a, b) == BuildCellKey(c, d) ==>
              Abs(Value(a) - Value(c)) <= 0.0001 && Abs(Value(b) - Value(d)) <= 0.0001
  {
    KeyReadsBack(a, b);
    KeyReadsBack(c, d);
    RoundsToNearest(a);
    RoundsToNearest(b);
    RoundsToNearest(c);
    RoundsToNearest(d);
  }

  /** Two readings of one cell share its text except on the zero line approached from both sides. */
  lemma SameCellSameTextExactly(a: Coord, c: Coord)
    requires Degrees(Rounded(a)) == Degrees(Rounded(c))
    ensures Print(Rounded(a)) == Print(Rounded(c)) <==> !(Rounded(a).n == 0 && a.neg != c.neg)
  {
    PrintInjective(Rounded(a), Rounded(c));
    SameDegrees(Rounded(a), Rounded(c));
  }

  lemma PrintInjective(c: Cell, d: Cell)
    ensures Print(c) == Print(d) <==> c == d
  {
    ParseInvertsPrint(c);
    ParseInvertsPrint(d);
  }

  lemma SameDegrees(c: Cell, d: Cell)
    ensures Degrees(c) == Degrees(d) <==> c.n == d.n && (c.n == 0 || c.neg == d.neg)
  {
  }
}
