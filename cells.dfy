/**
 * The values a spreadsheet or CSV reader hands to the program: a missing cell
 * (`None`/NaN/NaT), a string, an integer, a floating-point number (kept as the
 * exact decimal it is written as) or a timestamp.
 */
module Cells {
  import opened Text
  import opened Dates

  /** The number `mant * 10^-exp`. */
  datatype Decimal = Decimal(mant: int, exp: int)

  datatype Cell =
    | Blank
    | Str(s: string)
    | Whole(i: int)
    | Num(d: Decimal)
    | When(t: Stamp)

  function RealPow10(k: nat): (p: real)
    ensures p >= 1.0
  {
    if k == 0 then 1.0 else 10.0 * RealPow10(k - 1)
  }

  function Value(d: Decimal): real {
    if d.exp >= 0 then d.mant as real / RealPow10(d.exp) else d.mant as real * RealPow10(-d.exp)
  }

  /** `pd.isna(x)`. */
  predicate IsNa(c: Cell) {
    c.Blank?
  }

  predicate ValidCell(c: Cell) {
    c.When? ==> ValidStamp(c.t)
  }

  /** The same number with no negative exponent and no trailing zero after
      the decimal point. */
  function Normalize(d: Decimal): (r: Decimal)
    ensures r.exp >= 0
    ensures Value(r) == Value(d)
    ensures r.exp > 0 ==> r.mant % 10 != 0
    decreases if d.exp >= 0 then d.exp else 0, if d.exp < 0 then -d.exp else 0
  {
    if d.exp < 0 then
      ScaleUp(d.mant, -d.exp);
      Normalize(Decimal(d.mant * 10, d.exp + 1))
    else if d.exp > 0 && d.mant % 10 == 0 then
      ScaleDown(d.mant, d.exp);
      Normalize(Decimal(d.mant / 10, d.exp - 1))
    else d
  }

  lemma ScaleUp(m: int, k: int)
    requires k >= 1
    ensures Value(Decimal(m, -k)) == Value(Decimal(m * 10, -k + 1))
  {
    if k == 1 {
    } else {
      assert RealPow10(k) == 10.0 * RealPow10(k - 1);
    }
  }

  lemma ScaleDown(m: int, k: nat)
    requires k >= 1 && m % 10 == 0
    ensures Value(Decimal(m, k)) == Value(Decimal(m / 10, k - 1))
  {
    var q := m / 10;
    assert m == q * 10;
    assert RealPow10(k) == 10.0 * RealPow10(k - 1);
    assert m as real == q as real * 10.0;
  }

  /** Python's `repr` of a float whose shortest decimal form is `d`, in
      positional notation: the digits, a point and at least one fraction digit. */
  function ShowDecimal(d: Decimal): (r: string)
    ensures |r| >= 3
  {
    var n := Normalize(d);
    Positional(n.mant < 0, if n.mant < 0 then -n.mant else n.mant, n.exp)
  }

  /** The number `a * 10^-e`, with a leading "-" when `neg`. */
  function Positional(neg: bool, a: nat, e: nat): (r: string)
    ensures |r| >= 3
  {
    var sign := if neg then "-" else "";
    if e == 0 then sign + NatToString(a) + ".0"
    else
      var p := Pow10(e);
      DivisionOfNat(a, p);
      var whole: nat, frac: nat := a / p, a % p;
      sign + NatToString(whole) + "." + PadNat(frac, e)
  }

  lemma DivisionOfNat(a: nat, p: int)
    requires p >= 1
    ensures a / p >= 0 && 0 <= a % p < p
  {
  }

  /** Python's `str(x)` of a cell value; a missing cell read as NaN shows as "nan". */
  function Show(c: Cell): (r: string)
    requires ValidCell(c)
    ensures c.Str? ==> r == c.s
    ensures c.Blank? ==> r == "nan"
  {
    match c
    case Blank => "nan"
    case Str(s) => s
    case Whole(i) => IntToString(i)
    case Num(d) => ShowDecimal(d)
    case When(t) => ShowStamp(t)
  }

  /** The text of a cell as it appears in a validation error: a missing value
      is printed as "None". */
  function ShowFailure(c: Cell): (r: string)
    requires ValidCell(c)
  {
    if c.Blank? then "None" else Show(c)
  }
}
