/**
 * Validation of the consolidated schedule sheet (lib/validators.py): the
 * 19-column presence check, the coercion of hours, year and dates, and the
 * per-cell null and type checks, whose failures are all collected.
 */
module Validators {
  import opened Wrappers
  import opened Text
  import opened Dates
  import opened Cells

  const ExpectedColumns: seq<string> := [
    "Programa", "Año", "Módulo", "Materia", "Horas",
    "Profesor 1", "Profesor 2", "Profesor 3",
    "Inicio", "Final", "Día", "Horario", "Formato",
    "Orientación", "Comentarios", "TipoMateria", "SolapaFuente",
    "MateriaID", "MateriaKey"]

  /** The checks the schema declares for a column. */
  datatype Kind = StringCol(nullable: bool) | IntCol | FloatCol | DateCol

  /** The validation schema, column by column in declaration order. */
  const Schema: seq<(string, Kind)> := [
    ("Programa", StringCol(false)), ("Año", IntCol), ("Módulo", StringCol(false)),
    ("Materia", StringCol(false)), ("Horas", FloatCol),
    ("Profesor 1", StringCol(true)), ("Profesor 2", StringCol(true)), ("Profesor 3", StringCol(true)),
    ("Inicio", DateCol), ("Final", DateCol), ("Día", StringCol(true)), ("Horario", StringCol(true)),
    ("Formato", StringCol(true)), ("Orientación", StringCol(true)), ("Comentarios", StringCol(true)),
    ("TipoMateria", StringCol(true)), ("SolapaFuente", StringCol(true)),
    ("MateriaID", StringCol(false)), ("MateriaKey", StringCol(true))]

  /** A sheet as read: column names and rows of cells, one per column. */
  datatype Sheet = Sheet(columns: seq<string>, rows: seq<seq<Cell>>)

  predicate DistinctNames(xs: seq<string>) {
    forall i, j :: 0 <= i < j < |xs| ==> xs[i] != xs[j]
  }

  /** What the reader guarantees: distinct column names, rectangular rows and
      timestamps that are real calendar instants. */
  predicate WellFormed(sh: Sheet) {
    DistinctNames(sh.columns)
    && (forall r :: 0 <= r < |sh.rows| ==> |sh.rows[r]| == |sh.columns|)
    && (forall r, c :: 0 <= r < |sh.rows| && 0 <= c < |sh.rows[r]| ==> ValidCell(sh.rows[r][c]))
  }

  datatype ValidationError =
    | MissingColumns(names: seq<string>)
    | BadCell(row: nat, column: string, value: Cell)

  datatype Validated =
    | Rejected(errors: seq<ValidationError>)
    | Checked(frame: Sheet, errors: seq<ValidationError>)

  // ---------------------------------------------------------------------
  // number parsing

  /** The first position of a character from `cs`, or `|s|` when none occurs. */
  function IndexOfAny(s: string, cs: set<char>): (i: nat)
    ensures i <= |s|
    ensures i < |s| ==> s[i] in cs
    ensures forall j :: 0 <= j < i ==> s[j] !in cs
    decreases |s|
  {
    if s == [] then 0 else if s[0] in cs then 0 else 1 + IndexOfAny(s[1..], cs)
  }

  /** An optional sign and the rest. */
  function SplitSign(s: string): (bool, string) {
    if s != [] && (s[0] == '+' || s[0] == '-') then (s[0] == '-', s[1..]) else (false, s)
  }

  /** An optionally signed decimal exponent. */
  function ParseExponent(x: string): Option<int> {
    var (neg, ds) := SplitSign(x);
    if ds != [] && AllDigits(ds) then
      var v: int := DigitsValue(ds);
      Some(if neg then -v else v)
    else None
  }

  /** Digits with at most one point and at least one digit: the value of all
      the digits and how many follow the point. */
  function ParseMantissa(m: string): Option<(nat, nat)> {
    var p := IndexOfAny(m, {'.'});
    var whole := m[..p];
    var frac := if p < |m| then m[p + 1..] else [];
    if AllDigits(whole) && AllDigits(frac) && |whole| + |frac| >= 1 then
      assert AllDigits(whole + frac);
      Some((DigitsValue(whole + frac), |frac|))
    else None
  }

  /** A mantissa and an optional exponent: the magnitude and the power of ten
      it is divided by. */
  function ParseUnsigned(body: string): Option<(nat, int)> {
    var k := IndexOfAny(body, {'e', 'E'});
    var ex := if k < |body| then ParseExponent(body[k + 1..]) else Some(0);
    match ParseMantissa(body[..k])
    case None => None
    case Some(mf) => if ex.Some? then Some((mf.0, mf.1 - ex.value)) else None
  }

  /** Python's `float(s)` for positional and scientific notation: surrounding
      white space, an optional sign, digits with at most one point and at least
      one digit, and an optional exponent. */
  function ParseFloat(s: string): Option<Decimal> {
    var (neg, body) := SplitSign(Strip(s));
    match ParseUnsigned(body)
    case None => None
    case Some(me) =>
      var mag: int := me.0;
      Some(Decimal(if neg then -mag else mag, me.1))
  }

  /** `int(x)` on a float: truncation toward zero. */
  function Trunc(x: real): (i: int)
    ensures x >= 0.0 ==> i as real <= x < i as real + 1.0
    ensures x < 0.0 ==> i as real - 1.0 < x <= i as real
  {
    if x >= 0.0 then x.Floor else -((-x).Floor)
  }

  /** `_safe_float`: `None` for a missing cell and for anything `float()`
      rejects, such as a timestamp or the text "16+4". */
  function SafeFloat(c: Cell): (r: Option<Decimal>)
    ensures c.Blank? || c.When? ==> r.None?
    ensures c.Whole? ==> r == Some(Decimal(c.i, 0))
    ensures c.Num? ==> r == Some(c.d)
    ensures c.Str? ==> r == ParseFloat(c.s)
  {
    match c
    case Blank => None
    case Str(s) => ParseFloat(s)
    case Whole(i) => Some(Decimal(i, 0))
    case Num(d) => Some(d)
    case When(_) => None
  }

  /** `_safe_int`: `int(float(x))`, or `None` when either step fails. */
  function SafeInt(c: Cell): (r: Option<int>)
    ensures r.Some? <==> SafeFloat(c).Some?
    ensures r.Some? ==> r.value == Trunc(Value(SafeFloat(c).value))
  {
    match SafeFloat(c)
    case None => None
    case Some(d) => Some(Trunc(Value(d)))
  }

  // ---------------------------------------------------------------------
  // the validation as functions

  /** The expected columns a sheet lacks, in the order they are expected. */
  function Missing(expected: seq<string>, columns: seq<string>): (m: seq<string>)
    ensures forall n :: n in m <==> n in expected && n !in columns
    ensures |m| <= |expected|
    decreases |expected|
  {
    if expected == [] then []
    else
      var m := Missing(expected[..|expected| - 1], columns);
      var n := expected[|expected| - 1];
      assert expected == expected[..|expected| - 1] + [n];
      if n in columns then m else m + [n]
  }

  /** `pd.to_datetime(x, errors="coerce")` on one cell; how text and numbers
      become instants is left to `parseDate`, and an instant outside the
      calendar becomes missing. */
  function CoerceDate(c: Cell, parseDate: Cell -> Option<Stamp>): (r: Cell)
    ensures r.Blank? || r.When?
    ensures c.When? ==> r == c
    ensures c.Blank? ==> r.Blank?
  {
    match c
    case Blank => Blank
    case When(t) => When(t)
    case _ => match parseDate(c) case Some(t) => (if ValidStamp(t) then When(t) else Blank) case None => Blank
  }

  /** The cell after the coercion its column receives. */
  function CoerceCell(name: string, c: Cell, parseDate: Cell -> Option<Stamp>): Cell {
    if name == "Horas" then (match SafeFloat(c) case Some(d) => Num(d) case None => Blank)
    else if name == "Año" then (match SafeInt(c) case Some(i) => Whole(i) case None => Blank)
    else if name == "Inicio" || name == "Final" then CoerceDate(c, parseDate)
    else c
  }

  function CoerceRow(columns: seq<string>, row: seq<Cell>, parseDate: Cell -> Option<Stamp>): (r: seq<Cell>)
    requires |row| == |columns|
    ensures |r| == |row|
  {
    seq(|row|, j requires 0 <= j < |row| => CoerceCell(columns[j], row[j], parseDate))
  }

  /** The position of a column, or `|columns|` when it is absent. */
  function ColumnIndex(columns: seq<string>, name: string): (j: nat)
    ensures j <= |columns|
    ensures j < |columns| ==> columns[j] == name
    ensures j == |columns| <==> name !in columns
    decreases |columns|
  {
    if columns == [] then 0 else if columns[0] == name then 0 else 1 + ColumnIndex(columns[1..], name)
  }

  /** A cell the null check of its column rejects. */
  predicate FailsNull(k: Kind, c: Cell) {
    k.StringCol? && !k.nullable && c.Blank?
  }

  /** A cell the type check of its column rejects: a present value that is
      not a string in a string column. */
  predicate FailsType(k: Kind, c: Cell) {
    k.StringCol? && !c.Blank? && !c.Str?
  }

  /** The failures of the check `fails` in column `j`, rows `0 .. n-1`. */
  function Failures(rows: seq<seq<Cell>>, n: nat, name: string, j: nat, k: Kind, nullCheck: bool): seq<ValidationError>
    requires n <= |rows|
    requires forall r :: 0 <= r < |rows| ==> j < |rows[r]|
    decreases n
  {
    if n == 0 then []
    else
      var c := rows[n - 1][j];
      var fails := if nullCheck then FailsNull(k, c) else FailsType(k, c);
      Failures(rows, n - 1, name, j, k, nullCheck) + (if fails then [BadCell(n - 1, name, c)] else [])
  }

  /** One column's failures: null failures first, then type failures. */
  function ColumnErrors(frame: Sheet, col: (string, Kind)): seq<ValidationError>
    requires WellFormed(frame) && col.0 in frame.columns
  {
    var j := ColumnIndex(frame.columns, col.0);
    Failures(frame.rows, |frame.rows|, col.0, j, col.1, true)
      + Failures(frame.rows, |frame.rows|, col.0, j, col.1, false)
  }

  /** The failure cases of the lazy schema validation, column by column. */
  function SchemaErrors(frame: Sheet, cols: seq<(string, Kind)>): seq<ValidationError>
    requires WellFormed(frame)
    requires forall i :: 0 <= i < |cols| ==> cols[i].0 in frame.columns
    decreases |cols|
  {
    if cols == [] then []
    else SchemaErrors(frame, cols[..|cols| - 1]) + ColumnErrors(frame, cols[|cols| - 1])
  }

  /** `validate_cronograma_df` as a function of its input. */
  function ValidateSpec(sh: Sheet, parseDate: Cell -> Option<Stamp>): (v: Validated)
    requires WellFormed(sh)
    ensures v.Rejected? ==> |v.errors| == 1 && v.errors[0].MissingColumns?
    ensures v.Checked? ==> WellFormed(v.frame) && v.frame.columns == sh.columns && |v.frame.rows| == |sh.rows|
    ensures v.Checked? ==> forall i :: 0 <= i < |ExpectedColumns| ==> ExpectedColumns[i] in sh.columns
  {
    var missing := Missing(ExpectedColumns, sh.columns);
    if missing != [] then Rejected([MissingColumns(missing)])
    else
      SchemaNamesExpected();
      var frame := Sheet(sh.columns, seq(|sh.rows|, r requires 0 <= r < |sh.rows| => CoerceRow(sh.columns, sh.rows[r], parseDate)));
      CoercedWellFormed(sh, frame.rows, parseDate);
      Checked(frame, SchemaErrors(frame, Schema))
  }

  // ---------------------------------------------------------------------
  // the validation as the program performs it

  /** The missing-column check: the expected columns absent from the sheet. */
  method MissingColumnsOf(columns: seq<string>) returns (missing: seq<string>)
    ensures missing == Missing(ExpectedColumns, columns)
  {
    missing := [];
    var k := 0;
    while k < |ExpectedColumns|
      invariant 0 <= k <= |ExpectedColumns|
      invariant missing == Missing(ExpectedColumns[..k], columns)
    {
      assert ExpectedColumns[..k + 1][..k] == ExpectedColumns[..k];
      if ExpectedColumns[k] !in columns {
        missing := missing + [ExpectedColumns[k]];
      }
      k := k + 1;
    }
    assert ExpectedColumns[..k] == ExpectedColumns;
  }

  /** The coercion of hours, year and dates, row by row. */
  method CoerceRows(sh: Sheet, parseDate: Cell -> Option<Stamp>) returns (rows: seq<seq<Cell>>)
    requires WellFormed(sh)
    ensures rows == seq(|sh.rows|, r requires 0 <= r < |sh.rows| => CoerceRow(sh.columns, sh.rows[r], parseDate))
  {
    rows := [];
    var r := 0;
    while r < |sh.rows|
      invariant 0 <= r <= |sh.rows|
      invariant |rows| == r
      invariant forall i :: 0 <= i < r ==> rows[i] == CoerceRow(sh.columns, sh.rows[i], parseDate)
    {
      rows := rows + [CoerceRow(sh.columns, sh.rows[r], parseDate)];
      r := r + 1;
    }
  }

  /** One check of one column over every row, collecting each failing cell. */
  method CollectFailures(rows: seq<seq<Cell>>, name: string, j: nat, k: Kind, nullCheck: bool)
    returns (fs: seq<ValidationError>)
    requires forall r :: 0 <= r < |rows| ==> j < |rows[r]|
    ensures fs == Failures(rows, |rows|, name, j, k, nullCheck)
  {
    fs := [];
    var n := 0;
    while n < |rows|
      invariant 0 <= n <= |rows|
      invariant fs == Failures(rows, n, name, j, k, nullCheck)
    {
      var cell := rows[n][j];
      if (nullCheck && FailsNull(k, cell)) || (!nullCheck && FailsType(k, cell)) {
        fs := fs + [BadCell(n, name, cell)];
      }
      n := n + 1;
    }
  }

  /** Every check of the columns `cols`, column by column. */
  method CheckColumns(frame: Sheet, cols: seq<(string, Kind)>) returns (errors: seq<ValidationError>)
    requires WellFormed(frame)
    requires forall i :: 0 <= i < |cols| ==> cols[i].0 in frame.columns
    ensures errors == SchemaErrors(frame, cols)
  {
    errors := [];
    var c := 0;
    while c < |cols|
      invariant 0 <= c <= |cols|
      invariant errors == SchemaErrors(frame, cols[..c])
    {
      var j := ColumnIndex(frame.columns, cols[c].0);
      var nulls := CollectFailures(frame.rows, cols[c].0, j, cols[c].1, true);
      var types := CollectFailures(frame.rows, cols[c].0, j, cols[c].1, false);
      assert cols[..c + 1][..c] == cols[..c];
      errors := errors + (nulls + types);
      c := c + 1;
    }
    assert cols[..c] == cols;
  }

  /** `validate_cronograma_df`: collects the missing columns; if there are
      none, coerces the sheet and then runs every column check over every
      row, appending each failure. */
  method Validate(sh: Sheet, parseDate: Cell -> Option<Stamp>) returns (res: Validated)
    requires WellFormed(sh)
    ensures res == ValidateSpec(sh, parseDate)
  {
    var missing := MissingColumnsOf(sh.columns);
    if missing != [] {
      return Rejected([MissingColumns(missing)]);
    }
    SchemaNamesExpected();
    var rows := CoerceRows(sh, parseDate);
    var frame := Sheet(sh.columns, rows);
    CoercedWellFormed(sh, rows, parseDate);

    var errors := CheckColumns(frame, Schema);
    return Checked(frame, errors);
  }

  // ---------------------------------------------------------------------
  // properties

  /** The schema checks exactly the expected columns, in the same order. */
  lemma SchemaNamesExpected()
    ensures |Schema| == |ExpectedColumns|
    ensures forall i :: 0 <= i < |Schema| ==> Schema[i].0 == ExpectedColumns[i]
  {
  }

  lemma CoercedWellFormed(sh: Sheet, rows: seq<seq<Cell>>, parseDate: Cell -> Option<Stamp>)
    requires WellFormed(sh) && |rows| == |sh.rows|
    requires forall i :: 0 <= i < |rows| ==> rows[i] == CoerceRow(sh.columns, sh.rows[i], parseDate)
    ensures WellFormed(Sheet(sh.columns, rows))
  {
    forall r, c | 0 <= r < |rows| && 0 <= c < |rows[r]| ensures ValidCell(rows[r][c]) {
      var cell := sh.rows[r][c];
      assert ValidCell(cell);
      assert rows[r][c] == CoerceCell(sh.columns[c], cell, parseDate);
    }
  }

  lemma {:induction false} MissingNone(expected: seq<string>, columns: seq<string>)
    requires forall i :: 0 <= i < |expected| ==> expected[i] in columns
    ensures Missing(expected, columns) == []
    decreases |expected|
  {
    if expected != [] {
      MissingNone(expected[..|expected| - 1], columns);
    }
  }

  /** The sheet is rejected exactly when an expected column is missing; the
      single error then names every missing column and nothing else. */
  lemma RejectedIffMissing(sh: Sheet, parseDate: Cell -> Option<Stamp>)
    requires WellFormed(sh)
    ensures ValidateSpec(sh, parseDate).Rejected? <==> exists n :: n in ExpectedColumns && n !in sh.columns
    ensures ValidateSpec(sh, parseDate).Rejected? ==>
      ValidateSpec(sh, parseDate).errors == [MissingColumns(Missing(ExpectedColumns, sh.columns))]
      && (forall n :: n in Missing(ExpectedColumns, sh.columns) <==> n in ExpectedColumns && n !in sh.columns)
  {
    var m := Missing(ExpectedColumns, sh.columns);
    if exists n :: n in ExpectedColumns && n !in sh.columns {
      var n :| n in ExpectedColumns && n !in sh.columns;
      assert n in m;
    } else {
      MissingNone(ExpectedColumns, sh.columns);
    }
  }

  /** Columns beyond the expected ones never cause a rejection and are kept. */
  lemma ExtraColumnsAllowed(sh: Sheet, parseDate: Cell -> Option<Stamp>)
    requires WellFormed(sh)
    requires forall i :: 0 <= i < |ExpectedColumns| ==> ExpectedColumns[i] in sh.columns
    ensures ValidateSpec(sh, parseDate).Checked?
    ensures ValidateSpec(sh, parseDate).frame.columns == sh.columns
  {
    MissingNone(ExpectedColumns, sh.columns);
  }

  /** After coercion the hours column holds only numbers or nothing, the year
      column only integers or nothing, the date columns only timestamps or
      nothing, and every other column is untouched. */
  lemma CoercedColumns(sh: Sheet, parseDate: Cell -> Option<Stamp>, r: nat, j: nat)
    requires WellFormed(sh) && ValidateSpec(sh, parseDate).Checked?
    requires r < |sh.rows| && j < |sh.columns|
    ensures var c := ValidateSpec(sh, parseDate).frame.rows[r][j];
      var name := sh.columns[j];
      (name == "Horas" ==> c.Num? || c.Blank?)
      && (name == "Año" ==> c.Whole? || c.Blank?)
      && (name == "Inicio" || name == "Final" ==> c.When? || c.Blank?)
      && (name !in {"Horas", "Año", "Inicio", "Final"} ==> c == sh.rows[r][j])
  {
  }

  /** The characters `float()` may accept: digits, a point, exponent marks and signs. */
  predicate NumberChar(c: char) {
    ('0' <= c <= '9') || c == '.' || c == 'e' || c == 'E' || c == '+' || c == '-'
  }

  /** A character that is neither a digit nor a point spoils a mantissa. */
  lemma MantissaRejects(m: string, q: nat)
    requires q < |m| && !('0' <= m[q] <= '9') && m[q] != '.'
    ensures ParseMantissa(m).None?
  {
    var p := IndexOfAny(m, {'.'});
    if q < p {
      assert m[..p][q] == m[q];
    } else {
      assert m[p + 1..][q - p - 1] == m[q];
    }
  }

  /** A non-digit other than a leading sign spoils an exponent. */
  lemma ExponentRejects(x: string, q: nat)
    requires q < |x| && !('0' <= x[q] <= '9')
    requires q > 0 || (x[q] != '+' && x[q] != '-')
    ensures ParseExponent(x).None?
  {
    var ds := SplitSign(x).1;
    if x[0] == '+' || x[0] == '-' {
      assert ds[q - 1] == x[q];
    } else {
      assert ds[q] == x[q];
    }
  }

  /** A character outside `NumberChar` spoils an unsigned number. */
  lemma UnsignedRejectsForeign(body: string, q: nat)
    requires q < |body| && !NumberChar(body[q])
    ensures ParseUnsigned(body).None?
  {
    var k := IndexOfAny(body, {'e', 'E'});
    if q < k {
      assert body[..k][q] == body[q];
      MantissaRejects(body[..k], q);
    } else {
      assert body[k + 1..][q - k - 1] == body[q];
      ExponentRejects(body[k + 1..], q - k - 1);
    }
  }

  /** Without an exponent mark, a sign spoils an unsigned number. */
  lemma UnsignedRejectsSign(body: string, q: nat)
    requires q < |body| && (body[q] == '+' || body[q] == '-')
    requires forall j :: 0 <= j < |body| ==> body[j] != 'e' && body[j] != 'E'
    ensures ParseUnsigned(body).None?
  {
    assert IndexOfAny(body, {'e', 'E'}) == |body|;
    assert body[..|body|] == body;
    MantissaRejects(body, q);
  }

  /** `float()` rejects text holding any other character, such as "N/A". */
  lemma ForeignCharRejected(s: string, i: nat)
    requires i < |Strip(s)| && !NumberChar(Strip(s)[i])
    ensures ParseFloat(s).None?
    ensures SafeFloat(Str(s)).None? && SafeInt(Str(s)).None?
  {
    var t := Strip(s);
    var q := SignedBody(t, i);
    UnsignedRejectsForeign(SplitSign(t).1, q);
    BodyRejected(s);
  }

  /** Without an exponent, a sign anywhere but in front is rejected, so
      "16+4" is not a number of hours. */
  lemma InnerSignRejected(s: string, i: nat)
    requires 0 < i < |Strip(s)| && (Strip(s)[i] == '+' || Strip(s)[i] == '-')
    requires forall j :: 0 <= j < |Strip(s)| ==> Strip(s)[j] != 'e' && Strip(s)[j] != 'E'
    ensures ParseFloat(s).None?
    ensures SafeFloat(Str(s)).None? && SafeInt(Str(s)).None?
  {
    var t := Strip(s);
    var q := SignedBody(t, i);
    UnsignedRejectsSign(SplitSign(t).1, q);
    BodyRejected(s);
  }

  /** Position `i` of the text, past a leading sign, is position `q` of its body. */
  lemma SignedBody(t: string, i: nat) returns (q: nat)
    requires i < |t| && (i > 0 || (t[0] != '+' && t[0] != '-'))
    ensures q < |SplitSign(t).1| && SplitSign(t).1[q] == t[i]
    ensures forall j :: 0 <= j < |SplitSign(t).1| ==> SplitSign(t).1[j] == t[j + |t| - |SplitSign(t).1|]
  {
    if t[0] == '+' || t[0] == '-' {
      q := i - 1;
    } else {
      q := i;
    }
  }

  /** A body that does not parse makes the whole text fail as a float and
      as an integer. */
  lemma BodyRejected(s: string)
    requires ParseUnsigned(SplitSign(Strip(s)).1).None?
    ensures ParseFloat(s).None?
    ensures SafeFloat(Str(s)).None? && SafeInt(Str(s)).None?
  {
  }

  /** A run of digits reads as the integer it denotes. */
  lemma UnsignedDigits(d: string)
    requires d != [] && AllDigits(d)
    ensures ParseUnsigned(d) == Some((DigitsValue(d), 0))
  {
    assert IndexOfAny(d, {'e', 'E'}) == |d|;
    assert IndexOfAny(d, {'.'}) == |d|;
    assert d[..|d|] == d && d + [] == d;
  }

  /** Reading back `str(i)` gives `i` again: an integer written as text
      survives `_safe_float` and `_safe_int`. */
  lemma IntegerTextRoundTrip(i: int)
    ensures ParseFloat(IntToString(i)) == Some(Decimal(i, 0))
    ensures SafeInt(Str(IntToString(i))) == Some(i)
  {
    IntegerTextParses(i);
    TruncWhole(i);
  }

  lemma IntegerTextParses(i: int)
    ensures ParseFloat(IntToString(i)) == Some(Decimal(i, 0))
  {
    var n: nat := if i < 0 then -i else i;
    IntegerTextShape(i);
    assert ParseUnsigned(NatToString(n)) == Some((n, 0)) by {
      NatToStringValue(n);
      UnsignedDigits(NatToString(n));
    }
  }

  /** `str(i)` has no surrounding white space and its sign is its first character. */
  lemma IntegerTextShape(i: int)
    ensures Strip(IntToString(i)) == IntToString(i)
    ensures SplitSign(IntToString(i)) == (i < 0, NatToString(if i < 0 then -i else i))
  {
    var d := NatToString(if i < 0 then -i else i);
    var t := IntToString(i);
    if i < 0 {
      assert t == "-" + d;
      SignedTextEnds(d);
      assert t[0] == '-' && t[1..] == d;
      assert SplitSign(t) == (true, d);
    } else {
      assert t == d;
      assert '0' <= d[0] <= '9' && '0' <= d[|d| - 1] <= '9';
      assert SplitSign(t) == (false, d);
    }
    StripUnchanged(t);
  }

  lemma SignedTextEnds(d: string)
    requires d != [] && '0' <= d[|d| - 1] <= '9'
    ensures var t := "-" + d; !IsSpace(t[0]) && !IsSpace(t[|t| - 1])
  {
    var t := "-" + d;
    assert t[|t| - 1] == d[|d| - 1];
  }

  lemma TruncWhole(i: int)
    ensures Trunc(i as real) == i
  {
    if i < 0 {
      assert -(i as real) == (-i) as real;
    }
  }

  // ---------------------------------------------------------------------
  // which cells are reported

  /** Row `r` of a check's failures is reported exactly when its cell fails
      that check, and then with that cell as the failure case. */
  lemma {:induction false} FailuresExact(rows: seq<seq<Cell>>, n: nat, name: string, j: nat, k: Kind, nullCheck: bool, e: ValidationError)
    requires n <= |rows|
    requires forall r :: 0 <= r < |rows| ==> j < |rows[r]|
    ensures e in Failures(rows, n, name, j, k, nullCheck) <==>
      e.BadCell? && e.column == name && e.row < n && e.value == rows[e.row][j]
      && (if nullCheck then FailsNull(k, e.value) else FailsType(k, e.value))
    decreases n
  {
    if n > 0 {
      FailuresExact(rows, n - 1, name, j, k, nullCheck, e);
    }
  }

  /** The schema's errors are the union of its columns' errors. */
  lemma {:induction false} SchemaErrorsUnion(frame: Sheet, cols: seq<(string, Kind)>, e: ValidationError)
    requires WellFormed(frame)
    requires forall i :: 0 <= i < |cols| ==> cols[i].0 in frame.columns
    ensures e in SchemaErrors(frame, cols) <==> exists i :: 0 <= i < |cols| && e in ColumnErrors(frame, cols[i])
    decreases |cols|
  {
    if cols != [] {
      var init := cols[..|cols| - 1];
      var last := cols[|cols| - 1];
      assert forall i :: 0 <= i < |init| ==> init[i] == cols[i];
      SchemaErrorsUnion(frame, init, e);
      var a := SchemaErrors(frame, init);
      var b := ColumnErrors(frame, last);
      assert SchemaErrors(frame, cols) == a + b;
      assert e in a + b <==> e in a || e in b;
      if e in a {
        var i :| 0 <= i < |init| && e in ColumnErrors(frame, init[i]);
        assert init[i] == cols[i];
      }
      if exists i :: 0 <= i < |cols| && e in ColumnErrors(frame, cols[i]) {
        var i :| 0 <= i < |cols| && e in ColumnErrors(frame, cols[i]);
        if i < |cols| - 1 {
          assert init[i] == cols[i];
          assert e in a;
        } else {
          assert e in b;
        }
      }
    }
  }

  /** A cell either check of its column rejects. */
  predicate CellFails(k: Kind, c: Cell) {
    FailsNull(k, c) || FailsType(k, c)
  }

  /** The errors of the checks `cols` report exactly the failing cells of those columns. */
  lemma ColumnsErrorsExact(f: Sheet, cols: seq<(string, Kind)>, e: ValidationError)
    requires WellFormed(f)
    requires forall i :: 0 <= i < |cols| ==> cols[i].0 in f.columns
    ensures e in SchemaErrors(f, cols) <==>
      e.BadCell? && e.row < |f.rows| && e.column in f.columns
      && e.value == f.rows[e.row][ColumnIndex(f.columns, e.column)]
      && exists i :: 0 <= i < |cols| && cols[i].0 == e.column && CellFails(cols[i].1, e.value)
  {
    SchemaErrorsUnion(f, cols, e);
    forall i | 0 <= i < |cols|
      ensures e in ColumnErrors(f, cols[i]) <==>
        e.BadCell? && e.column == cols[i].0 && e.row < |f.rows|
        && e.value == f.rows[e.row][ColumnIndex(f.columns, cols[i].0)] && CellFails(cols[i].1, e.value)
    {
      var j := ColumnIndex(f.columns, cols[i].0);
      FailuresExact(f.rows, |f.rows|, cols[i].0, j, cols[i].1, true, e);
      FailuresExact(f.rows, |f.rows|, cols[i].0, j, cols[i].1, false, e);
    }
  }

  /** After a successful column check, the errors report exactly the cells of
      the coerced sheet that fail their column's checks: a missing value in
      Programa, Módulo, Materia or MateriaID, or a non-text value in a text
      column. */
  lemma CheckedErrorsExact(sh: Sheet, parseDate: Cell -> Option<Stamp>, e: ValidationError)
    requires WellFormed(sh) && ValidateSpec(sh, parseDate).Checked?
    ensures var f := ValidateSpec(sh, parseDate).frame;
      e in ValidateSpec(sh, parseDate).errors <==>
        e.BadCell? && e.row < |f.rows| && e.column in f.columns
        && e.value == f.rows[e.row][ColumnIndex(f.columns, e.column)]
        && exists i :: 0 <= i < |Schema| && Schema[i].0 == e.column && CellFails(Schema[i].1, e.value)
  {
    var res := ValidateSpec(sh, parseDate);
    SchemaNamesExpected();
    RejectedIffMissing(sh, parseDate);
    CoercedWellFormed(sh, res.frame.rows, parseDate);
    assert forall i :: 0 <= i < |Schema| ==> Schema[i].0 in res.frame.columns;
    assert res.errors == SchemaErrors(res.frame, Schema);
    ColumnsErrorsExact(res.frame, Schema, e);
  }

  // ---------------------------------------------------------------------
  // messages

  /** Python's `repr` of a list of strings without quotes in them. */
  function ShowNames(names: seq<string>): string {
    "[" + QuotedList(names) + "]"
  }

  function QuotedList(names: seq<string>): string
    decreases |names|
  {
    if names == [] then ""
    else if |names| == 1 then "'" + names[0] + "'"
    else "'" + names[0] + "', " + QuotedList(names[1..])
  }

  /** The message the validator appends for an error. */
  function ErrorText(e: ValidationError): (msg: string)
    requires e.BadCell? ==> ValidCell(e.value)
    ensures e.MissingColumns? ==> msg == "Faltan columnas requeridas: " + ShowNames(e.names)
    ensures e.BadCell? ==> StartsWith(msg, "Fila " + NatToString(e.row) + ": " + e.column + " -> ")
  {
    match e
    case MissingColumns(names) => "Faltan columnas requeridas: " + ShowNames(names)
    case BadCell(row, column, value) =>
      var prefix := "Fila " + NatToString(row) + ": " + column + " -> ";
      assert (prefix + ShowFailure(value))[..|prefix|] == prefix;
      prefix + ShowFailure(value)
  }
}
