/** Reading a tabulated journal export (one row per booking, columns found
    by name) into bookings and accounts: the cell normalisers for amounts,
    account numbers and dates, and the row loop that posts every booking to
    its account and its contra account. */
module Ledger {
  import opened Wrappers
  import opened JsText
  import opened JsNumber
  import opened Types

  // ---------------------------------------------------------------- cells

  /** A spreadsheet cell as the sheet reader delivers it: missing, text, a
      number or a boolean. */
  datatype Cell = Empty | Str(s: string) | Num(v: real) | Bool(b: bool)

  /** JavaScript truthiness of a cell value. */
  predicate Truthy(c: Cell) {
    match c
    case Empty => false
    case Str(s) => s != ""
    case Num(v) => v != 0.0
    case Bool(b) => b
  }

  /** `c || d`: the first truthy one of the two, else `d`. */
  function OrElse(c: Cell, d: Cell): (r: Cell)
    ensures Truthy(r) <==> Truthy(c) || Truthy(d)
    ensures r == c || r == d
    ensures Truthy(c) ==> r == c
  {
    if Truthy(c) then c else d
  }

  /** `String(c)`. */
  function CellString(c: Cell): string {
    match c
    case Empty => "undefined"
    case Str(s) => s
    case Num(v) => NumberToString(v)
    case Bool(b) => if b then "true" else "false"
  }

  /** A row: the column names with their cells, in the order the sheet
      reader lists them. */
  type Row = seq<(string, Cell)>

  /** `row[key]`: the cell under that column name, `Empty` when the row has
      no such column. */
  function Get(row: Row, key: string): (r: Cell)
    ensures (forall i :: 0 <= i < |row| ==> row[i].0 != key) ==> r == Empty
  {
    if row == [] then Empty
    else if row[0].0 == key then row[0].1
    else Get(row[1..], key)
  }

  /** A row that has the column gives the cell of its first column with
      that name. */
  lemma {:induction false} GetFirst(row: Row, key: string, i: nat)
    requires i < |row| && row[i].0 == key
    requires forall j :: 0 <= j < i ==> row[j].0 != key
    ensures Get(row, key) == row[i].1
  {
    if i > 0 {
      assert forall j :: 0 <= j < i - 1 ==> row[1..][j] == row[j + 1];
      GetFirst(row[1..], key, i - 1);
    }
  }

  // ---------------------------------------------------------- parseAmount

  /** Amount parsing: a number is taken as it is, a string is read with
      either the German (`1.234,56`) or the US (`1,234.56`) separators, and
      everything else, blank or unreadable is 0. */
  function ParseAmount(c: Cell): (r: real)
    ensures c.Empty? || c.Bool? ==> r == 0.0
    ensures c.Num? ==> r == c.v
    ensures c.Str? && Trim(c.s) == "" ==> r == 0.0
    ensures c.Str? && ParseFloat(Normalize(Trim(c.s))).None? ==> r == 0.0
  {
    match c
    case Num(v) => v
    case Str(s) =>
      var clean := Trim(s);
      if clean == "" then 0.0
      else ParseFloat(Normalize(clean)).GetOr(0.0)
    case _ => 0.0
  }

  /** Separator normalisation: when both `,` and `.` occur, the one that
      occurs last is the decimal separator and every occurrence of the other
      is dropped; a comma alone is the decimal separator. */
  function Normalize(clean: string): (r: string)
  {
    if ',' in clean && '.' in clean then
      if LastIndexOf(clean, ",") > LastIndexOf(clean, ".") then
        ReplaceFirst(RemoveAll(clean, '.'), ',', '.')
      else
        RemoveAll(clean, ',')
    else if ',' in clean then
      ReplaceFirst(clean, ',', '.')
    else
      clean
  }

  // -------------------------------------------------------------- normAcc

  /** The canonical form of an account number: a falsy cell is `0`;
      otherwise its text goes through `NormAccText`. */
  function NormAcc(c: Cell): (r: string)
    ensures r != []
    ensures '\'' !in r
    ensures r[0] == '0' ==> r == "0"
    ensures !Truthy(c) ==> r == "0"
  {
    if !Truthy(c) then "0" else NormAccText(CellString(c))
  }

  /** An account number's text without apostrophes, trimmed, and without
      leading zeros (`0` if nothing is left). */
  function NormAccText(s: string): (r: string)
    ensures r != [] && '\'' !in r
    ensures r[0] == '0' ==> r == "0"
  {
    var u := RemoveAll(s, '\'');
    var v := Trim(u);
    NotInSlice(u, '\'', |u| - |TrimStart(u)|, |v|);
    var t := StripLeadingZeros(v);
    NotInSlice(v, '\'', |v| - |t|, |t|);
    if t == [] then "0" else t
  }

  /** A character absent from a string is absent from each of its slices. */
  lemma NotInSlice(s: string, c: char, a: nat, n: nat)
    requires a + n <= |s| && c !in s
    ensures c !in s[a..a + n]
  {
    var w := s[a..a + n];
    assert forall i :: 0 <= i < n ==> w[i] == s[a + i];
  }

  // ------------------------------------------------------------ parseDate

  /** The date of a booking: text to show, the serial used for sorting and
      the year the booking counts for. */
  datatype DateInfo = DateInfo(display: string, raw: int, year: Year)

  /** A calendar date as the local clock reads it. */
  datatype CivilDate = CivilDate(day: int, month: int, year: int)

  /** Spreadsheet serial dates count days from 30 December 1899; this is the
      serial of 1 January 1970. */
  const UnixEpochSerial: int := 25569

  /** Serials up to this value are not taken as dates. */
  const SerialThreshold: int := 10000

  /** `String(n).padStart(2, '0')`. */
  function Pad2(n: int): (r: string)
    ensures |r| >= 2
  {
    var s := IntToString(n);
    if |s| >= 2 then s else "0" + s
  }

  /** `DD.MM.YYYY`: day and month padded to two digits. */
  function DateText(d: CivilDate): string {
    Pad2(d.day) + "." + Pad2(d.month) + "." + IntToString(d.year)
  }

  /** Date parsing. `calendar` turns days since 1 January 1970 into the
      local calendar date (the time zone decides it). A text with a point is
      a date as it is shown, its third piece the year; anything else is read
      as a spreadsheet serial, which is a date only above the threshold. */
  function ParseDate(c: Cell, calendar: int -> CivilDate): (r: DateInfo)
    ensures !Truthy(c) ==> r == DateInfo("", 0, Some(0))
    ensures c.Str? && '.' in c.s ==> r.display == c.s && r.raw == 0
    ensures c.Str? && '.' in c.s && |Split(c.s, '.')| == 3 ==> r.year == ParseIntAuto(Split(c.s, '.')[2])
    ensures c.Str? && '.' in c.s && |Split(c.s, '.')| != 3 ==> r.year == Some(0)
    ensures Truthy(c) && !(c.Str? && '.' in c.s) ==>
              var serial := ParseIntAuto(CellString(c));
              if serial.Some? && serial.value > SerialThreshold then r == SerialDate(serial.value, calendar)
              else r == DateInfo(CellString(c), 0, Some(0))
  {
    if !Truthy(c) then DateInfo("", 0, Some(0))
    else if c.Str? && '.' in c.s then
      var parts := Split(c.s, '.');
      DateInfo(c.s, 0, if |parts| == 3 then ParseIntAuto(parts[2]) else Some(0))
    else
      var serial := ParseIntAuto(CellString(c));
      if serial.Some? && serial.value > SerialThreshold then
        SerialDate(serial.value, calendar)
      else
        DateInfo(CellString(c), 0, Some(0))
  }

  /** The date a serial stands for: shown as `DD.MM.YYYY`, sorted by the
      serial, counted for its calendar year. */
  function SerialDate(serial: int, calendar: int -> CivilDate): (r: DateInfo)
    ensures r.raw == serial
    ensures r.year == Some(calendar(serial - UnixEpochSerial).year)
    ensures r.display == DateText(calendar(serial - UnixEpochSerial))
  {
    var d := calendar(serial - UnixEpochSerial);
    DateInfo(DateText(d), serial, Some(d.year))
  }

  /** A whole-number serial above the threshold, as the sheet reader
      delivers a date cell, is the date `calendar` gives for its day since
      1970; it sorts by the serial and counts for that date's year. */
  lemma ParseDateSerial(n: int, calendar: int -> CivilDate)
    requires SerialThreshold < n && (n as real) < ExponentLimit
    ensures ParseDate(Num(n as real), calendar) == SerialDate(n, calendar)
  {
    CellOfWhole(n);
    ParseIntAutoOfString(n);
  }

  /** A whole-number cell is written as the number's decimal digits. */
  lemma CellOfWhole(n: int)
    requires 0 < n && (n as real) < ExponentLimit
    ensures CellString(Num(n as real)) == IntToString(n)
  {
    StringOfWhole(n);
  }

  /** Neither a number nor a padded number contains a point. */
  lemma NoPoint(n: int)
    ensures '.' !in IntToString(n) && '.' !in Pad2(n)
  {
    var ds := NatToDigits(if n < 0 then -n else n);
    assert forall i :: 0 <= i < |ds| ==> ds[i] != '.';
    assert IntToString(n) == ds || IntToString(n) == "-" + ds;
  }

  /** `DD.MM.YYYY` splits at its points into day, month and year. */
  lemma DateTextPieces(d: CivilDate)
    ensures Split(DateText(d), '.') == [Pad2(d.day), Pad2(d.month), IntToString(d.year)]
  {
    var dd, mm, yy := Pad2(d.day), Pad2(d.month), IntToString(d.year);
    NoPoint(d.day);
    NoPoint(d.month);
    NoPoint(d.year);
    var rest := mm + ['.'] + yy;
    assert DateText(d) == dd + ['.'] + rest;
    SplitFirst(dd, '.', rest);
    SplitFirst(mm, '.', yy);
    assert Split(yy, '.') == [yy];
  }

  /** A date shown as `DD.MM.YYYY` and read again as text keeps its year:
      the serial branch and the text branch agree. */
  lemma ParseDateOfText(d: CivilDate, calendar: int -> CivilDate)
    ensures ParseDate(Str(DateText(d)), calendar) == DateInfo(DateText(d), 0, Some(d.year))
  {
    DateTextPieces(d);
    assert DateText(d)[|Pad2(d.day)|] == '.';
    ParseIntAutoOfString(d.year);
  }

  // -------------------------------------------------------------- columns

  /** Whether a column name contains the search term, both lower-cased. */
  predicate KeyMatches(name: string, search: string) {
    Contains(ToLower(name), ToLower(search))
  }

  /** `findKey(row, search)`: the first column whose lower-cased name
      contains the lower-cased search term. */
  function FindKey(row: Row, search: string): Option<string> {
    if row == [] then None
    else if KeyMatches(row[0].0, search) then Some(row[0].0)
    else FindKey(row[1..], search)
  }

  /** `FindKey` finds the first matching column, and finds none exactly
      when no column matches. */
  lemma {:induction false} FindKeyFirst(row: Row, search: string)
    ensures FindKey(row, search).Some? ==>
              exists i :: 0 <= i < |row| && row[i].0 == FindKey(row, search).value
                && KeyMatches(row[i].0, search)
                && forall j :: 0 <= j < i ==> !KeyMatches(row[j].0, search)
    ensures FindKey(row, search).None? ==> forall i :: 0 <= i < |row| ==> !KeyMatches(row[i].0, search)
  {
    if row != [] && !KeyMatches(row[0].0, search) {
      FindKeyFirst(row[1..], search);
      var r := FindKey(row[1..], search);
      if r.Some? {
        var i :| 0 <= i < |row[1..]| && row[1..][i].0 == r.value
                 && KeyMatches(row[1..][i].0, search)
                 && forall j :: 0 <= j < i ==> !KeyMatches(row[1..][j].0, search);
        assert row[i + 1] == row[1..][i];
        assert forall j :: 1 <= j < i + 1 ==> row[j] == row[1..][j - 1];
      } else {
        assert forall i :: 1 <= i < |row| ==> row[i] == row[1..][i - 1];
      }
    } else if row != [] {
      assert 0 <= 0 < |row| && row[0].0 == row[0].0;
    }
  }

  /** The column names a row is read with. */
  datatype Columns = Columns(konto: string, gegen: string, soll: string, haben: string,
                             text: string, datum: string, beleg1: string)

  /** The columns of a row: each the first column containing its keyword,
      else a default name. The account column is the `konto` match only
      when no column mentions `gegen`; otherwise it is `Kontonummer`. */
  function ResolveColumns(row: Row): (r: Columns)
    ensures FindKey(row, "gegen").Some? ==> r.konto == "Kontonummer"
    ensures FindKey(row, "gegen").None? && FindKey(row, "konto").Some? ==> r.konto == FindKey(row, "konto").value
  {
    var konto := FindKey(row, "konto");
    Columns(
      if konto.Some? && FindKey(row, "gegen").None? then konto.value else "Kontonummer",
      FindKey(row, "gegen").GetOr("Gegenkontonummer"),
      FindKey(row, "soll").GetOr("Soll-Betrag"),
      FindKey(row, "haben").GetOr("Haben-Betrag"),
      FindKey(row, "text").GetOr("Text"),
      FindKey(row, "datum").GetOr("Datum"),
      FindKey(row, "beleg").GetOr("Belegnummer 1"))
  }

  // ----------------------------------------------------------------- rows

  /** The booking id of the `idx`-th row (counting from 1). */
  function RowId(idPrefix: string, idx: nat): string {
    if idPrefix != "" then idPrefix + "-row-" + IntToString(idx) else "row-" + IntToString(idx)
  }

  /** A row is admitted unless its account, debit and credit cells are all
      falsy (the defaults `''` and `0` are falsy themselves). */
  predicate Admitted(row: Row) {
    var cols := ResolveColumns(row);
    Truthy(OrElse(Get(row, cols.konto), Str(""))) || Truthy(OrElse(Get(row, cols.soll), Num(0.0)))
    || Truthy(OrElse(Get(row, cols.haben), Num(0.0)))
  }

  /** The booking a row describes, or `None` for a skipped row. */
  function ReadRow(row: Row, idx: nat, idPrefix: string, calendar: int -> CivilDate): (r: Option<Booking>)
    ensures r.Some? <==> Truthy(Get(row, ResolveColumns(row).konto)) || Truthy(Get(row, ResolveColumns(row).soll))
                         || Truthy(Get(row, ResolveColumns(row).haben))
    ensures r.Some? ==> r.value.id == RowId(idPrefix, idx) && r.value.beleg2 == ""
  {
    AdmittedCells(row);
    if Admitted(row) then Some(RowBooking(row, idx, idPrefix, calendar)) else None
  }

  /** The `|| ''` and `|| 0` defaults are not truthy, so a row is admitted
      exactly when one of its three cells is. */
  lemma AdmittedCells(row: Row)
    ensures Admitted(row) <==> Truthy(Get(row, ResolveColumns(row).konto)) || Truthy(Get(row, ResolveColumns(row).soll))
                               || Truthy(Get(row, ResolveColumns(row).haben))
  {
    assert !Truthy(Str("")) && !Truthy(Num(0.0));
  }

  /** The booking read from an admitted row. */
  function RowBooking(row: Row, idx: nat, idPrefix: string, calendar: int -> CivilDate): (b: Booking)
    ensures b.id == RowId(idPrefix, idx) && b.beleg2 == ""
  {
    var cols := ResolveColumns(row);
    var date := ParseDate(Get(row, cols.datum), calendar);
    Booking(
      RowId(idPrefix, idx),
      date.display,
      date.raw,
      date.year,
      CellString(OrElse(Get(row, cols.text), Str(""))),
      CellString(OrElse(Get(row, cols.beleg1), Str(""))),
      "",
      NormAcc(OrElse(Get(row, cols.konto), Str(""))),
      NormAcc(OrElse(Get(row, cols.gegen), Str(""))),
      ParseAmount(OrElse(Get(row, cols.soll), Num(0.0))),
      ParseAmount(OrElse(Get(row, cols.haben), Num(0.0))))
  }

  /** Every field of a row's booking is its normaliser applied to the cell
      under the resolved column: the `|| ''` and `|| 0` defaults only
      matter for `String`, which would write `undefined` for a missing
      text or receipt cell. */
  lemma RowBookingFields(row: Row, idx: nat, idPrefix: string, calendar: int -> CivilDate)
    ensures var b, cols := RowBooking(row, idx, idPrefix, calendar), ResolveColumns(row);
            var date := ParseDate(Get(row, cols.datum), calendar);
            b.date == date.display && b.rawDate == date.raw && b.year == date.year
    ensures var b, cols := RowBooking(row, idx, idPrefix, calendar), ResolveColumns(row);
            b.konto == NormAcc(Get(row, cols.konto)) && b.gegenkonto == NormAcc(Get(row, cols.gegen))
    ensures var b, cols := RowBooking(row, idx, idPrefix, calendar), ResolveColumns(row);
            b.soll == ParseAmount(Get(row, cols.soll)) && b.haben == ParseAmount(Get(row, cols.haben))
    ensures var b, cols := RowBooking(row, idx, idPrefix, calendar), ResolveColumns(row);
            var t, n := Get(row, cols.text), Get(row, cols.beleg1);
            b.text == (if Truthy(t) then CellString(t) else "") && b.beleg1 == (if Truthy(n) then CellString(n) else "")
  {
    var cols := ResolveColumns(row);
    NormAccDefault(Get(row, cols.konto));
    NormAccDefault(Get(row, cols.gegen));
    AmountDefault(Get(row, cols.soll));
    AmountDefault(Get(row, cols.haben));
  }

  /** The `|| ''` default does not change an account number. */
  lemma NormAccDefault(c: Cell)
    ensures NormAcc(OrElse(c, Str(""))) == NormAcc(c)
  {
  }

  /** The `|| 0` default does not change an amount. */
  lemma AmountDefault(c: Cell)
    ensures ParseAmount(OrElse(c, Num(0.0))) == ParseAmount(c)
  {
  }

  /** The contra account receives a booking only when it is set and not `0`. */
  predicate HasContra(b: Booking) {
    b.gegenkonto != "" && b.gegenkonto != "0"
  }

  /** The booking the contra account receives: accounts and amounts
      swapped, id marked as a mirror. */
  function Mirror(b: Booking): (m: Booking)
    ensures m.Delta() == -b.Delta()
    ensures m.konto == b.gegenkonto && m.gegenkonto == b.konto
    ensures m.id == b.id + "-mirror" && m.rawDate == b.rawDate && m.year == b.year
  {
    b.(id := b.id + "-mirror", konto := b.gegenkonto, gegenkonto := b.konto, soll := b.haben, haben := b.soll)
  }

  // ------------------------------------------------ normaliser properties

  /** An amount with no white space at either end is read from its
      normalised text. */
  lemma ParseAmountClean(s: string)
    requires s != [] && !IsSpace(s[0]) && !IsSpace(s[|s| - 1])
    ensures ParseAmount(Str(s)) == ParseFloat(Normalize(s)).GetOr(0.0)
  {
    TrimIdle(s);
  }

  /** A plain decimal numeral `i.f` is read as its value. */
  lemma ParseFloatDecimal(i: string, f: string)
    requires AllDigits(i) && AllDigits(f) && i != [] && f != []
    ensures ParseFloat(i + "." + f) == Some(DecimalValue(i, f))
  {
    var u := i + "." + f;
    DecimalNumeral(i, f);
    assert u[0] == i[0];
    ParseFloatUnsigned(u, DecimalValue(i, f));
  }

  lemma DecimalNumeral(i: string, f: string)
    requires AllDigits(i) && AllDigits(f) && i != [] && f != []
    ensures UnsignedValue(i + "." + f) == Some(DecimalValue(i, f))
  {
    UnsignedValueNumeral(i, f);
    AppendAssoc(i, ".", f);
  }

  /** An amount with no white space at either end whose normalised text is
      a decimal numeral `i.f` is read as that numeral's value. */
  lemma ParseAmountOfNormal(s: string, i: string, f: string)
    requires s != [] && !IsSpace(s[0]) && !IsSpace(s[|s| - 1])
    requires AllDigits(i) && AllDigits(f) && i != [] && f != []
    requires Normalize(s) == i + "." + f
    ensures ParseAmount(Str(s)) == DecimalValue(i, f)
  {
    ParseAmountClean(s);
    ParseFloatDecimal(i, f);
  }

  /** Two digit strings together are a digit string. */
  lemma DigitsConcat(a: string, b: string)
    requires AllDigits(a) && AllDigits(b)
    ensures AllDigits(a + b)
  {
    assert forall i :: |a| <= i < |a + b| ==> (a + b)[i] == b[i - |a|];
  }

  /** With a single comma and no dot, the comma becomes the decimal point. */
  lemma NormalizeCommaAt(s: string, k: int)
    requires 0 <= k < |s| && s[k] == ','
    requires forall j :: 0 <= j < |s| && j != k ==> IsDigit(s[j])
    ensures Normalize(s) == s[..k] + "." + s[k + 1..]
  {
    assert '.' !in s;
    IndexOfChar(s, ',', k);
  }

  /** An amount of digits around one decimal comma at position `k` is read
      with a point in place of the comma. */
  lemma ParseAmountCommaAt(s: string, k: int)
    requires 0 < k < |s| - 1 && s[k] == ','
    requires forall j :: 0 <= j < |s| && j != k ==> IsDigit(s[j])
    ensures ParseAmount(Str(s)) == ParseFloat(s[..k] + "." + s[k + 1..]).GetOr(0.0)
  {
    ParseAmountClean(s);
    NormalizeCommaAt(s, k);
  }

  /** An amount written with a decimal comma, `i,f`, reads as `i.f`. */
  lemma ParseAmountDecimalComma(i: string, f: string)
    requires AllDigits(i) && AllDigits(f) && i != [] && f != []
    ensures ParseAmount(Str(i + "," + f)) == DecimalValue(i, f)
  {
    var s := i + "," + f;
    ParseAmountCommaAt(s, |i|);
    assert s[..|i|] == i && s[|i| + 1..] == f;
    ParseFloatDecimal(i, f);
  }

  /** When both separators occur, the one occurring last decides. */
  lemma NormalizeBothAt(s: string, dot: int, comma: int)
    requires 0 <= dot < |s| && s[dot] == '.' && 0 <= comma < |s| && s[comma] == ','
    requires forall j :: dot < j < |s| ==> s[j] != '.'
    requires forall j :: comma < j < |s| ==> s[j] != ','
    ensures comma > dot ==> Normalize(s) == ReplaceFirst(RemoveAll(s, '.'), ',', '.')
    ensures comma < dot ==> Normalize(s) == RemoveAll(s, ',')
  {
    LastIndexOfChar(s, ',', comma);
    LastIndexOfChar(s, '.', dot);
  }

  /** In German notation `a.b,f` the comma occurs after the dot. */
  lemma GermanSeparators(a: string, b: string, f: string)
    requires AllDigits(a) && AllDigits(b) && AllDigits(f)
    ensures var s := a + "." + b + "," + f;
      Normalize(s) == ReplaceFirst(RemoveAll(s, '.'), ',', '.')
  {
    NormalizeBothAt(a + "." + b + "," + f, |a|, |a| + 1 + |b|);
  }

  /** Dropping the dot of `a.b,f`. */
  lemma GermanDotDropped(a: string, b: string, f: string)
    requires AllDigits(a) && AllDigits(b) && AllDigits(f)
    ensures RemoveAll(a + "." + b + "," + f, '.') == (a + b) + [','] + f
  {
    var y := b + [','] + f;
    DigitsLack(a, '.');
    DigitsLack(b, '.');
    DigitsLack(f, '.');
    assert '.' !in y;
    assert a + "." + b + "," + f == a + ['.'] + y;
    RemoveOnly(a, '.', y);
    assert a + y == (a + b) + [','] + f;
  }

  /** A string of digits holds no other character. */
  lemma DigitsLack(s: string, c: char)
    requires AllDigits(s) && !IsDigit(c)
    ensures c !in s
  {
  }

  /** Separators of German notation `a.b,f`: the dot is dropped and the
      comma becomes the decimal point. */
  lemma NormalizeGerman(a: string, b: string, f: string)
    requires AllDigits(a) && AllDigits(b) && AllDigits(f)
    ensures Normalize(a + "." + b + "," + f) == (a + b) + "." + f
  {
    GermanSeparators(a, b, f);
    GermanDotDropped(a, b, f);
    ReplaceFirstAfter(a + b, ',', f, '.');
  }

  /** German notation with a thousands dot, `a.b,f`, reads as `ab.f`. */
  lemma ParseAmountGerman(a: string, b: string, f: string)
    requires AllDigits(a) && AllDigits(b) && AllDigits(f) && a != [] && f != []
    ensures AllDigits(a + b) && ParseAmount(Str(a + "." + b + "," + f)) == DecimalValue(a + b, f)
  {
    var s := a + "." + b + "," + f;
    assert s[0] == a[0] && s[|s| - 1] == f[|f| - 1];
    DigitsConcat(a, b);
    NormalizeGerman(a, b, f);
    ParseAmountOfNormal(s, a + b, f);
  }

  /** In US notation `a,b.f` the dot occurs after the comma. */
  lemma USSeparators(a: string, b: string, f: string)
    requires AllDigits(a) && AllDigits(b) && AllDigits(f)
    ensures var s := a + "," + b + "." + f;
      Normalize(s) == RemoveAll(s, ',')
  {
    NormalizeBothAt(a + "," + b + "." + f, |a| + 1 + |b|, |a|);
  }

  /** Separators of US notation `a,b.f`: the comma is dropped. */
  lemma NormalizeUS(a: string, b: string, f: string)
    requires AllDigits(a) && AllDigits(b) && AllDigits(f)
    ensures Normalize(a + "," + b + "." + f) == (a + b) + "." + f
  {
    USSeparators(a, b, f);
    USCommaDropped(a, b, f);
  }

  /** Dropping the comma of `a,b.f`. */
  lemma USCommaDropped(a: string, b: string, f: string)
    requires AllDigits(a) && AllDigits(b) && AllDigits(f)
    ensures RemoveAll(a + "," + b + "." + f, ',') == (a + b) + "." + f
  {
    assert a + "," + b + "." + f == a + [','] + (b + ['.'] + f);
    RemoveOnly(a, ',', b + ['.'] + f);
    assert a + (b + ['.'] + f) == (a + b) + "." + f;
  }

  /** US notation with a thousands comma, `a,b.f`, reads as `ab.f`. */
  lemma ParseAmountUS(a: string, b: string, f: string)
    requires AllDigits(a) && AllDigits(b) && AllDigits(f) && a != [] && f != []
    ensures AllDigits(a + b) && ParseAmount(Str(a + "," + b + "." + f)) == DecimalValue(a + b, f)
  {
    var s := a + "," + b + "." + f;
    assert s[0] == a[0] && s[|s| - 1] == f[|f| - 1];
    DigitsConcat(a, b);
    NormalizeUS(a, b, f);
    ParseAmountOfNormal(s, a + b, f);
  }

  /** Text made of digits, points and minus signs has no comma and no
      white space at its ends. */
  lemma NumeralCharacters(s: string)
    requires s != []
    requires forall i :: 0 <= i < |s| ==> IsDigit(s[i]) || s[i] in ".-"
    ensures ',' !in s && !IsSpace(s[0]) && !IsSpace(s[|s| - 1])
  {
    assert IsDigit(s[0]) || s[0] in ".-";
    assert IsDigit(s[|s| - 1]) || s[|s| - 1] in ".-";
  }

  /** A number cell and the same number written out as text give the same
      amount. */
  lemma ParseAmountOfNumberText(v: real)
    requires InFixedRange(v) && IsDecimal(v)
    ensures ParseAmount(Str(NumberToString(v))) == ParseAmount(Num(v))
  {
    var s := NumberToString(v);
    NumberToStringAlphabet(v);
    NumeralCharacters(s);
    ParseAmountClean(s);
    ParseFloatOfNumberToString(v);
  }

  /** A digit string keeps its digits through apostrophe removal and
      trimming; only its leading zeros go. */
  lemma NormAccOfDigits(ds: string)
    requires AllDigits(ds) && ds != []
    ensures NormAcc(Str(ds)) == (if StripLeadingZeros(ds) == [] then "0" else StripLeadingZeros(ds))
  {
    assert RemoveAll(ds, '\'') == ds by {
      assert forall i :: 0 <= i < |ds| ==> ds[i] != '\'';
    }
    TrimDigits(ds);
  }

  /** The digit string without its leading zeros has the same value and is
      canonical. */
  lemma StripLeadingZerosDigits(ds: string)
    requires AllDigits(ds)
    ensures var t := StripLeadingZeros(ds);
      AllDigits(t) && DigitsValue(t) == DigitsValue(ds) && (t == [] || t[0] != '0')
  {
    var t := StripLeadingZeros(ds);
    var z := |ds| - |t|;
    assert ds == Zeros(z) + t;
    LeadingZerosValue(z, t);
  }

  /** An account number made of digits is normalised to the digits of its
      value: leading zeros do not make a different account. */
  lemma NormAccDigits(ds: string)
    requires AllDigits(ds) && ds != []
    ensures NormAcc(Str(ds)) == NatToDigits(DigitsValue(ds))
  {
    NormAccOfDigits(ds);
    StripLeadingZerosDigits(ds);
    var t := StripLeadingZeros(ds);
    if t == [] {
      assert NatToDigits(0) == "0";
    } else {
      CanonicalDigits(t);
    }
  }

  /** Two digit-string account numbers name the same account exactly when
      their values agree. */
  lemma NormAccDigitsSame(ds: string, es: string)
    requires AllDigits(ds) && ds != [] && AllDigits(es) && es != []
    ensures NormAcc(Str(ds)) == NormAcc(Str(es)) <==> DigitsValue(ds) == DigitsValue(es)
  {
    NormAccDigits(ds);
    NormAccDigits(es);
    NatToDigitsValue(DigitsValue(ds));
    NatToDigitsValue(DigitsValue(es));
  }

  /** Normalising twice can differ from normalising once: zeros are
      stripped after trimming, so `0 5` keeps a leading blank that a second
      pass removes. */
  lemma NormAccTextTwice()
    ensures NormAccText("0 5") == " 5" && NormAccText(NormAccText("0 5")) == "5"
  {
    NormAccTextZeroBlank();
    NormAccTextBlank();
  }

  lemma NormAccTextZeroBlank()
    ensures NormAccText("0 5") == " 5"
  {
    assert RemoveAll("0 5", '\'') == "0 5";
    TrimIdle("0 5");
    assert StripLeadingZeros("0 5") == StripLeadingZeros(" 5");
  }

  lemma NormAccTextBlank()
    ensures NormAccText(" 5") == "5"
  {
    TrimBlankFive();
    NormAccTextPlain(" 5");
  }

  /** Text without apostrophes whose trimmed form does not start with a
      zero is normalised to that trimmed form. */
  lemma NormAccTextPlain(s: string)
    requires '\'' !in s && Trim(s) != [] && Trim(s)[0] != '0'
    ensures NormAccText(s) == Trim(s)
  {
  }

  lemma TrimBlankFive()
    ensures Trim(" 5") == "5"
  {
    var s := " 5";
    assert s[1..] == "5";
    TrimStartIdle("5");
    assert TrimStart(s) == "5";
    TrimEndFive();
  }

  lemma TrimEndFive()
    ensures TrimEnd("5") == "5"
  {
    assert !IsSpace('5');
  }

  /** Different row positions give different booking ids. */
  lemma RowIdInjective(idPrefix: string, i: nat, j: nat)
    ensures RowId(idPrefix, i) == RowId(idPrefix, j) <==> i == j
  {
    if RowId(idPrefix, i) == RowId(idPrefix, j) {
      var p := if idPrefix != "" then idPrefix + "-row-" else "row-";
      assert RowId(idPrefix, i) == p + NatToDigits(i);
      assert RowId(idPrefix, j) == p + NatToDigits(j);
      assert NatToDigits(i) == RowId(idPrefix, i)[|p|..];
      NatToDigitsValue(i);
      NatToDigitsValue(j);
    }
  }
}
