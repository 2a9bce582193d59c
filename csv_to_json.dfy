/**
 * The table-to-document converter: every row the csv reader yields has its
 * numeric columns turned into ints when the cell is non-empty; a cell that is not
 * an integer literal aborts the run before the JSON file is opened.
 */
module CsvToJson {
  import opened Wrappers
  import opened Rows
  import Decimal

  /** A row as the csv reader yields it: every cell is a string. */
  type TextRow = Dict<string>

  /** The columns coerced to int, in the order the loop visits them. */
  const NUMERIC_FIELDS: seq<string> := ["duration", "bitrate", "sample_rate"]

  /** The `ValueError` raised by `int()`, with the text it rejected. */
  datatype Error = InvalidLiteral(text: string)

  /** The reader's row before any coercion: every cell a `str`. */
  function Lift(r: TextRow): (row: Row)
    ensures Keys(row) == Keys(r)
    ensures forall i :: 0 <= i < |r| ==> row[i] == (r[i].0, Str(r[i].1))
  {
    seq(|r|, i requires 0 <= i < |r| => (r[i].0, Str(r[i].1)))
  }

  /** Python truthiness of a cell. */
  predicate Truthy(v: Value) {
    match v
    case Str(s) => s != ""
    case Int(n) => n != 0
  }

  /** One pass of the inner loop: `if key in row and row[key]: row[key] = int(row[key])`. */
  function CoerceField(row: Row, key: string): (r: Result<Row, Error>)
    ensures r.Success? ==> Keys(r.value) == Keys(row)
  {
    match Get(row, key)
    case None => Success(row)
    case Some(v) =>
      if !Truthy(v) then Success(row)
      else
        match v
        case Int(n) => Success(Put(row, key, Int(n)))
        case Str(s) =>
          match Decimal.ParseInt(s)
          case None => Failure(InvalidLiteral(s))
          case Some(n) => Success(Put(row, key, Int(n)))
  }

  /** The inner loop over the given keys, stopping at the first failure. */
  function CoerceFields(row: Row, keys: seq<string>): Result<Row, Error>
    decreases |keys|
  {
    if keys == [] then Success(row)
    else
      match CoerceFields(row, keys[..|keys| - 1])
      case Failure(e) => Failure(e)
      case Success(r) => CoerceField(r, keys[|keys| - 1])
  }

  /** What one reader row becomes. */
  function CoerceRow(r: TextRow): Result<Row, Error> {
    CoerceFields(Lift(r), NUMERIC_FIELDS)
  }

  /** The outer loop: all rows in order, or the first error. */
  function ConvertAll(rows: seq<TextRow>): Result<seq<Row>, Error>
    decreases |rows|
  {
    if rows == [] then Success([])
    else
      match ConvertAll(rows[..|rows| - 1])
      case Failure(e) => Failure(e)
      case Success(data) =>
        match CoerceRow(rows[|rows| - 1])
        case Failure(e) => Failure(e)
        case Success(row) => Success(data + [row])
  }

  lemma {:induction false} CoerceFieldsFailure(row: Row, keys: seq<string>, j: nat)
    requires j <= |keys| && CoerceFields(row, keys[..j]).Failure?
    ensures CoerceFields(row, keys) == CoerceFields(row, keys[..j])
    decreases |keys| - j
  {
    if j < |keys| {
      assert keys[..j + 1][..j] == keys[..j];
      CoerceFieldsFailure(row, keys, j + 1);
    } else {
      assert keys[..j] == keys;
    }
  }

  lemma {:induction false} ConvertAllFailure(rows: seq<TextRow>, i: nat)
    requires i <= |rows| && ConvertAll(rows[..i]).Failure?
    ensures ConvertAll(rows) == ConvertAll(rows[..i])
    decreases |rows| - i
  {
    if i < |rows| {
      assert rows[..i + 1][..i] == rows[..i];
      ConvertAllFailure(rows, i + 1);
    } else {
      assert rows[..i] == rows;
    }
  }

  /** The inner loop over the numeric keys, coercing one reader row in place. */
  method CoerceInPlace(r: TextRow) returns (res: Result<Row, Error>)
    ensures res == CoerceRow(r)
  {
    var row := Lift(r);
    for j := 0 to |NUMERIC_FIELDS|
      invariant CoerceFields(Lift(r), NUMERIC_FIELDS[..j]) == Success(row)
    {
      var key := NUMERIC_FIELDS[j];
      assert NUMERIC_FIELDS[..j + 1] == NUMERIC_FIELDS[..j] + [key];
      assert CoerceFields(Lift(r), NUMERIC_FIELDS[..j + 1]) == CoerceField(row, key);
      var cell := Get(row, key);
      if cell.Some? && Truthy(cell.value) {
        match cell.value
        case Int(n) =>
          row := Put(row, key, Int(n));
        case Str(text) =>
          var parsed := Decimal.ParseInt(text);
          if parsed.None? {
            CoerceFieldsFailure(Lift(r), NUMERIC_FIELDS, j + 1);
            return Failure(InvalidLiteral(text));
          }
          row := Put(row, key, Int(parsed.value));
      }
    }
    assert NUMERIC_FIELDS[..|NUMERIC_FIELDS|] == NUMERIC_FIELDS;
    return Success(row);
  }

  /** `csv_to_json`'s read loop: each row is coerced in place and appended, the first bad cell aborts. */
  method Convert(rows: seq<TextRow>) returns (res: Result<seq<Row>, Error>)
    ensures res == ConvertAll(rows)
  {
    var data: seq<Row> := [];
    for i := 0 to |rows|
      invariant ConvertAll(rows[..i]) == Success(data)
    {
      assert rows[..i + 1][..i] == rows[..i];
      var row := CoerceInPlace(rows[i]);
      if row.Failure? {
        ConvertAllFailure(rows, i + 1);
        return Failure(row.error);
      }
      data := data + [row.value];
    }
    assert rows[..|rows|] == rows;
    return Success(data);
  }

  // ---------------------------------------------------------------------------
  // The per-cell view of the conversion

  /** What a cell becomes: non-empty text in a numeric column is parsed, anything else is kept. */
  function CellValue(key: string, text: string): Result<Value, Error> {
    if key in NUMERIC_FIELDS && text != "" then
      match Decimal.ParseInt(text)
      case Some(n) => Success(Int(n))
      case None => Failure(InvalidLiteral(text))
    else
      Success(Str(text))
  }

  predicate CellOk(c: (string, string)) {
    CellValue(c.0, c.1).Success?
  }

  /** The cell after the keys in done have been processed. */
  function PartialCell(c: (string, string), done: seq<string>): Value {
    if c.0 in done && c.1 != "" && Decimal.ParseInt(c.1).Some? then Int(Decimal.ParseInt(c.1).value)
    else Str(c.1)
  }

  function Partial(r: TextRow, done: seq<string>): (row: Row)
    ensures Keys(row) == Keys(r)
  {
    seq(|r|, i requires 0 <= i < |r| => (r[i].0, PartialCell(r[i], done)))
  }

  /** Every cell whose key is among done converts. */
  ghost predicate OkFor(r: TextRow, done: seq<string>) {
    forall i :: 0 <= i < |r| && r[i].0 in done ==> r[i].1 == "" || Decimal.ParseInt(r[i].1).Some?
  }

  lemma FindSameKeys<V, W>(a: Dict<V>, b: Dict<W>, k: string)
    requires Keys(a) == Keys(b)
    ensures Find(a, k) == Find(b, k)
  {
    assert forall i :: 0 <= i < |a| ==> a[i].0 == b[i].0 by {
      forall i | 0 <= i < |a| ensures a[i].0 == b[i].0 {
        assert Keys(a)[i] == Keys(b)[i];
      }
    }
    FindUnique(b, k, Find(a, k));
  }

  lemma CoerceFieldStep(r: TextRow, done: seq<string>, k: string)
    requires DistinctKeys(r) && k !in done
    ensures var res := CoerceField(Partial(r, done), k);
      && (res.Success? <==> forall i :: 0 <= i < |r| && r[i].0 == k ==> r[i].1 == "" || Decimal.ParseInt(r[i].1).Some?)
      && (res.Success? ==> res.value == Partial(r, done + [k]))
  {
    var p := Partial(r, done);
    FindSameKeys(p, r, k);
    var i := Find(r, k);
    if i < 0 {
      assert Partial(r, done + [k]) == p;
    } else {
      CoerceFieldPresent(r, done, k, i);
    }
  }

  /** The step for a key the row holds, at position i. */
  lemma CoerceFieldPresent(r: TextRow, done: seq<string>, k: string, i: nat)
    requires DistinctKeys(r) && k !in done && i < |r| && r[i].0 == k && Find(Partial(r, done), k) == i
    ensures var res := CoerceField(Partial(r, done), k);
      && (res.Success? <==> r[i].1 == "" || Decimal.ParseInt(r[i].1).Some?)
      && (res.Success? ==> res.value == Partial(r, done + [k]))
  {
    var p := Partial(r, done);
    assert p[i].1 == Str(r[i].1);
    if r[i].1 == "" {
      assert Partial(r, done + [k]) == p;
    } else if Decimal.ParseInt(r[i].1).Some? {
      var v := Int(Decimal.ParseInt(r[i].1).value);
      var q := Partial(r, done + [k]);
      assert Put(p, k, v) == p[i := (k, v)];
      assert forall j :: 0 <= j < |r| && j != i ==> q[j] == p[j];
      assert q == p[i := (k, v)];
    }
  }

  lemma {:induction false} CoerceFieldsPartial(r: TextRow, j: nat)
    requires DistinctKeys(r) && j <= |NUMERIC_FIELDS|
    ensures var res := CoerceFields(Lift(r), NUMERIC_FIELDS[..j]);
      && (res.Success? <==> OkFor(r, NUMERIC_FIELDS[..j]))
      && (res.Success? ==> res.value == Partial(r, NUMERIC_FIELDS[..j]))
  {
    var keys := NUMERIC_FIELDS[..j];
    if j == 0 {
      assert keys == [];
      assert Partial(r, []) == Lift(r);
    } else {
      var done := NUMERIC_FIELDS[..j - 1];
      var k := NUMERIC_FIELDS[j - 1];
      assert keys[..|keys| - 1] == done && keys[|keys| - 1] == k && keys == done + [k];
      CoerceFieldsPartial(r, j - 1);
      assert k !in done;
      if CoerceFields(Lift(r), done).Success? {
        CoerceFieldStep(r, done, k);
      }
    }
  }

  /** The row the per-cell view predicts, when every cell converts. */
  function Expected(r: TextRow): (row: Row)
    requires forall i :: 0 <= i < |r| ==> CellOk(r[i])
    ensures Keys(row) == Keys(r)
  {
    seq(|r|, i requires 0 <= i < |r| && CellOk(r[i]) => (r[i].0, CellValue(r[i].0, r[i].1).value))
  }

  /**
   * The key-by-key loop agrees with the per-cell view: a row converts exactly when
   * every numeric cell is empty or an integer literal, and then its cells, in their
   * original order, are the parsed ints and the untouched strings.
   */
  lemma CoerceRowCells(r: TextRow)
    requires DistinctKeys(r)
    ensures CoerceRow(r).Success? <==> forall i :: 0 <= i < |r| ==> CellOk(r[i])
    ensures CoerceRow(r).Success? ==> CoerceRow(r).value == Expected(r)
  {
    CoerceFieldsPartial(r, |NUMERIC_FIELDS|);
    assert NUMERIC_FIELDS[..|NUMERIC_FIELDS|] == NUMERIC_FIELDS;
  }

  /** A numeric column holding the decimal text of an int converts to that int. */
  lemma IntCell(key: string, n: int)
    requires key in NUMERIC_FIELDS
    ensures CellValue(key, Decimal.IntText(n)) == Success(Int(n))
  {
    Decimal.ParseIntText(n);
  }

  /** The three specimen cells, each the decimal text of its int. */
  lemma SpecimenCells()
    ensures CellValue("duration", "245") == Success(Int(245))
    ensures CellValue("bitrate", "320") == Success(Int(320))
    ensures CellValue("sample_rate", "44100") == Success(Int(44100))
  {
    assert Decimal.IntText(245) == "245" && Decimal.IntText(320) == "320" && Decimal.IntText(44100) == "44100";
    IntCell("duration", 245);
    IntCell("bitrate", 320);
    IntCell("sample_rate", 44100);
  }

  /** A row with the three numeric cells filled converts them to those ints. */
  lemma NumericSpecimen()
    ensures CoerceRow([("duration", "245"), ("bitrate", "320"), ("sample_rate", "44100")])
      == Success([("duration", Int(245)), ("bitrate", Int(320)), ("sample_rate", Int(44100))])
  {
    var r := [("duration", "245"), ("bitrate", "320"), ("sample_rate", "44100")];
    SpecimenCells();
    CoerceRowCells(r);
    assert Expected(r) == [("duration", Int(245)), ("bitrate", Int(320)), ("sample_rate", Int(44100))];
  }

  /** An empty duration stays the empty string; it does not become 0. */
  lemma EmptySpecimen()
    ensures CoerceRow([("duration", "")]) == Success([("duration", Str(""))])
  {
    CoerceRowCells([("duration", "")]);
    assert Expected([("duration", "")]) == [("duration", Str(""))];
  }

  /** A bitrate of "N/A" is not an integer literal, so a run over any rows holding that row fails. */
  lemma InvalidSpecimen(rows: seq<TextRow>, k: nat)
    requires k < |rows| && rows[k] == [("bitrate", "N/A")]
    ensures CoerceRow(rows[k]) == Failure(InvalidLiteral("N/A"))
    ensures ConvertAll(rows).Failure?
  {
    var r := rows[k];
    assert Get(Lift(r), "duration") == None;
    assert Get(Lift(r), "bitrate") == Some(Str("N/A"));
    assert !Decimal.IsDigit('N');
    assert Decimal.ParseInt("N/A") == None;
    assert NUMERIC_FIELDS[..1] == ["duration"];
    assert NUMERIC_FIELDS[..2] == ["duration", "bitrate"];
    assert CoerceFields(Lift(r), NUMERIC_FIELDS[..1]) == Success(Lift(r));
    assert CoerceFields(Lift(r), NUMERIC_FIELDS[..2]) == Failure(InvalidLiteral("N/A"));
    CoerceFieldsFailure(Lift(r), NUMERIC_FIELDS, 2);
    ConvertAllRows(rows);
  }

  /** The outer loop succeeds exactly when every row converts. */
  lemma {:induction false} ConvertAllSucceeds(rows: seq<TextRow>)
    ensures ConvertAll(rows).Success? <==> forall i :: 0 <= i < |rows| ==> CoerceRow(rows[i]).Success?
    decreases |rows|
  {
    if rows != [] {
      var init := rows[..|rows| - 1];
      ConvertAllSucceeds(init);
      assert forall i :: 0 <= i < |init| ==> init[i] == rows[i];
      if ConvertAll(init).Failure? {
        var i :| 0 <= i < |init| && CoerceRow(init[i]).Failure?;
        assert CoerceRow(rows[i]).Failure?;
      }
    }
  }

  /** A successful outer loop yields one converted row per input row, in input order. */
  lemma {:induction false} ConvertAllValues(rows: seq<TextRow>)
    requires ConvertAll(rows).Success?
    ensures |ConvertAll(rows).value| == |rows|
    ensures forall i :: 0 <= i < |rows| ==> CoerceRow(rows[i]) == Success(ConvertAll(rows).value[i])
    decreases |rows|
  {
    if rows != [] {
      var init := rows[..|rows| - 1];
      assert ConvertAll(init).Success?;
      ConvertAllValues(init);
      assert forall i :: 0 <= i < |init| ==> init[i] == rows[i];
      assert CoerceRow(rows[|rows| - 1]).Success?;
      assert ConvertAll(rows).value == ConvertAll(init).value + [CoerceRow(rows[|rows| - 1]).value];
    }
  }

  /** The outer loop keeps the rows and their order, and fails exactly when some row fails. */
  lemma ConvertAllRows(rows: seq<TextRow>)
    ensures ConvertAll(rows).Success? <==> forall i :: 0 <= i < |rows| ==> CoerceRow(rows[i]).Success?
    ensures ConvertAll(rows).Success? ==>
      |ConvertAll(rows).value| == |rows| &&
      forall i :: 0 <= i < |rows| ==> ConvertAll(rows).value[i] == CoerceRow(rows[i]).value
  {
    ConvertAllSucceeds(rows);
    if ConvertAll(rows).Success? {
      ConvertAllValues(rows);
    }
  }

  // ---------------------------------------------------------------------------
  // The run

  /** The JSON output file: no document until the run writes one. */
  class JsonFile {
    var document: Option<seq<Row>>

    constructor ()
      ensures document == None
    {
      document := None;
    }
  }

  /** `csv_to_json`: the file is written only after every row has converted. */
  method Export(rows: seq<TextRow>, out: JsonFile) returns (status: Outcome<Error>)
    modifies out
    ensures ConvertAll(rows).Failure? ==> status == Fail(ConvertAll(rows).error) && unchanged(out)
    ensures ConvertAll(rows).Success? ==> status == Pass && out.document == Some(ConvertAll(rows).value)
  {
    var res := Convert(rows);
    if res.Failure? {
      return Fail(res.error);
    }
    out.document := Some(res.value);
    return Pass;
  }
}
