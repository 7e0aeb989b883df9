/** `preprocess_data`: re-parses the Date column and checks that the required
    columns are present; a missing column is the dashboard's only error. */
module Ingest {
  import opened Wrappers

  /** A cell of a loaded table: raw text, a whole number, or a parsed date
      (a day ordinal). */
  datatype Cell = Text(text: string) | Whole(n: int) | Day(ordinal: int)

  type Row = map<string, Cell>

  /** A loaded table: its column names in file order and its rows. */
  datatype Table = Table(columns: seq<string>, rows: seq<Row>)

  const REQUIRED: seq<string> := ["Date", "City", "AQI"]

  /** The entries of `required` absent from `columns`, in the order of `required`. */
  function Absent(required: seq<string>, columns: seq<string>): (m: seq<string>)
    ensures |m| <= |required|
    ensures forall c :: c in m <==> c in required && c !in columns
  {
    if required == [] then []
    else (if required[0] in columns then [] else [required[0]]) + Absent(required[1..], columns)
  }

  /** `missing_columns`: one entry per required column the table lacks, listed
      Date, City, AQI. */
  function MissingColumns(columns: seq<string>): (m: seq<string>)
    ensures m == (if "Date" in columns then [] else ["Date"])
               + (if "City" in columns then [] else ["City"])
               + (if "AQI" in columns then [] else ["AQI"])
  {
    assert ["AQI"][1..] == [] && Absent([], columns) == [];
    assert Absent(["AQI"], columns) == (if "AQI" in columns then [] else ["AQI"]);
    assert ["City", "AQI"][1..] == ["AQI"];
    var tail := Absent(["City", "AQI"], columns);
    assert tail == (if "City" in columns then [] else ["City"]) + Absent(["AQI"], columns);
    assert REQUIRED[0] == "Date" && REQUIRED[1..] == ["City", "AQI"];
    assert Absent(REQUIRED, columns) == (if "Date" in columns then [] else ["Date"]) + tail;
    Absent(REQUIRED, columns)
  }

  /** `pd.to_datetime` on one cell: a date stays as it is, anything else is
      parsed by `toDay`. */
  function ParseDate(c: Cell, toDay: Cell -> int): (d: Cell)
    ensures d.Day?
    ensures c.Day? ==> d == c
  {
    if c.Day? then c else Day(toDay(c))
  }

  /** Only the Date cell of a row may change, and it becomes the parse of the
      old cell (so a date, and an already parsed date is kept). */
  predicate OnlyDateReparsed(before: Row, after: Row, toDay: Cell -> int) {
    && after.Keys == before.Keys
    && (forall k :: k in before && k != "Date" ==> after[k] == before[k])
    && ("Date" in before ==> after["Date"] == ParseDate(before["Date"], toDay))
  }

  function ParseRow(row: Row, toDay: Cell -> int): (r: Row)
    ensures OnlyDateReparsed(row, r, toDay)
  {
    if "Date" in row then row["Date" := ParseDate(row["Date"], toDay)] else row
  }

  /** `df['Date'] = pd.to_datetime(df['Date'])` when the column exists. */
  function ParseDates(t: Table, toDay: Cell -> int): (p: Table)
    ensures p.columns == t.columns && |p.rows| == |t.rows|
    ensures forall i :: 0 <= i < |t.rows| ==>
              if "Date" in t.columns then OnlyDateReparsed(t.rows[i], p.rows[i], toDay)
              else p.rows[i] == t.rows[i]
  {
    if "Date" in t.columns
    then Table(t.columns, seq(|t.rows|, i requires 0 <= i < |t.rows| => ParseRow(t.rows[i], toDay)))
    else t
  }

  /** `preprocess_data`: fails, naming the missing columns, exactly when a
      required column is absent; otherwise returns the table with only its
      Date column re-parsed. */
  function Preprocess(t: Table, toDay: Cell -> int): (r: Result<Table, seq<string>>)
    ensures r.Failure? <==> exists c :: c in REQUIRED && c !in t.columns
    ensures r.Failure? ==> r.error == MissingColumns(t.columns) && r.error != []
    ensures r.Success? ==> && r.value.columns == t.columns
                           && |r.value.rows| == |t.rows|
                           && forall i :: 0 <= i < |t.rows| ==> OnlyDateReparsed(t.rows[i], r.value.rows[i], toDay)
  {
    var parsed := ParseDates(t, toDay);
    var missing := MissingColumns(parsed.columns);
    if missing != [] then Failure(missing) else Success(parsed)
  }

  /** Preprocessing an accepted table a second time changes nothing. */
  lemma PreprocessIdempotent(t: Table, toDay: Cell -> int)
    requires Preprocess(t, toDay).Success?
    ensures Preprocess(Preprocess(t, toDay).value, toDay) == Preprocess(t, toDay)
  {
    var p := Preprocess(t, toDay).value;
    var q := ParseDates(p, toDay);
    assert "Date" in p.columns;
    forall i | 0 <= i < |p.rows|
      ensures q.rows[i] == p.rows[i]
    {
      var before, after := p.rows[i], q.rows[i];
      assert after.Keys == before.Keys;
      forall k | k in before
        ensures after[k] == before[k]
      {
        if k == "Date" {
          assert OnlyDateReparsed(t.rows[i], before, toDay);
        }
      }
    }
    assert q.rows == p.rows;
  }
}
