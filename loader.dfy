/**
 * The record loader: the row loop of `load_data_from_csv`, applied to rows
 * that the CSV reader has already split into fields.
 */
module Loader {
  import opened Wrappers
  import opened Decimal

  /** One day's record: the ISO date text and the Fahrenheit low and high. */
  datatype Day = Day(date: string, low: int, high: int)

  datatype LoadError =
    | MissingHeader          // `next(csv_reader)` on a file with no rows
    | MissingField           // a non-empty row with fewer than three fields
    | BadInteger(text: string)  // `int(...)` rejects a temperature field

  /**
   * One data row: nothing for a row with no fields, otherwise a record built
   * from fields 0, 1 and 2 (later fields are ignored), failing as the source
   * does on the first field it cannot read.
   */
  function ParseRow(row: seq<string>): (r: Result<Option<Day>, LoadError>)
    ensures r == Success(None) <==> |row| == 0
    ensures r.Failure? <==>
              |row| > 0 && (|row| < 3 || ParseInt(row[1]).None? || ParseInt(row[2]).None?)
    ensures r.Failure? ==> !r.error.MissingHeader?
    ensures |row| >= 3 && ParseInt(row[1]).Some? && ParseInt(row[2]).Some? ==>
              r == Success(Some(Day(row[0], ParseInt(row[1]).value, ParseInt(row[2]).value)))
    ensures r.Success? && r.value.Some? ==>
              |row| >= 3 && r.value.value.date == row[0]
              && ParseInt(row[1]) == Some(r.value.value.low)
              && ParseInt(row[2]) == Some(r.value.value.high)
  {
    if |row| == 0 then Success(None)
    else if |row| < 2 then Failure(MissingField)
    else match ParseInt(row[1])
      case None => Failure(BadInteger(row[1]))
      case Some(low) =>
        if |row| < 3 then Failure(MissingField)
        else match ParseInt(row[2])
          case None => Failure(BadInteger(row[2]))
          case Some(high) => Success(Some(Day(row[0], low, high)))
  }

  /** The data rows, in order, up to and including the first failing one. */
  function ParseData(rows: seq<seq<string>>): (r: Result<seq<Day>, LoadError>)
    ensures r.Success? ==> |r.value| <= |rows|
    ensures r.Failure? ==> !r.error.MissingHeader?
  {
    if |rows| == 0 then Success([])
    else match ParseData(rows[..|rows| - 1])
      case Failure(e) => Failure(e)
      case Success(days) =>
        match ParseRow(rows[|rows| - 1])
        case Failure(e) => Failure(e)
        case Success(None) => Success(days)
        case Success(Some(d)) => Success(days + [d])
  }

  /** The whole file: the first row is a header and is skipped. */
  function ParseTable(rows: seq<seq<string>>): (r: Result<seq<Day>, LoadError>)
    ensures r.Failure? && r.error.MissingHeader? <==> |rows| == 0
    ensures r.Success? ==> |r.value| < |rows|
  {
    if |rows| == 0 then Failure(MissingHeader) else ParseData(rows[1..])
  }

  /** Once a prefix of the rows fails, the rows after it are never looked at. */
  lemma {:induction false} FirstErrorStops(rows: seq<seq<string>>, i: nat)
    requires i <= |rows| && ParseData(rows[..i]).Failure?
    ensures ParseData(rows) == ParseData(rows[..i])
    decreases |rows| - i
  {
    if i < |rows| {
      var longer := rows[..i + 1];
      assert longer[..i] == rows[..i];
      FirstErrorStops(rows, i + 1);
    } else {
      assert rows[..i] == rows;
    }
  }

  /** The data rows load exactly when every one of them parses on its own. */
  lemma {:induction false} ParseDataSucceeds(rows: seq<seq<string>>)
    ensures ParseData(rows).Success? <==> forall k :: 0 <= k < |rows| ==> ParseRow(rows[k]).Success?
  {
    if |rows| > 0 {
      var n := |rows| - 1;
      ParseDataSucceeds(rows[..n]);
      assert forall k :: 0 <= k < n ==> rows[..n][k] == rows[k];
    }
  }

  /** Row `k` is the first row that does not parse. */
  predicate FirstFailure(rows: seq<seq<string>>, k: int)
    requires 0 <= k < |rows|
  {
    ParseRow(rows[k]).Failure? && forall j :: 0 <= j < k ==> ParseRow(rows[j]).Success?
  }

  /**
   * A failed load reports the error of the first row that does not parse:
   * every row before it parses.
   */
  lemma {:induction false} ParseDataFirstError(rows: seq<seq<string>>)
    requires ParseData(rows).Failure?
    ensures exists k :: 0 <= k < |rows| && FirstFailure(rows, k)
                        && ParseData(rows).error == ParseRow(rows[k]).error
  {
    var n := |rows| - 1;
    ParseDataSucceeds(rows[..n]);
    assert forall j :: 0 <= j < n ==> rows[..n][j] == rows[j];
    if ParseData(rows[..n]).Failure? {
      ParseDataFirstError(rows[..n]);
      var k :| 0 <= k < n && FirstFailure(rows[..n], k)
                && ParseData(rows[..n]).error == ParseRow(rows[..n][k]).error;
      assert FirstFailure(rows, k);
    } else {
      assert FirstFailure(rows, n);
    }
  }

  /** How one more data row extends the outcome of the rows before it. */
  lemma ParseDataStep(rows: seq<seq<string>>, i: nat, data: seq<Day>)
    requires 1 <= i < |rows| && ParseData(rows[1..i]) == Success(data)
    ensures ParseRow(rows[i]) == Success(None) ==> ParseData(rows[1..i + 1]) == Success(data)
    ensures ParseRow(rows[i]).Success? && ParseRow(rows[i]).value.Some? ==>
              ParseData(rows[1..i + 1]) == Success(data + [ParseRow(rows[i]).value.value])
    ensures ParseRow(rows[i]).Failure? ==>
              ParseData(rows[1..i + 1]) == Failure(ParseRow(rows[i]).error)
  {
    var seen := rows[1..i + 1];
    assert seen[..|seen| - 1] == rows[1..i] && seen[|seen| - 1] == rows[i];
  }

  /** `load_data_from_csv` after the file has been opened and split into rows. */
  method LoadDataFromCsv(rows: seq<seq<string>>) returns (r: Result<seq<Day>, LoadError>)
    ensures r == ParseTable(rows)
  {
    if |rows| == 0 {
      return Failure(MissingHeader);
    }
    var data: seq<Day> := [];
    var i := 1;
    while i < |rows|
      invariant 1 <= i <= |rows|
      invariant ParseData(rows[1..i]) == Success(data)
    {
      var lines := rows[i];
      ParseDataStep(rows, i, data);
      if |lines| == 0 {
        i := i + 1;
        continue;
      }
      var date := lines[0];
      if |lines| < 2 {
        r := Failure(MissingField);
        assert ParseRow(lines) == Failure(MissingField);
      } else {
        var low := ParseInt(lines[1]);
        if low.None? {
          r := Failure(BadInteger(lines[1]));
          assert ParseRow(lines) == Failure(BadInteger(lines[1]));
        } else if |lines| < 3 {
          r := Failure(MissingField);
          assert ParseRow(lines) == Failure(MissingField);
        } else {
          var high := ParseInt(lines[2]);
          if high.None? {
            r := Failure(BadInteger(lines[2]));
            assert ParseRow(lines) == Failure(BadInteger(lines[2]));
          } else {
            assert ParseRow(lines) == Success(Some(Day(date, low.value, high.value)));
            data := data + [Day(date, low.value, high.value)];
            i := i + 1;
            continue;
          }
        }
      }
      assert r == ParseData(rows[1..i + 1]) && rows[1..][..i] == rows[1..i + 1];
      FirstErrorStops(rows[1..], i);
      return;
    }
    assert rows[1..i] == rows[1..];
    r := Success(data);
  }

  /** How a CSV writer lays out one record. */
  function WriteRow(d: Day): seq<string> {
    [d.date, IntText(d.low), IntText(d.high)]
  }

  function WriteRows(days: seq<Day>): (rows: seq<seq<string>>)
    ensures |rows| == |days|
  {
    if |days| == 0 then [] else WriteRows(days[..|days| - 1]) + [WriteRow(days[|days| - 1])]
  }

  /** Writing records under any header and loading them gives the same records back. */
  lemma {:induction false} LoadWrittenRows(header: seq<string>, days: seq<Day>)
    ensures ParseTable([header] + WriteRows(days)) == Success(days)
  {
    assert ([header] + WriteRows(days))[1..] == WriteRows(days);
    ParseWrittenRows(days);
  }

  lemma {:induction false} ParseWrittenRows(days: seq<Day>)
    ensures ParseData(WriteRows(days)) == Success(days)
  {
    if |days| > 0 {
      var n := |days| - 1;
      var rows := WriteRows(days);
      assert days[..n] + [days[n]] == days;
      assert rows[..|rows| - 1] == WriteRows(days[..n]) && rows[|rows| - 1] == WriteRow(days[n]);
      ParseWrittenRows(days[..n]);
      ParseWrittenRow(days[n]);
    }
  }

  lemma ParseWrittenRow(d: Day)
    ensures ParseRow(WriteRow(d)) == Success(Some(d))
  {
    ParseIntText(d.low);
    ParseIntText(d.high);
  }

  /** The rows that have at least one field. */
  function NonBlank(rows: seq<seq<string>>): (kept: seq<seq<string>>)
    ensures |kept| <= |rows|
  {
    if |rows| == 0 then []
    else if |rows[|rows| - 1]| == 0 then NonBlank(rows[..|rows| - 1])
    else NonBlank(rows[..|rows| - 1]) + [rows[|rows| - 1]]
  }

  /**
   * A successful load yields one record per non-empty row, in order, each
   * taking its date from field 0 and its temperatures from fields 1 and 2.
   */
  lemma {:induction false} OneRecordPerNonBlankRow(rows: seq<seq<string>>, days: seq<Day>)
    requires ParseData(rows) == Success(days)
    ensures |days| == |NonBlank(rows)|
    ensures forall k :: 0 <= k < |days| ==>
              |NonBlank(rows)[k]| >= 3 && days[k].date == NonBlank(rows)[k][0]
              && ParseInt(NonBlank(rows)[k][1]) == Some(days[k].low)
              && ParseInt(NonBlank(rows)[k][2]) == Some(days[k].high)
  {
    if |rows| > 0 {
      var n := |rows| - 1;
      var earlier :| ParseData(rows[..n]) == Success(earlier);
      OneRecordPerNonBlankRow(rows[..n], earlier);
    }
  }
}
