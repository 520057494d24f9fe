/**
 * FileReader: the comma-delimited country file. GetFileData drops the
 * header line and cuts every other line at its commas; GetCountries maps
 * each row's first five fields onto a Country, parsing the two ids with
 * int.Parse.
 */
module FileReader {
  import opened Wrappers
  import Text
  import Int32Text

  /** The Country record GetCountries builds. */
  datatype Country = Country(countryId: int, name: string, cc2: string, cc3: string, affiliationId: int)

  /** Why one row does not map: a missing field (IndexOutOfRangeException) or a bad integer. */
  datatype FieldError =
    | MissingField(index: nat)
    | NotAnInteger(index: nat, text: string)

  /** The exception GetCountries ends with, and the row it came from. */
  datatype RowFailure = RowFailure(row: nat, error: FieldError)

  /** The rows of a list of lines, each line cut at every comma. */
  function SplitLines(lines: seq<string>): (rows: seq<seq<string>>)
    ensures |rows| == |lines|
    ensures forall k :: 0 <= k < |lines| ==> rows[k] == Text.Split(lines[k], {','})
    decreases |lines|
  {
    if |lines| == 0 then [] else [Text.Split(lines[0], {','})] + SplitLines(lines[1..])
  }

  /** What GetFileData returns for a file with these lines: every line but the first, cut at commas. */
  function FileData(lines: seq<string>): seq<seq<string>> {
    if |lines| == 0 then [] else SplitLines(lines[1..])
  }

  /**
   * GetFileData, with the file given by the lines ReadLine yields: the
   * first line is read and ignored, every further line is split on ','.
   */
  method GetFileData(lines: seq<string>) returns (data: seq<seq<string>>)
    ensures data == FileData(lines)
  {
    data := [];
    if |lines| == 0 {
      return;
    }
    var i := 1;
    while i < |lines|
      invariant 1 <= i <= |lines|
      invariant data == SplitLines(lines[1..i])
      decreases |lines| - i
    {
      var line := lines[i];
      data := data + [Text.Split(line, {','})];
      i := i + 1;
    }
    assert lines[1..i] == lines[1..];
  }

  /**
   * Nothing of a data line is lost: there is one row per line after the
   * header, and joining a row's fields with ',' gives back its line.
   */
  lemma FileDataKeepsLines(lines: seq<string>)
    requires |lines| > 0
    ensures |FileData(lines)| == |lines| - 1
    ensures forall k :: 0 <= k < |lines| - 1 ==> Text.Join(FileData(lines)[k], ',') == lines[k + 1]
  {
    forall k | 0 <= k < |lines| - 1
      ensures Text.Join(FileData(lines)[k], ',') == lines[k + 1]
    {
      assert FileData(lines)[k] == Text.Split(lines[k + 1], {','});
      Text.JoinSplit(lines[k + 1], ',');
    }
  }

  /**
   * The Country object initializer of GetCountries on one row: line[0] is
   * parsed first, then fields 1 to 4 are read, then line[4] is parsed.
   */
  function MapRow(line: seq<string>): (r: Result<Country, FieldError>)
  {
    if |line| == 0 then Err(MissingField(0))
    else
      match Int32Text.ParseInt32(line[0])
      case None => Err(NotAnInteger(0, line[0]))
      case Some(countryId) =>
        if |line| < 5 then Err(MissingField(|line|))
        else
          match Int32Text.ParseInt32(line[4])
          case None => Err(NotAnInteger(4, line[4]))
          case Some(affiliationId) => Ok(Country(countryId, line[1], line[2], line[3], affiliationId))
  }

  /**
   * A row maps exactly when it has five fields and both ids parse, and
   * then onto its fields in order; an unparsable first field is reported
   * before a short row, which is reported by the index of the first field
   * it lacks.
   */
  lemma MapRowMeaning(line: seq<string>)
    ensures var r := MapRow(line);
            r.Ok? <==> (|line| >= 5 && Int32Text.ParseInt32(line[0]).Some? && Int32Text.ParseInt32(line[4]).Some?)
    ensures var r := MapRow(line);
            r.Ok? ==> r.value == Country(Int32Text.ParseInt32(line[0]).value, line[1], line[2], line[3],
                                         Int32Text.ParseInt32(line[4]).value)
    ensures |line| > 0 && Int32Text.ParseInt32(line[0]).None? ==> MapRow(line) == Err(NotAnInteger(0, line[0]))
    ensures var r := MapRow(line);
            r.Err? && r.error.MissingField? ==> r.error.index == |line| < 5
  {
  }

  /** The failure of a row, moved `offset` rows further down. */
  function Shift(failure: RowFailure, offset: nat): RowFailure {
    RowFailure(failure.row + offset, failure.error)
  }

  /**
   * What GetCountries computes: one Country per row, in order, or the
   * failure of the first row that does not map.
   */
  function Countries(rows: seq<seq<string>>): (r: Result<seq<Country>, RowFailure>)
    ensures r.Ok? ==> |r.value| == |rows|
    ensures r.Err? ==> r.error.row < |rows|
    decreases |rows|
  {
    if |rows| == 0 then Ok([])
    else
      match MapRow(rows[0])
      case Err(e) => Err(RowFailure(0, e))
      case Ok(country) =>
        match Countries(rows[1..])
        case Err(failure) => Err(Shift(failure, 1))
        case Ok(more) => Ok([country] + more)
  }

  /** The countries of the rows already read, followed by the outcome for the rows after them. */
  function Resume(read: seq<Country>, rest: Result<seq<Country>, RowFailure>): Result<seq<Country>, RowFailure> {
    match rest
    case Err(failure) => Err(Shift(failure, |read|))
    case Ok(more) => Ok(read + more)
  }

  /** GetCountries: builds the list row by row; the first row that does not map ends it with an exception. */
  method GetCountries(textLines: seq<seq<string>>) returns (r: Result<seq<Country>, RowFailure>)
    ensures r == Countries(textLines)
  {
    var retVal: seq<Country> := [];
    var i := 0;
    assert textLines[0..] == textLines;
    ResumeNothing(Countries(textLines));
    while i < |textLines|
      invariant 0 <= i <= |textLines| && |retVal| == i
      invariant Countries(textLines) == Resume(retVal, Countries(textLines[i..]))
      decreases |textLines| - i
    {
      var line := textLines[i];
      var country := MapRow(line);
      CountriesAt(textLines, i);
      if country.Err? {
        return Err(RowFailure(i, country.error));
      }
      ResumeOne(retVal, country.value, Countries(textLines[i + 1..]));
      retVal := retVal + [country.value];
      i := i + 1;
    }
    assert retVal + [] == retVal;
    return Ok(retVal);
  }

  /** Countries of the rows from i on: row i, then the rows after it. */
  lemma CountriesAt(rows: seq<seq<string>>, i: nat)
    requires i < |rows|
    ensures Countries(rows[i..]) == match MapRow(rows[i])
                                   case Err(e) => Err(RowFailure(0, e))
                                   case Ok(country) => Resume([country], Countries(rows[i + 1..]))
  {
    assert rows[i..][0] == rows[i] && rows[i..][1..] == rows[i + 1..];
  }

  lemma ResumeNothing(rest: Result<seq<Country>, RowFailure>)
    ensures Resume([], rest) == rest
  {
    if rest.Ok? {
      assert [] + rest.value == rest.value;
    }
  }

  lemma ResumeOne(read: seq<Country>, country: Country, rest: Result<seq<Country>, RowFailure>)
    ensures Resume(read, Resume([country], rest)) == Resume(read + [country], rest)
  {
    if rest.Ok? {
      assert read + ([country] + rest.value) == (read + [country]) + rest.value;
    }
  }

  /**
   * Countries in terms of single rows: on success every row maps to the
   * Country at its index; on failure the failing row is the first one that
   * does not map, and its error is the one reported.
   */
  lemma {:induction false} CountriesByRow(rows: seq<seq<string>>)
    ensures var r := Countries(rows);
            r.Ok? ==> forall k :: 0 <= k < |rows| ==> MapRow(rows[k]) == Ok(r.value[k])
    ensures var r := Countries(rows);
            r.Err? ==> MapRow(rows[r.error.row]) == Err(r.error.error)
                       && forall k :: 0 <= k < r.error.row ==> MapRow(rows[k]).Ok?
    decreases |rows|
  {
    if |rows| > 0 {
      CountriesByRow(rows[1..]);
      var r := Countries(rows);
      if MapRow(rows[0]).Ok? {
        if r.Ok? {
          forall k | 0 < k < |rows| ensures MapRow(rows[k]) == Ok(r.value[k]) {
            assert rows[k] == rows[1..][k - 1];
          }
        } else {
          var failure := Countries(rows[1..]).error;
          assert r.error.row == failure.row + 1;
          assert rows[r.error.row] == rows[1..][failure.row];
          forall k | 0 < k < r.error.row ensures MapRow(rows[k]).Ok? {
            assert rows[k] == rows[1..][k - 1];
          }
        }
      }
    }
  }

  /** When the first i rows map and row i does not, Countries fails at row i. */
  lemma {:induction false} CountriesFirstFailure(rows: seq<seq<string>>, i: nat)
    requires i < |rows| && MapRow(rows[i]).Err?
    requires forall k :: 0 <= k < i ==> MapRow(rows[k]).Ok?
    ensures Countries(rows) == Err(RowFailure(i, MapRow(rows[i]).error))
    decreases i
  {
    if i > 0 {
      assert MapRow(rows[0]).Ok?;
      CountriesFirstFailure(rows[1..], i - 1);
    }
  }

  /** When every row maps, Countries is the list of the mapped rows. */
  lemma {:induction false} CountriesAllMap(rows: seq<seq<string>>, countries: seq<Country>)
    requires |countries| == |rows| && forall k :: 0 <= k < |rows| ==> MapRow(rows[k]) == Ok(countries[k])
    ensures Countries(rows) == Ok(countries)
    decreases |rows|
  {
    if |rows| > 0 {
      CountriesAllMap(rows[1..], countries[1..]);
      assert [countries[0]] + countries[1..] == countries;
    }
  }

  /**
   * The file format has no quoting: a comma inside the name shifts every
   * later field, so the second half of the name is read as the CC2 code,
   * the CC2 code as the CC3 code, and the CC3 code is parsed as the
   * affiliation id.
   */
  lemma CommaInNameShiftsFields(id: string, name1: string, name2: string, cc2: string, cc3: string,
                                affiliation: string)
    requires Int32Text.ParseInt32(id).Some?
    ensures MapRow([id, name1, name2, cc2, cc3, affiliation]) ==
              match Int32Text.ParseInt32(cc3)
              case None => Err(NotAnInteger(4, cc3))
              case Some(v) => Ok(Country(Int32Text.ParseInt32(id).value, name1, name2, cc2, v))
  {
    var line := [id, name1, name2, cc2, cc3, affiliation];
    assert line[0] == id && line[4] == cc3;
  }
}
