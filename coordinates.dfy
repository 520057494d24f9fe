/**
 * GeographicCoordinate.cs: the tolerance equality of GeographicCoordinate,
 * the KML coordinate tokenizer/pairer ParseCoordinates and the ring
 * serialiser ConvertGeoCoordinatesToPolygon.
 *
 * Doubles are modelled as reals. double.Parse and double.ToString are the
 * parameters `parse` and `format`; DbGeography.PolygonFromText is the
 * parameter `polygonFromText`, with None for the exception it throws.
 */
module Coordinates {
  import opened Wrappers
  import Text

  // ---------------------------------------------------------------------
  // GeographicCoordinate and its tolerance equality
  // ---------------------------------------------------------------------

  /** The class GeographicCoordinate; its constructor takes the longitude first. */
  datatype GeographicCoordinate = GeographicCoordinate(longitude: real, latitude: real)

  const Tolerance: real := 10.0 * 0.1

  /** Math.Abs(x - y). */
  function Distance(x: real, y: real): real {
    if x < y then y - x else x - y
  }

  /**
   * operator == on two references that may be null: null equals only null,
   * and two coordinates are equal when both axes differ by less than the
   * tolerance. (The ReferenceEquals shortcut for one instance gives the
   * same answer, as a value is within tolerance of itself.)
   */
  predicate Equal(a: Option<GeographicCoordinate>, b: Option<GeographicCoordinate>) {
    if a.None? && b.None? then true
    else if a.None? || b.None? then false
    else
      var latResult := Distance(a.value.latitude, b.value.latitude);
      var lonResult := Distance(a.value.longitude, b.value.longitude);
      latResult < Tolerance && lonResult < Tolerance
  }

  /** operator !=. */
  predicate NotEqual(a: Option<GeographicCoordinate>, b: Option<GeographicCoordinate>) {
    !Equal(a, b)
  }

  /** What Equals(object) may be handed: null, a GeographicCoordinate, or an object of another run-time type. */
  datatype Object = NullObject | CoordinateObject(coordinate: GeographicCoordinate) | OtherObject

  /** Equals(object obj), called on the non-null coordinate `self`. */
  predicate Equals(self: GeographicCoordinate, obj: Object) {
    if obj.NullObject? || !obj.CoordinateObject? then false
    else
      var p := obj.coordinate;
      var latResult := Distance(self.latitude, p.latitude);
      var lonResult := Distance(self.longitude, p.longitude);
      latResult < Tolerance && lonResult < Tolerance
  }

  /** Two coordinates are equal exactly when each axis differs by less than 1.0. */
  lemma EqualWithinOneDegree(a: GeographicCoordinate, b: GeographicCoordinate)
    ensures Equal(Some(a), Some(b)) <==>
            (-1.0 < a.latitude - b.latitude < 1.0 && -1.0 < a.longitude - b.longitude < 1.0)
  {
  }

  /** null == null holds; null never equals a coordinate, in either order. */
  lemma EqualOnNull(c: GeographicCoordinate)
    ensures Equal(None, None)
    ensures !Equal(None, Some(c)) && !Equal(Some(c), None)
  {
  }

  lemma EqualReflexive(a: Option<GeographicCoordinate>)
    ensures Equal(a, a)
  {
  }

  lemma EqualSymmetric(a: Option<GeographicCoordinate>, b: Option<GeographicCoordinate>)
    ensures Equal(a, b) <==> Equal(b, a)
  {
  }

  /** Tolerance equality is not transitive: points 0.6 apart chain to points 1.2 apart. */
  lemma EqualNotTransitive()
    ensures exists a, b, c :: Equal(a, b) && Equal(b, c) && !Equal(a, c)
  {
    var a := Some(GeographicCoordinate(0.0, 0.0));
    var b := Some(GeographicCoordinate(0.0, 0.6));
    var c := Some(GeographicCoordinate(0.0, 1.2));
    assert Equal(a, b) && Equal(b, c) && !Equal(a, c);
  }

  /** != holds when exactly one side is null or some axis differs by at least the tolerance. */
  lemma NotEqualIff(a: Option<GeographicCoordinate>, b: Option<GeographicCoordinate>)
    ensures NotEqual(a, b) <==>
            (a.None? != b.None?) ||
            (a.Some? && b.Some? &&
             (Distance(a.value.latitude, b.value.latitude) >= 1.0 ||
              Distance(a.value.longitude, b.value.longitude) >= 1.0))
  {
  }

  /** Equals is false for null and for other types, and agrees with == on coordinates. */
  lemma EqualsAgreesWithEqual(self: GeographicCoordinate, obj: Object)
    ensures Equals(self, obj) <==> obj.CoordinateObject? && Equal(Some(self), Some(obj.coordinate))
  {
  }

  // ---------------------------------------------------------------------
  // ParseCoordinates
  // ---------------------------------------------------------------------

  /**
   * System.Device.Location.GeoCoordinate, which ParseCoordinates builds
   * (latitude first). Its equality compares both axes exactly.
   */
  datatype GeoCoordinate = GeoCoordinate(latitude: real, longitude: real)

  /** The ranges the GeoCoordinate constructor accepts; outside them it throws ArgumentOutOfRangeException. */
  predicate InRange(latitude: real, longitude: real) {
    -90.0 <= latitude <= 90.0 && -180.0 <= longitude <= 180.0
  }

  /** The exceptions ParseCoordinates may throw. */
  datatype ParseError =
    | MissingLatitude                               // lines[i + 1] is past the end (IndexOutOfRangeException)
    | NotANumber(token: string)                     // double.Parse rejects the token (FormatException)
    | OutOfRange(latitude: real, longitude: real)   // the GeoCoordinate constructor rejects the values

  /** The characters the coordinate text is split on. */
  const Splitters: set<char> := {'\n', ' ', '\t', ','}

  /** The pieces ParseCoordinates walks: the trimmed text split on the splitters, empty pieces kept. */
  function Tokens(text: string): (lines: seq<string>)
    ensures |lines| > 0
  {
    Text.Split(Text.Trim(text), Splitters)
  }

  /** A token that trims to the empty string. */
  predicate IsBlank(token: string) {
    |Text.Trim(token)| == 0
  }

  /**
   * new GeoCoordinate(double.Parse(tokenLatitude), double.Parse(tokenLongitude)):
   * the latitude token is read first, and the constructor checks the ranges.
   */
  function ReadPoint(parse: string -> Option<real>, tokenLongitude: string, tokenLatitude: string)
    : (r: Result<GeoCoordinate, ParseError>)
    ensures parse(tokenLatitude).None? ==> r == Err(NotANumber(tokenLatitude))
    ensures r.Ok? <==> (parse(tokenLatitude).Some? && parse(tokenLongitude).Some? &&
                        InRange(parse(tokenLatitude).value, parse(tokenLongitude).value))
    ensures r.Ok? ==> r.value.latitude == parse(tokenLatitude).value &&
                      r.value.longitude == parse(tokenLongitude).value
  {
    match parse(tokenLatitude)
    case None => Err(NotANumber(tokenLatitude))
    case Some(latitude) =>
      match parse(tokenLongitude)
      case None => Err(NotANumber(tokenLongitude))
      case Some(longitude) =>
        if InRange(latitude, longitude) then Ok(GeoCoordinate(latitude, longitude))
        else Err(OutOfRange(latitude, longitude))
  }

  /**
   * The points of a first run of pieces followed by those of the rest; an
   * exception in the first run is the outcome, as the loop stops there.
   */
  function Then(first: Result<seq<GeoCoordinate>, ParseError>, rest: Result<seq<GeoCoordinate>, ParseError>)
    : (r: Result<seq<GeoCoordinate>, ParseError>)
    ensures first.Err? ==> r == first
    ensures first.Ok? && rest.Err? ==> r == rest
    ensures first.Ok? && rest.Ok? ==> r == Ok(first.value + rest.value)
  {
    match first
    case Err(e) => Err(e)
    case Ok(points) =>
      match rest
      case Err(e) => Err(e)
      case Ok(more) => Ok(points + more)
  }

  lemma ThenAssociative(x: Result<seq<GeoCoordinate>, ParseError>, y: Result<seq<GeoCoordinate>, ParseError>,
                        z: Result<seq<GeoCoordinate>, ParseError>)
    ensures Then(Then(x, y), z) == Then(x, Then(y, z))
  {
    if x.Ok? && y.Ok? && z.Ok? {
      assert (x.value + y.value) + z.value == x.value + (y.value + z.value);
    }
  }

  /** No points contribute nothing, on either side. */
  lemma ThenUnit(x: Result<seq<GeoCoordinate>, ParseError>)
    ensures Then(Ok([]), x) == x && Then(x, Ok([])) == x
  {
    if x.Ok? {
      assert [] + x.value == x.value && x.value + [] == x.value;
    }
  }

  /**
   * One stride of the loop, on the pieces at i (longitude) and i + 1
   * (latitude): a blank half drops the pair, otherwise it reads as one point.
   */
  function Stride(parse: string -> Option<real>, lon: string, lat: string)
    : (r: Result<seq<GeoCoordinate>, ParseError>)
    ensures r.Ok? ==> |r.value| <= 1
    ensures IsBlank(lon) || IsBlank(lat) ==> r == Ok([])
    ensures !IsBlank(lon) && !IsBlank(lat) ==>
              match ReadPoint(parse, Text.Trim(lon), Text.Trim(lat))
              case Err(e) => r == Err(e)
              case Ok(p) => r == Ok([p])
  {
    if IsBlank(lon) || IsBlank(lat) then Ok([])
    else
      match ReadPoint(parse, Text.Trim(lon), Text.Trim(lat))
      case Err(e) => Err(e)
      case Ok(p) => Ok([p])
  }

  /**
   * What the loop of ParseCoordinates computes from the pieces: it takes
   * them two at a time (longitude, then latitude), drops a pair when either
   * half is blank without re-aligning, and fails on a non-blank last piece
   * of odd index or on a pair that does not read as a point. Every point
   * uses up two pieces.
   */
  function Pairs(parse: string -> Option<real>, lines: seq<string>)
    : (r: Result<seq<GeoCoordinate>, ParseError>)
    ensures r.Ok? ==> 2 * |r.value| <= |lines|
    decreases |lines|
  {
    if |lines| == 0 then Ok([])
    else if |lines| == 1 then (if IsBlank(lines[0]) then Ok([]) else Err(MissingLatitude))
    else Then(Stride(parse, lines[0], lines[1]), Pairs(parse, lines[2..]))
  }

  /** The pieces from index i on; past the end there are none. */
  function From(lines: seq<string>, i: nat): seq<string> {
    if i <= |lines| then lines[i..] else []
  }

  /** Pairing from index i on: the stride at i, then the pieces from i + 2 on. */
  lemma PairsFrom(parse: string -> Option<real>, lines: seq<string>, i: nat)
    requires i < |lines|
    ensures i + 1 == |lines| ==>
              Pairs(parse, From(lines, i)) == if IsBlank(lines[i]) then Ok([]) else Err(MissingLatitude)
    ensures i + 1 < |lines| ==>
              Pairs(parse, From(lines, i)) == Then(Stride(parse, lines[i], lines[i + 1]), Pairs(parse, From(lines, i + 2)))
  {
    var rest := lines[i..];
    assert rest[0] == lines[i];
    if i + 1 < |lines| {
      assert rest[1] == lines[i + 1] && rest[2..] == From(lines, i + 2);
    }
  }

  /** ParseCoordinates, with the coordinates node given by its inner text. */
  method ParseCoordinates(parse: string -> Option<real>, text: string)
    returns (r: Result<seq<GeoCoordinate>, ParseError>)
    ensures r == Pairs(parse, Tokens(text))
  {
    var coordlist := Text.Trim(text);
    var lines := Text.Split(coordlist, Splitters);
    var coordinates: seq<GeoCoordinate> := [];
    var i: nat := 0;
    assert From(lines, 0) == lines;
    ThenUnit(Pairs(parse, lines));
    while i < |lines|
      invariant i <= |lines| + 1
      invariant Pairs(parse, lines) == Then(Ok(coordinates), Pairs(parse, From(lines, i)))
      decreases |lines| + 1 - i
    {
      PairsFrom(parse, lines, i);
      ThenUnit(Pairs(parse, From(lines, i + 2)));
      var tokenLongitude := Text.Trim(lines[i]);
      if |tokenLongitude| == 0 {
        i := i + 2;
        continue;
      }
      if i + 1 >= |lines| {
        return Err(MissingLatitude);
      }
      var tokenLatitude := Text.Trim(lines[i + 1]);
      if |tokenLatitude| == 0 {
        i := i + 2;
        continue;
      }
      var latitude := parse(tokenLatitude);
      if latitude.None? {
        return Err(NotANumber(tokenLatitude));
      }
      var longitude := parse(tokenLongitude);
      if longitude.None? {
        return Err(NotANumber(tokenLongitude));
      }
      if !InRange(latitude.value, longitude.value) {
        return Err(OutOfRange(latitude.value, longitude.value));
      }
      var point := GeoCoordinate(latitude.value, longitude.value);
      ThenAssociative(Ok(coordinates), Ok([point]), Pairs(parse, From(lines, i + 2)));
      coordinates := coordinates + [point];
      i := i + 2;
    }
    assert From(lines, i) == [];
    ThenUnit(Ok(coordinates));
    return Ok(coordinates);
  }

  /**
   * Pairing works stride by stride: the pieces split at an even index pair
   * up independently, points of the first part coming first.
   */
  lemma {:induction false} PairsConcat(parse: string -> Option<real>, a: seq<string>, b: seq<string>)
    requires |a| % 2 == 0
    ensures Pairs(parse, a + b) == Then(Pairs(parse, a), Pairs(parse, b))
    decreases |a|
  {
    if |a| == 0 {
      assert a + b == b;
      match Pairs(parse, b)
      case Err(_) =>
      case Ok(q) => assert [] + q == q;
    } else {
      var ab := a + b;
      assert ab[0] == a[0] && ab[1] == a[1] && ab[2..] == a[2..] + b;
      PairsConcat(parse, a[2..], b);
      ThenAssociative(Stride(parse, a[0], a[1]), Pairs(parse, a[2..]), Pairs(parse, b));
    }
  }

  /** A list of exactly one stride pairs as that stride. */
  lemma PairsOfStride(parse: string -> Option<real>, lon: string, lat: string)
    ensures Pairs(parse, [lon, lat]) == Stride(parse, lon, lat)
  {
    var lines := [lon, lat];
    assert lines[0] == lon && lines[1] == lat && lines[2..] == [];
    var s := Stride(parse, lon, lat);
    if s.Ok? {
      assert s.value + [] == s.value;
    }
  }

  /** A non-blank piece at the last index of an odd-length list makes the parse fail. */
  lemma {:induction false} PairsOddTailFails(parse: string -> Option<real>, lines: seq<string>)
    requires |lines| % 2 == 1 && !IsBlank(lines[|lines| - 1])
    ensures Pairs(parse, lines).Err?
    decreases |lines|
  {
    if |lines| > 1 {
      var rest := lines[2..];
      assert rest[|rest| - 1] == lines[|lines| - 1];
      PairsOddTailFails(parse, rest);
    }
  }

  /** n empty pieces. */
  function Blanks(n: nat): (pieces: seq<string>)
    ensures |pieces| == n
  {
    if n == 0 then [] else [""] + Blanks(n - 1)
  }

  /** A run of n separator characters after a piece leaves n - 1 empty pieces. */
  lemma {:induction false} SplitSeparatorRun(p: string, run: string, rest: string)
    requires Text.NoneIn(p, Splitters) && |run| > 0
    requires forall k :: 0 <= k < |run| ==> run[k] in Splitters
    ensures Text.Split(p + run + rest, Splitters) == [p] + Blanks(|run| - 1) + Text.Split(rest, Splitters)
    decreases |run|
  {
    assert p + run + rest == p + [run[0]] + (run[1..] + rest);
    Text.SplitAfterPiece(p, run[0], run[1..] + rest, Splitters);
    if |run| == 1 {
      assert run[1..] + rest == rest && Blanks(0) == [];
    } else {
      SplitSeparatorRun("", run[1..], rest);
      assert "" + run[1..] + rest == run[1..] + rest;
      assert [""] + Blanks(|run| - 2) == Blanks(|run| - 1);
    }
  }

  lemma SameParity(n: nat)
    requires n >= 2
    ensures n % 2 == (n - 2) % 2
  {
  }

  /** Empty pieces before a stride: an even number is skipped, an odd number swallows the longitude. */
  lemma {:induction false} PairsAfterBlanks(parse: string -> Option<real>, n: nat, c: string, d: string)
    requires !IsBlank(c) && !IsBlank(d)
    ensures Pairs(parse, Blanks(n) + [c, d]) == if n % 2 == 0 then Stride(parse, c, d) else Err(MissingLatitude)
    decreases n
  {
    assert IsBlank("") by {
      Text.TrimWithUnchanged("", Text.IsWhiteSpace);
    }
    var lines := Blanks(n) + [c, d];
    if n == 0 {
      assert lines == [c, d];
      PairsOfStride(parse, c, d);
    } else if n == 1 {
      assert lines == ["", c, d];
      assert Pairs(parse, lines) == Then(Stride(parse, "", c), Pairs(parse, [d]));
      assert Pairs(parse, [d]) == Err(MissingLatitude);
      assert Pairs(parse, lines) == Err(MissingLatitude);
    } else {
      assert Blanks(n) == ["", ""] + Blanks(n - 2);
      assert lines[0] == "" && lines[1] == "" && lines[2..] == Blanks(n - 2) + [c, d];
      assert Pairs(parse, lines) == Then(Stride(parse, "", ""), Pairs(parse, lines[2..]));
      PairsAfterBlanks(parse, n - 2, c, d);
      ThenUnit(Pairs(parse, lines[2..]));
      SameParity(n);
      assert Pairs(parse, lines) == Pairs(parse, lines[2..]);
    }
  }

  /**
   * The pairing is not re-aligned: between two points written as
   * "lon,lat", a run of n separator characters (a line feed and an
   * indentation, say) leaves n - 1 empty pieces. When n - 1 is even both
   * points are read; when it is odd the second point is lost and the parse
   * fails for want of a latitude.
   */
  lemma SeparatorRunBetweenPoints(parse: string -> Option<real>, a: string, b: string, run: string,
                                  c: string, d: string)
    requires IsNumberToken(a) && IsNumberToken(b) && IsNumberToken(c) && IsNumberToken(d)
    requires |run| > 0 && forall k :: 0 <= k < |run| ==> run[k] in Splitters
    ensures var text := a + "," + b + run + c + "," + d;
            Pairs(parse, Tokens(text)) ==
              if (|run| - 1) % 2 == 0 then Then(Stride(parse, a, b), Stride(parse, c, d))
              else Then(Stride(parse, a, b), Err(MissingLatitude))
  {
    TokensAroundRun(a, b, run, c, d);
    NumberTokenFacts(c);
    NumberTokenFacts(d);
    PairsAroundBlanks(parse, a, b, |run| - 1, c, d);
  }

  /** Two strides with n empty pieces between them. */
  lemma PairsAroundBlanks(parse: string -> Option<real>, a: string, b: string, n: nat, c: string, d: string)
    requires !IsBlank(c) && !IsBlank(d)
    ensures Pairs(parse, [a, b] + (Blanks(n) + [c, d])) ==
              if n % 2 == 0 then Then(Stride(parse, a, b), Stride(parse, c, d))
              else Then(Stride(parse, a, b), Err(MissingLatitude))
  {
    PairsConcat(parse, [a, b], Blanks(n) + [c, d]);
    PairsOfStride(parse, a, b);
    PairsAfterBlanks(parse, n, c, d);
  }

  lemma Regroup(a: string, b: string, run: string, c: string, d: string)
    ensures a + "," + b + run + c + "," + d == a + [','] + (b + run + (c + [','] + d))
  {
  }

  /** The pieces of two points written around a run of separators. */
  lemma TokensAroundRun(a: string, b: string, run: string, c: string, d: string)
    requires IsNumberToken(a) && IsNumberToken(b) && IsNumberToken(c) && IsNumberToken(d)
    requires |run| > 0 && forall k :: 0 <= k < |run| ==> run[k] in Splitters
    ensures Tokens(a + "," + b + run + c + "," + d) == [a, b] + (Blanks(|run| - 1) + [c, d])
  {
    var text := a + "," + b + run + c + "," + d;
    TrimAroundPoints(text, a, d);
    SplitAroundRun(a, b, run, c, d);
    ConsBlanks(a, b, Blanks(|run| - 1), [c, d]);
  }

  /** A text that starts with one number token and ends with another is its own trim. */
  lemma TrimAroundPoints(text: string, a: string, d: string)
    requires IsNumberToken(a) && IsNumberToken(d)
    requires |text| >= |a| + |d| && text[..|a|] == a && text[|text| - |d|..] == d
    ensures Text.Trim(text) == text
  {
    assert text[0] == a[0] && text[|text| - 1] == d[|d| - 1];
    Text.TrimWithUnchanged(text, Text.IsWhiteSpace);
  }

  /** The split of two points around a run of separators, without the trim. */
  lemma SplitAroundRun(a: string, b: string, run: string, c: string, d: string)
    requires IsNumberToken(a) && IsNumberToken(b) && IsNumberToken(c) && IsNumberToken(d)
    requires |run| > 0 && forall k :: 0 <= k < |run| ==> run[k] in Splitters
    ensures Text.Split(a + "," + b + run + c + "," + d, Splitters) == [a] + ([b] + Blanks(|run| - 1) + [c, d])
  {
    SplitRunThenPoint(b, run, c, d);
    Regroup(a, b, run, c, d);
    NumberTokenFacts(a);
    Text.SplitAfterPiece(a, ',', b + run + (c + [','] + d), Splitters);
  }

  lemma SplitRunThenPoint(b: string, run: string, c: string, d: string)
    requires IsNumberToken(b) && IsNumberToken(c) && IsNumberToken(d)
    requires |run| > 0 && forall k :: 0 <= k < |run| ==> run[k] in Splitters
    ensures Text.Split(b + run + (c + [','] + d), Splitters) == [b] + Blanks(|run| - 1) + [c, d]
  {
    NumberTokenFacts(c);
    NumberTokenFacts(d);
    Text.SplitNoSeparators(d, Splitters);
    Text.SplitAfterPiece(c, ',', d, Splitters);
    NumberTokenFacts(b);
    SplitSeparatorRun(b, run, c + [','] + d);
  }

  lemma ConsBlanks(a: string, b: string, blanks: seq<string>, last: seq<string>)
    ensures [a] + ([b] + blanks + last) == [a, b] + (blanks + last)
  {
  }

  /** A number token is its own trim, is not blank and holds no splitter. */
  lemma NumberTokenFacts(t: string)
    requires IsNumberToken(t)
    ensures Text.Trim(t) == t && !IsBlank(t) && Text.NoneIn(t, Splitters)
  {
    assert Text.NoneIn(t, Splitters) by {
      forall k | 0 <= k < |t| ensures t[k] !in Splitters {
        assert !Text.IsWhiteSpace(t[k]) && t[k] != ',';
      }
    }
    assert Text.Trim(t) == t by {
      assert !Text.IsWhiteSpace(t[0]) && !Text.IsWhiteSpace(t[|t| - 1]);
      Text.TrimWithUnchanged(t, Text.IsWhiteSpace);
    }
  }

  // ---------------------------------------------------------------------
  // ConvertGeoCoordinatesToPolygon
  // ---------------------------------------------------------------------

  /** The exceptions ConvertGeoCoordinatesToPolygon may throw. */
  datatype PolygonError =
    | EmptyRing                 // First() on an empty list (InvalidOperationException)
    | NotClosed                 // "First and last point do not match. This is not a valid polygon"
    | RejectedText(wkt: string) // DbGeography.PolygonFromText rejects the text

  /** One vertex as written into the well-known text: longitude, a space, latitude. */
  function PointText(format: real -> string, c: GeoCoordinate): string {
    format(c.longitude) + " " + format(c.latitude)
  }

  function PointTexts(format: real -> string, cs: seq<GeoCoordinate>): (texts: seq<string>)
    ensures |texts| == |cs|
    ensures forall k :: 0 <= k < |cs| ==> texts[k] == PointText(format, cs[k])
    decreases |cs|
  {
    if |cs| == 0 then [] else [PointText(format, cs[0])] + PointTexts(format, cs[1..])
  }

  /** The vertices in input order, separated by commas. */
  function CoordinateListText(format: real -> string, cs: seq<GeoCoordinate>): string {
    Text.Join(PointTexts(format, cs), ',')
  }

  /** The well-known text of the ring: POLYGON(( vertices )). */
  function PolygonText(format: real -> string, cs: seq<GeoCoordinate>): string {
    "POLYGON((" + CoordinateListText(format, cs) + "))"
  }

  /**
   * What ConvertGeoCoordinatesToPolygon returns: it refuses an empty ring
   * and a ring whose first and last points are not exactly equal, and
   * otherwise hands the ring's text to the geometry engine.
   */
  function RingPolygon<G>(format: real -> string, polygonFromText: string -> Option<G>, cs: seq<GeoCoordinate>)
    : (r: Result<G, PolygonError>)
    ensures |cs| == 0 ==> r == Err(EmptyRing)
    ensures |cs| > 0 && cs[0] != cs[|cs| - 1] ==> r == Err(NotClosed)
    ensures r.Ok? ==> |cs| > 0 && cs[0] == cs[|cs| - 1] &&
                      polygonFromText(PolygonText(format, cs)) == Some(r.value)
    ensures |cs| > 0 && cs[0] == cs[|cs| - 1] ==> (r.Ok? <==> polygonFromText(PolygonText(format, cs)).Some?)
    ensures |cs| > 0 && cs[0] == cs[|cs| - 1] && r.Err? ==> r.error == RejectedText(PolygonText(format, cs))
  {
    if |cs| == 0 then Err(EmptyRing)
    else if cs[0] != cs[|cs| - 1] then Err(NotClosed)
    else
      match polygonFromText(PolygonText(format, cs))
      case None => Err(RejectedText(PolygonText(format, cs)))
      case Some(g) => Ok(g)
  }

  /** The vertex list of the first k + 1 vertices: the first k, a comma unless k is 0, and vertex k. */
  lemma ListTextGrows(format: real -> string, cs: seq<GeoCoordinate>, k: nat)
    requires k < |cs|
    ensures CoordinateListText(format, cs[..k + 1]) ==
            if k == 0 then PointText(format, cs[0])
            else CoordinateListText(format, cs[..k]) + "," + PointText(format, cs[k])
  {
    assert PointTexts(format, cs[..k + 1]) == PointTexts(format, cs[..k]) + [PointText(format, cs[k])];
    if k > 0 {
      Text.JoinAppend(PointTexts(format, cs[..k]), PointText(format, cs[k]), ',');
    }
  }

  /** Appending one vertex, with or without its comma, to the text built so far. */
  lemma AppendVertex(sb: string, head: string, list: string, comma: string, lon: string, lat: string)
    requires sb == head + list
    ensures sb + comma + lon + " " + lat == head + (list + comma + (lon + " " + lat))
  {
  }

  /** ConvertGeoCoordinatesToPolygon: builds the text in a StringBuilder, one vertex per iteration. */
  method ConvertGeoCoordinatesToPolygon<G>(format: real -> string, polygonFromText: string -> Option<G>,
                                           coordinates: seq<GeoCoordinate>)
    returns (r: Result<G, PolygonError>)
    ensures r == RingPolygon(format, polygonFromText, coordinates)
  {
    var coordinateList := coordinates;
    if |coordinateList| == 0 {
      return Err(EmptyRing);
    }
    if coordinateList[0] != coordinateList[|coordinateList| - 1] {
      return Err(NotClosed);
    }
    var count := 0;
    var sb := "POLYGON((";
    for k := 0 to |coordinateList|
      invariant count == k
      invariant sb == "POLYGON((" + CoordinateListText(format, coordinateList[..k])
    {
      var coordinate := coordinateList[k];
      ListTextGrows(format, coordinateList, k);
      ghost var before := sb;
      if count == 0 {
        sb := sb + format(coordinate.longitude) + " " + format(coordinate.latitude);
      } else {
        sb := sb + "," + format(coordinate.longitude) + " " + format(coordinate.latitude);
      }
      AppendVertex(before, "POLYGON((", CoordinateListText(format, coordinateList[..k]),
                   if count == 0 then "" else ",", format(coordinate.longitude), format(coordinate.latitude));
      count := count + 1;
    }
    assert coordinateList[..|coordinateList|] == coordinateList;
    sb := sb + "))";
    var polygon := polygonFromText(sb);
    if polygon.None? {
      return Err(RejectedText(sb));
    }
    return Ok(polygon.value);
  }

  /** A formatted number that survives the trip through the text: non-empty, no white space, no comma. */
  predicate IsNumberToken(t: string) {
    |t| > 0 && forall k :: 0 <= k < |t| ==> !Text.IsWhiteSpace(t[k]) && t[k] != ','
  }

  /** A vertex whose formatted axes read back as the same values. */
  predicate Readable(parse: string -> Option<real>, format: real -> string, c: GeoCoordinate) {
    InRange(c.latitude, c.longitude)
    && IsNumberToken(format(c.latitude)) && IsNumberToken(format(c.longitude))
    && parse(format(c.latitude)) == Some(c.latitude)
    && parse(format(c.longitude)) == Some(c.longitude)
  }

  /** When the vertices' texts hold no comma, the vertex list has exactly one comma fewer than vertices. */
  lemma CommaCount(format: real -> string, cs: seq<GeoCoordinate>)
    requires |cs| > 0
    requires forall k :: 0 <= k < |cs| ==> Text.NoneIn(PointText(format, cs[k]), {','})
    ensures Text.Occurrences(CoordinateListText(format, cs), {','}) == |cs| - 1
  {
    Text.SplitJoin(PointTexts(format, cs), ',', {','});
  }

  /** The two tokens of every vertex, longitude first, in order. */
  function AxisTokens(format: real -> string, cs: seq<GeoCoordinate>): seq<string>
    decreases |cs|
  {
    if |cs| == 0 then [] else [format(cs[0].longitude), format(cs[0].latitude)] + AxisTokens(format, cs[1..])
  }

  /** The vertex list is the first vertex, then a comma and the list of the others when there are any. */
  lemma ListTextShape(format: real -> string, cs: seq<GeoCoordinate>)
    requires |cs| > 0
    ensures CoordinateListText(format, cs) ==
              if |cs| == 1 then PointText(format, cs[0])
              else PointText(format, cs[0]) + [','] + CoordinateListText(format, cs[1..])
  {
    assert PointTexts(format, cs)[1..] == PointTexts(format, cs[1..]);
  }

  /** The split of one readable vertex followed by some rest. */
  lemma SplitVertex(lon: string, lat: string, c: char, rest: string)
    requires IsNumberToken(lon) && IsNumberToken(lat) && c in Splitters
    ensures Text.Split(lon + " " + lat + [c] + rest, Splitters) == [lon, lat] + Text.Split(rest, Splitters)
  {
    NumberTokenFacts(lon);
    NumberTokenFacts(lat);
    assert lon + " " + lat + [c] + rest == lon + [' '] + (lat + [c] + rest);
    Text.SplitAfterPiece(lon, ' ', lat + [c] + rest, Splitters);
    Text.SplitAfterPiece(lat, c, rest, Splitters);
  }

  /** The split of one readable vertex on its own. */
  lemma SplitLastVertex(lon: string, lat: string)
    requires IsNumberToken(lon) && IsNumberToken(lat)
    ensures Text.Split(lon + " " + lat, Splitters) == [lon, lat]
  {
    NumberTokenFacts(lon);
    NumberTokenFacts(lat);
    assert lon + " " + lat == lon + [' '] + lat;
    Text.SplitAfterPiece(lon, ' ', lat, Splitters);
    Text.SplitNoSeparators(lat, Splitters);
  }

  lemma {:induction false} ListTextSplitsIntoAxisTokens(parse: string -> Option<real>, format: real -> string,
                                                        cs: seq<GeoCoordinate>)
    requires |cs| > 0
    requires forall k :: 0 <= k < |cs| ==> Readable(parse, format, cs[k])
    ensures Text.Split(CoordinateListText(format, cs), Splitters) == AxisTokens(format, cs)
    ensures var s := CoordinateListText(format, cs);
            |s| > 0 && !Text.IsWhiteSpace(s[0]) && !Text.IsWhiteSpace(s[|s| - 1])
    decreases |cs|
  {
    var c := cs[0];
    var lon, lat := format(c.longitude), format(c.latitude);
    assert Readable(parse, format, c);
    ListTextShape(format, cs);
    var s := CoordinateListText(format, cs);
    if |cs| == 1 {
      SplitLastVertex(lon, lat);
      assert AxisTokens(format, cs) == [lon, lat];
      assert s[0] == lon[0] && s[|s| - 1] == lat[|lat| - 1];
    } else {
      var rest := CoordinateListText(format, cs[1..]);
      assert forall k :: 0 <= k < |cs| - 1 ==> cs[1..][k] == cs[k + 1];
      ListTextSplitsIntoAxisTokens(parse, format, cs[1..]);
      SplitVertex(lon, lat, ',', rest);
      assert s[0] == lon[0] && s[|s| - 1] == rest[|rest| - 1];
    }
  }

  lemma {:induction false} PairsOfAxisTokens(parse: string -> Option<real>, format: real -> string,
                                             cs: seq<GeoCoordinate>)
    requires forall k :: 0 <= k < |cs| ==> Readable(parse, format, cs[k])
    ensures Pairs(parse, AxisTokens(format, cs)) == Ok(cs)
    decreases |cs|
  {
    if |cs| > 0 {
      var c := cs[0];
      assert Readable(parse, format, c);
      var lon, lat := format(c.longitude), format(c.latitude);
      Text.TrimWithUnchanged(lon, Text.IsWhiteSpace);
      Text.TrimWithUnchanged(lat, Text.IsWhiteSpace);
      var tokens := AxisTokens(format, cs);
      assert tokens[0] == lon && tokens[1] == lat && tokens[2..] == AxisTokens(format, cs[1..]);
      PairsOfAxisTokens(parse, format, cs[1..]);
      assert [c] + cs[1..] == cs;
    }
  }

  /**
   * Round trip: the vertex list ConvertGeoCoordinatesToPolygon writes,
   * tokenized and paired by ParseCoordinates, gives back the ring whenever
   * the number format reads back.
   */
  lemma CoordinateListReadsBack(parse: string -> Option<real>, format: real -> string, cs: seq<GeoCoordinate>)
    requires forall k :: 0 <= k < |cs| ==> Readable(parse, format, cs[k])
    ensures Pairs(parse, Tokens(CoordinateListText(format, cs))) == Ok(cs)
  {
    var s := CoordinateListText(format, cs);
    if |cs| == 0 {
      assert s == "";
      Text.TrimWithUnchanged(s, Text.IsWhiteSpace);
      assert Tokens(s) == [""];
      Text.TrimWithUnchanged("", Text.IsWhiteSpace);
    } else {
      ListTextSplitsIntoAxisTokens(parse, format, cs);
      Text.TrimWithUnchanged(s, Text.IsWhiteSpace);
      PairsOfAxisTokens(parse, format, cs);
    }
  }
}
