/**
 * Program.cs: for every Placemark of the KML document, the outer rings of
 * its Polygon and MultiGeometry/Polygon nodes are read, turned into
 * geometries and merged with Union into the country border; the border is
 * saved in the database and, when the country is in the comma-delimited
 * list, written as one row of the output file.
 *
 * The geometry library (DbGeography), the number format and the database
 * are the fields of an Engine, a record of functions; G is the type of the
 * engine's geometries. The KML document is given as its placemarks, in
 * document order, with each polygon node reduced to the inner text of its
 * outer-ring coordinates node (None when the node has none).
 */
module Program {
  import opened Wrappers
  import Text
  import Int32Text
  import Coordinates
  import FileReader

  /**
   * The collaborators Main calls into: double.Parse and double.ToString,
   * DbGeography.PolygonFromText and Union (None for an exception), AsText
   * and AsGml (taken never to throw), and SaveCountryInDatabase (false for
   * an exception).
   */
  datatype Engine<!G> = Engine(
    parseDouble: string -> Option<real>,
    formatDouble: real -> string,
    polygonFromText: string -> Option<G>,
    union: (G, G) -> Option<G>,
    asText: G -> string,
    asGml: G -> string,
    saveInDatabase: (string, string, string) -> bool)

  /**
   * One Placemark: the inner texts of its ExtendedData/SchemaData/SimpleData
   * nodes, and its Polygon and MultiGeometry/Polygon nodes.
   */
  datatype Placemark = Placemark(simpleData: seq<string>, polygons: seq<Option<string>>,
                                 multiPolygons: seq<Option<string>>)

  /** The exceptions that reach the outer catch of Main and end the run. */
  datatype Failure =
    | ParseFailed(parseError: Coordinates.ParseError)       // thrown by ParseCoordinates
    | ConvertFailed(polygonError: Coordinates.PolygonError) // thrown by ConvertGeoCoordinatesToPolygon
    | MissingSimpleData                                     // simpleDataNodes[2] or [1] is null
    | ReadFailed(rowFailure: FileReader.RowFailure)         // thrown by GetCountries

  /** Why a country is not added (the catch around the two saves). */
  datatype NotAdded =
    | NoBorder          // geoBorder is null, so geoBorder.AsText() throws
    | DatabaseRejected  // SaveCountryInDatabase throws

  /** The lines Main writes to the console, in order. */
  datatype Message =
    | ReadingCountries
    | Parsing(countryName: string)
    | UnionRejected
    | CountryNotAdded(countryCode: string, reason: NotAdded)
    | Fatal(failure: Failure)
    | Done

  /** A row inserted by uspInsertCountry. */
  datatype Record = Record(countryCode: string, countryName: string, countryBorder: string)

  // ---------------------------------------------------------------------
  // Rings and the border of one placemark
  // ---------------------------------------------------------------------

  /** ParseCoordinates followed by ConvertGeoCoordinatesToPolygon on one outer ring. */
  function RingGeometry<G>(engine: Engine<G>, text: string): (r: Result<G, Failure>)
    ensures r.Ok? <==> (Coordinates.Pairs(engine.parseDouble, Coordinates.Tokens(text)).Ok? &&
                        Coordinates.RingPolygon(engine.formatDouble, engine.polygonFromText,
                          Coordinates.Pairs(engine.parseDouble, Coordinates.Tokens(text)).value).Ok?)
    ensures r.Ok? ==> r.value == Coordinates.RingPolygon(engine.formatDouble, engine.polygonFromText,
                                   Coordinates.Pairs(engine.parseDouble, Coordinates.Tokens(text)).value).value
    ensures Coordinates.Pairs(engine.parseDouble, Coordinates.Tokens(text)).Err? ==>
              r == Err(ParseFailed(Coordinates.Pairs(engine.parseDouble, Coordinates.Tokens(text)).error))
    ensures Coordinates.Pairs(engine.parseDouble, Coordinates.Tokens(text)).Ok? && r.Err? ==>
              r == Err(ConvertFailed(Coordinates.RingPolygon(engine.formatDouble, engine.polygonFromText,
                                       Coordinates.Pairs(engine.parseDouble, Coordinates.Tokens(text)).value).error))
  {
    match Coordinates.Pairs(engine.parseDouble, Coordinates.Tokens(text))
    case Err(e) => Err(ParseFailed(e))
    case Ok(points) =>
      match Coordinates.RingPolygon(engine.formatDouble, engine.polygonFromText, points)
      case Err(e) => Err(ConvertFailed(e))
      case Ok(polygon) => Ok(polygon)
  }

  /** The two calls on one outer ring. */
  method ReadRing<G>(engine: Engine<G>, text: string) returns (r: Result<G, Failure>)
    ensures r == RingGeometry(engine, text)
  {
    var points := Coordinates.ParseCoordinates(engine.parseDouble, text);
    if points.Err? {
      return Err(ParseFailed(points.error));
    }
    var geoPolygon := Coordinates.ConvertGeoCoordinatesToPolygon(engine.formatDouble, engine.polygonFromText,
                                                                 points.value);
    if geoPolygon.Err? {
      return Err(ConvertFailed(geoPolygon.error));
    }
    return Ok(geoPolygon.value);
  }

  /** The state of the polygon loops: the border so far, the console so far, and the exception that ended them. */
  datatype Folded<G> = Folded(border: Option<G>, messages: seq<Message>, failure: Option<Failure>)

  /**
   * One polygon node: nothing without an outer ring; otherwise the first
   * geometry becomes the border and each later one is merged into it with
   * Union, whose exception is reported and leaves the border as it was.
   */
  function Step<G>(engine: Engine<G>, acc: Folded<G>, node: Option<string>): (r: Folded<G>)
    requires acc.failure.None?
    ensures r.messages == acc.messages || r.messages == acc.messages + [UnionRejected]
    ensures r.messages != acc.messages ==> r.border == acc.border && acc.border.Some?
    ensures acc.border.Some? ==> r.border.Some?
    ensures r.failure.Some? ==> r.border == acc.border && r.messages == acc.messages
    ensures node.None? ==> r == acc
    ensures node.Some? && RingGeometry(engine, node.value).Err? ==>
              r == acc.(failure := Some(RingGeometry(engine, node.value).error))
    ensures node.Some? && RingGeometry(engine, node.value).Ok? && acc.border.None? ==>
              r == acc.(border := Some(RingGeometry(engine, node.value).value))
    ensures node.Some? && RingGeometry(engine, node.value).Ok? && acc.border.Some? ==>
              match engine.union(acc.border.value, RingGeometry(engine, node.value).value)
              case None => r == acc.(messages := acc.messages + [UnionRejected])
              case Some(merged) => r == acc.(border := Some(merged))
  {
    if node.None? then acc
    else
      match RingGeometry(engine, node.value)
      case Err(f) => acc.(failure := Some(f))
      case Ok(geoPolygon) =>
        if acc.border.None? then acc.(border := Some(geoPolygon))
        else
          match engine.union(acc.border.value, geoPolygon)
          case None => acc.(messages := acc.messages + [UnionRejected])
          case Some(merged) => acc.(border := Some(merged))
  }

  /** The polygon loop over a list of nodes; an exception stops it. */
  function FoldRings<G>(engine: Engine<G>, acc: Folded<G>, nodes: seq<Option<string>>): (r: Folded<G>)
    ensures acc.failure.Some? ==> r == acc
    decreases |nodes|
  {
    if |nodes| == 0 || acc.failure.Some? then acc
    else FoldRings(engine, Step(engine, acc, nodes[0]), nodes[1..])
  }

  /** The loop over the polygon nodes of one kind, on its own variables geoBorder and the console. */
  method FoldPolygons<G>(engine: Engine<G>, geoBorder: Option<G>, console: seq<Message>, polygonNodes: seq<Option<string>>)
    returns (border: Option<G>, messages: seq<Message>, failure: Option<Failure>)
    ensures Folded(border, messages, failure) == FoldRings(engine, Folded(geoBorder, console, None), polygonNodes)
  {
    border, messages, failure := geoBorder, console, None;
    var i := 0;
    while i < |polygonNodes|
      invariant 0 <= i <= |polygonNodes|
      invariant FoldRings(engine, Folded(geoBorder, console, None), polygonNodes)
                == FoldRings(engine, Folded(border, messages, None), polygonNodes[i..])
      decreases |polygonNodes| - i
    {
      assert polygonNodes[i..][0] == polygonNodes[i] && polygonNodes[i..][1..] == polygonNodes[i + 1..];
      var outerRingNode := polygonNodes[i];
      if outerRingNode.Some? {
        var geoPolygon := ReadRing(engine, outerRingNode.value);
        if geoPolygon.Err? {
          failure := Some(geoPolygon.error);
          return;
        }
        if border.None? {
          border := Some(geoPolygon.value);
        } else {
          var merged := engine.union(border.value, geoPolygon.value);
          if merged.None? {
            messages := messages + [UnionRejected];
          } else {
            border := merged;
          }
        }
      }
      i := i + 1;
    }
  }

  /** The polygon loop over two lists of nodes is the loop over the one after the other. */
  lemma {:induction false} FoldRingsAppend<G>(engine: Engine<G>, acc: Folded<G>, a: seq<Option<string>>,
                                              b: seq<Option<string>>)
    ensures FoldRings(engine, acc, a + b) == FoldRings(engine, FoldRings(engine, acc, a), b)
    decreases |a|
  {
    if |a| > 0 && acc.failure.None? {
      assert (a + b)[0] == a[0] && (a + b)[1..] == a[1..] + b;
      FoldRingsAppend(engine, Step(engine, acc, a[0]), a[1..], b);
    } else if |a| == 0 {
      assert a + b == b;
    }
  }

  /**
   * The console lines of the polygon loop are the earlier ones followed by
   * one Union report per rejected merge, and an exception leaves the
   * border that was there.
   */
  lemma {:induction false} FoldRingsReportsOnlyUnions<G>(engine: Engine<G>, acc: Folded<G>, nodes: seq<Option<string>>)
    ensures var r := FoldRings(engine, acc, nodes);
            |acc.messages| <= |r.messages| && r.messages[..|acc.messages|] == acc.messages
            && forall k :: |acc.messages| <= k < |r.messages| ==> r.messages[k] == UnionRejected
    ensures acc.border.Some? ==> FoldRings(engine, acc, nodes).border.Some?
    decreases |nodes|
  {
    if |nodes| > 0 && acc.failure.None? {
      var next := Step(engine, acc, nodes[0]);
      FoldRingsReportsOnlyUnions(engine, next, nodes[1..]);
      var r := FoldRings(engine, acc, nodes);
      assert r == FoldRings(engine, next, nodes[1..]);
      var m, n := |acc.messages|, |next.messages|;
      assert next.messages[..m] == acc.messages;
      assert r.messages[..m] == r.messages[..n][..m];
      forall k | m <= k < |r.messages| ensures r.messages[k] == UnionRejected {
        if k < n {
          assert r.messages[k] == r.messages[..n][k] == next.messages[k];
        }
      }
    }
  }

  /**
   * Without an exception, the border after the loop is null exactly when
   * it was null before and no node had an outer ring.
   */
  lemma {:induction false} FoldRingsBorderNull<G>(engine: Engine<G>, acc: Folded<G>, nodes: seq<Option<string>>)
    requires acc.failure.None? && FoldRings(engine, acc, nodes).failure.None?
    ensures FoldRings(engine, acc, nodes).border.None? <==>
              (acc.border.None? && forall k :: 0 <= k < |nodes| ==> nodes[k].None?)
    decreases |nodes|
  {
    if |nodes| > 0 {
      var next := Step(engine, acc, nodes[0]);
      FoldRingsBorderNull(engine, next, nodes[1..]);
      if next.border.None? {
        forall k | 1 <= k < |nodes| ensures nodes[k] == nodes[1..][k - 1] { }
      } else {
        FoldRingsReportsOnlyUnions(engine, next, nodes[1..]);
      }
    }
  }

  /** The geometries of the nodes that have an outer ring, in order, or the first exception reading them. */
  function RingsOf<G>(engine: Engine<G>, nodes: seq<Option<string>>): (r: Result<seq<G>, Failure>)
    ensures r.Ok? ==> |r.value| <= |nodes|
    decreases |nodes|
  {
    if |nodes| == 0 then Ok([])
    else if nodes[0].None? then RingsOf(engine, nodes[1..])
    else
      match RingGeometry(engine, nodes[0].value)
      case Err(f) => Err(f)
      case Ok(g) =>
        match RingsOf(engine, nodes[1..])
        case Err(f) => Err(f)
        case Ok(gs) => Ok([g] + gs)
  }

  /** Union of `first` with every geometry of `gs` in turn, or None as soon as one Union throws. */
  function UnionOf<G>(engine: Engine<G>, first: G, gs: seq<G>): Option<G>
    decreases |gs|
  {
    if |gs| == 0 then Some(first)
    else
      match engine.union(first, gs[0])
      case None => None
      case Some(merged) => UnionOf(engine, merged, gs[1..])
  }

  /** The polygon loop ends with an exception exactly when reading one of the rings throws, and with that one. */
  lemma {:induction false} FoldRingsFailure<G>(engine: Engine<G>, acc: Folded<G>, nodes: seq<Option<string>>)
    requires acc.failure.None?
    ensures FoldRings(engine, acc, nodes).failure ==
              if RingsOf(engine, nodes).Err? then Some(RingsOf(engine, nodes).error) else None
    decreases |nodes|
  {
    if |nodes| > 0 {
      var next := Step(engine, acc, nodes[0]);
      if next.failure.None? {
        FoldRingsFailure(engine, next, nodes[1..]);
      }
    }
  }

  /**
   * Starting from a border, the polygon loop reports no rejected Union
   * exactly when merging every ring into it succeeds, and the border is
   * then that union.
   */
  lemma {:induction false} FoldRingsUnionsFrom<G>(engine: Engine<G>, acc: Folded<G>, nodes: seq<Option<string>>)
    requires acc.failure.None? && acc.border.Some? && RingsOf(engine, nodes).Ok?
    ensures var r := FoldRings(engine, acc, nodes);
            var merged := UnionOf(engine, acc.border.value, RingsOf(engine, nodes).value);
            (r.messages == acc.messages <==> merged.Some?) && (merged.Some? ==> r.border == merged)
    decreases |nodes|
  {
    if |nodes| > 0 {
      var next := Step(engine, acc, nodes[0]);
      var r := FoldRings(engine, acc, nodes);
      assert r == FoldRings(engine, next, nodes[1..]);
      FoldRingsUnionsFrom(engine, next, nodes[1..]);
      if nodes[0].Some? && engine.union(acc.border.value, RingGeometry(engine, nodes[0].value).value).None? {
        FoldRingsReportsOnlyUnions(engine, next, nodes[1..]);
        assert |r.messages| > |acc.messages|;
      }
    }
  }

  /**
   * Starting without a border, the first ring becomes the border and the
   * later ones are merged into it: no rejected Union is reported exactly
   * when all those merges succeed, and then the border is their union; with
   * no ring the border stays null.
   */
  lemma {:induction false} FoldRingsUnions<G>(engine: Engine<G>, acc: Folded<G>, nodes: seq<Option<string>>)
    requires acc.failure.None? && acc.border.None? && RingsOf(engine, nodes).Ok?
    ensures var r := FoldRings(engine, acc, nodes);
            var gs := RingsOf(engine, nodes).value;
            if |gs| == 0 then r == acc
            else
              var merged := UnionOf(engine, gs[0], gs[1..]);
              (r.messages == acc.messages <==> merged.Some?) && (merged.Some? ==> r.border == merged)
    decreases |nodes|
  {
    if |nodes| > 0 {
      var next := Step(engine, acc, nodes[0]);
      assert FoldRings(engine, acc, nodes) == FoldRings(engine, next, nodes[1..]);
      if nodes[0].None? {
        FoldRingsUnions(engine, next, nodes[1..]);
      } else {
        FoldRingsUnionsFrom(engine, next, nodes[1..]);
      }
    }
  }

  /**
   * The border the polygon loops build from `border` and the geometries
   * `gs`, in order: with no border the geometry becomes the border, a
   * successful Union replaces the border, a rejected one leaves it as it
   * was and the later geometries are still merged into it.
   */
  function Merged<G>(engine: Engine<G>, border: Option<G>, gs: seq<G>): (r: Option<G>)
    ensures border.Some? || |gs| > 0 ==> r.Some?
    decreases |gs|
  {
    if |gs| == 0 then border
    else if border.None? then Merged(engine, Some(gs[0]), gs[1..])
    else
      match engine.union(border.value, gs[0])
      case None => Merged(engine, border, gs[1..])
      case Some(merged) => Merged(engine, Some(merged), gs[1..])
  }

  /** When every ring reads, the loop ends without exception and with the border Merged builds from the rings. */
  lemma {:induction false} FoldRingsMerges<G>(engine: Engine<G>, acc: Folded<G>, nodes: seq<Option<string>>)
    requires acc.failure.None? && RingsOf(engine, nodes).Ok?
    ensures FoldRings(engine, acc, nodes).failure.None?
    ensures FoldRings(engine, acc, nodes).border == Merged(engine, acc.border, RingsOf(engine, nodes).value)
    decreases |nodes|
  {
    if |nodes| > 0 {
      var next := Step(engine, acc, nodes[0]);
      assert FoldRings(engine, acc, nodes) == FoldRings(engine, next, nodes[1..]);
      FoldRingsMerges(engine, next, nodes[1..]);
      if nodes[0].Some? {
        var g := RingGeometry(engine, nodes[0].value).value;
        var gs := RingsOf(engine, nodes[1..]).value;
        assert RingsOf(engine, nodes).value == [g] + gs;
        assert ([g] + gs)[0] == g && ([g] + gs)[1..] == gs;
      }
    }
  }

  /** Border and exception of the loop do not depend on the console lines written before it. */
  lemma {:induction false} FoldRingsIgnoresMessages<G>(engine: Engine<G>, a1: Folded<G>, a2: Folded<G>,
                                                      nodes: seq<Option<string>>)
    requires a1.border == a2.border && a1.failure == a2.failure
    ensures FoldRings(engine, a1, nodes).border == FoldRings(engine, a2, nodes).border
    ensures FoldRings(engine, a1, nodes).failure == FoldRings(engine, a2, nodes).failure
    decreases |nodes|
  {
    if |nodes| > 0 && a1.failure.None? {
      FoldRingsIgnoresMessages(engine, Step(engine, a1, nodes[0]), Step(engine, a2, nodes[0]), nodes[1..]);
    }
  }

  /**
   * A ring whose Union with the border is rejected is skipped: the loop
   * ends with the border, and the exception, it would have without that
   * ring.
   */
  lemma RejectedRingIsSkipped<G>(engine: Engine<G>, acc: Folded<G>, a: seq<Option<string>>, node: Option<string>,
                                 b: seq<Option<string>>)
    requires FoldRings(engine, acc, a).failure.None? && FoldRings(engine, acc, a).border.Some?
    requires node.Some? && RingGeometry(engine, node.value).Ok?
    requires engine.union(FoldRings(engine, acc, a).border.value, RingGeometry(engine, node.value).value).None?
    ensures FoldRings(engine, acc, a + [node] + b).border == FoldRings(engine, acc, a + b).border
    ensures FoldRings(engine, acc, a + [node] + b).failure == FoldRings(engine, acc, a + b).failure
  {
    var mid := FoldRings(engine, acc, a);
    FoldRingsAppend(engine, acc, a + [node], b);
    FoldRingsAppend(engine, acc, a, [node]);
    FoldRingsAppend(engine, acc, a, b);
    var skipped := Step(engine, mid, node);
    assert FoldRings(engine, mid, [node]) == FoldRings(engine, skipped, []);
    FoldRingsIgnoresMessages(engine, skipped, mid, b);
  }

  // ---------------------------------------------------------------------
  // SaveCountryInFile
  // ---------------------------------------------------------------------

  /** The FirstOrDefault condition: the code is the country's CC2 or its CC3 code. */
  predicate HasCode(country: FileReader.Country, countryCode: string) {
    country.cc2 == countryCode || country.cc3 == countryCode
  }

  /** countries.FirstOrDefault(c => c.CC2 == countryCode || c.CC3 == countryCode). */
  function FindCountry(countries: seq<FileReader.Country>, countryCode: string): (r: Option<FileReader.Country>)
    ensures r.None? <==> forall k :: 0 <= k < |countries| ==> !HasCode(countries[k], countryCode)
    ensures r.Some? ==> r.value in countries && HasCode(r.value, countryCode)
    decreases |countries|
  {
    if |countries| == 0 then None
    else if HasCode(countries[0], countryCode) then Some(countries[0])
    else
      var r := FindCountry(countries[1..], countryCode);
      assert forall k :: 1 <= k < |countries| ==> countries[k] == countries[1..][k - 1];
      r
  }

  /** FirstOrDefault picks the first country with the code. */
  lemma {:induction false} FindCountryFirst(countries: seq<FileReader.Country>, countryCode: string, i: nat)
    requires i < |countries| && HasCode(countries[i], countryCode)
    requires forall k :: 0 <= k < i ==> !HasCode(countries[k], countryCode)
    ensures FindCountry(countries, countryCode) == Some(countries[i])
    decreases i
  {
    if i > 0 {
      assert !HasCode(countries[0], countryCode);
      assert countries[1..][i - 1] == countries[i];
      FindCountryFirst(countries[1..], countryCode, i - 1);
    }
  }

  /** The header line Main writes first. */
  const Header: string := "CountryId,Name,Alpha2,Alpha3,AffiliationId,CountryBoundaries"

  /** The output row of a country: its five fields and the border's GML, separated by commas. */
  function FormatRow(country: FileReader.Country, gml: string): string {
    Int32Text.Int32ToString(country.countryId) + "," + country.name + "," + country.cc2 + "," + country.cc3 + ","
    + Int32Text.Int32ToString(country.affiliationId) + "," + gml
  }

  /** SaveCountryInFile: the row it writes, if any. */
  function SaveCountryInFile<G>(engine: Engine<G>, countryCode: string, countries: seq<FileReader.Country>,
                                geoBorder: G): (row: Option<string>)
    ensures row.None? <==> FindCountry(countries, countryCode).None?
    ensures row.Some? ==> row.value == FormatRow(FindCountry(countries, countryCode).value, engine.asGml(geoBorder))
  {
    match FindCountry(countries, countryCode)
    case None => None
    case Some(country) => Some(FormatRow(country, engine.asGml(geoBorder)))
  }

  /**
   * A row written for a country whose name and codes hold no comma reads
   * back, with the field mapping of GetCountries, as that same country
   * (the GML after the fifth field is ignored).
   */
  lemma RowReadsBack(country: FileReader.Country, gml: string)
    requires Int32Text.IsInt32(country.countryId) && Int32Text.IsInt32(country.affiliationId)
    requires Text.NoneIn(country.name, {','}) && Text.NoneIn(country.cc2, {','}) && Text.NoneIn(country.cc3, {','})
    ensures FileReader.MapRow(Text.Split(FormatRow(country, gml), {','})) == Ok(country)
  {
    var id := Int32Text.Int32ToString(country.countryId);
    var affiliation := Int32Text.Int32ToString(country.affiliationId);
    Int32Text.Int32ToStringHasNoComma(country.countryId);
    Int32Text.Int32ToStringHasNoComma(country.affiliationId);
    var fields := RowFields(id, country.name, country.cc2, country.cc3, affiliation, gml);
    assert fields[0] == id && fields[1] == country.name && fields[2] == country.cc2;
    assert fields[3] == country.cc3 && fields[4] == affiliation;
    Int32Text.ParseInt32OfToString(country.countryId);
    Int32Text.ParseInt32OfToString(country.affiliationId);
  }

  /** The split of a row: the five comma-free fields, then the pieces of the GML. */
  lemma RowFields(id: string, name: string, cc2: string, cc3: string, affiliation: string, gml: string)
    returns (fields: seq<string>)
    requires Text.NoneIn(id, {','}) && Text.NoneIn(name, {','}) && Text.NoneIn(cc2, {','})
    requires Text.NoneIn(cc3, {','}) && Text.NoneIn(affiliation, {','})
    ensures fields == Text.Split(id + "," + name + "," + cc2 + "," + cc3 + "," + affiliation + "," + gml, {','})
    ensures |fields| >= 5 && fields[..5] == [id, name, cc2, cc3, affiliation]
  {
    var t4 := affiliation + [','] + gml;
    var t3 := cc3 + [','] + t4;
    var t2 := cc2 + [','] + t3;
    var t1 := name + [','] + t2;
    var t0 := id + [','] + t1;
    assert id + "," + name + "," + cc2 + "," + cc3 + "," + affiliation + "," + gml == t0;
    Text.SplitAfterPiece(affiliation, ',', gml, {','});
    Text.SplitAfterPiece(cc3, ',', t4, {','});
    Text.SplitAfterPiece(cc2, ',', t3, {','});
    Text.SplitAfterPiece(name, ',', t2, {','});
    Text.SplitAfterPiece(id, ',', t1, {','});
    fields := Text.Split(t0, {','});
    assert fields == [id, name, cc2, cc3, affiliation] + Text.Split(gml, {','});
  }

  // ---------------------------------------------------------------------
  // One placemark
  // ---------------------------------------------------------------------

  /** What one placemark leaves behind: console lines, the database row, the file row, and an escaping exception. */
  datatype Saved = Saved(messages: seq<Message>, record: Option<Record>, row: Option<string>,
                         failure: Option<Failure>)

  /**
   * The body of the placemark loop: the code and the name from the third
   * and second SimpleData, the border from the Polygon nodes and then the
   * MultiGeometry/Polygon nodes, then the database and the file.
   */
  function PlacemarkSpec<G>(engine: Engine<G>, countries: seq<FileReader.Country>, placemark: Placemark): Saved {
    if |placemark.simpleData| < 3 then Saved([], None, None, Some(MissingSimpleData))
    else
      var countryCode := placemark.simpleData[2];
      var countryName := placemark.simpleData[1];
      var direct := FoldRings(engine, Folded(None, [Parsing(countryName)], None), placemark.polygons);
      var folded := FoldRings(engine, direct, placemark.multiPolygons);
      if folded.failure.Some? then Saved(folded.messages, None, None, folded.failure)
      else if folded.border.None? then Saved(folded.messages + [CountryNotAdded(countryCode, NoBorder)], None, None, None)
      else
        var countryBorder := engine.asText(folded.border.value);
        if !engine.saveInDatabase(countryCode, countryName, countryBorder) then
          Saved(folded.messages + [CountryNotAdded(countryCode, DatabaseRejected)], None, None, None)
        else
          Saved(folded.messages, Some(Record(countryCode, countryName, countryBorder)),
                SaveCountryInFile(engine, countryCode, countries, folded.border.value), None)
  }

  /** The body of the placemark loop of Main. */
  method ProcessPlacemark<G>(engine: Engine<G>, countries: seq<FileReader.Country>, placemark: Placemark)
    returns (messages: seq<Message>, record: Option<Record>, row: Option<string>, failure: Option<Failure>)
    ensures Saved(messages, record, row, failure) == PlacemarkSpec(engine, countries, placemark)
  {
    record, row := None, None;
    if |placemark.simpleData| < 3 {
      return [], None, None, Some(MissingSimpleData);
    }
    var countryCode := placemark.simpleData[2];
    var countryName := placemark.simpleData[1];
    var geoBorder: Option<G> := None;
    geoBorder, messages, failure := FoldPolygons(engine, geoBorder, [Parsing(countryName)], placemark.polygons);
    if failure.Some? {
      return;
    }
    geoBorder, messages, failure := FoldPolygons(engine, geoBorder, messages, placemark.multiPolygons);
    if failure.Some? {
      return;
    }
    if geoBorder.None? {
      messages := messages + [CountryNotAdded(countryCode, NoBorder)];
      return;
    }
    var countryBorder := engine.asText(geoBorder.value);
    var saved := engine.saveInDatabase(countryCode, countryName, countryBorder);
    if !saved {
      messages := messages + [CountryNotAdded(countryCode, DatabaseRejected)];
      return;
    }
    record := Some(Record(countryCode, countryName, countryBorder));
    row := SaveCountryInFile(engine, countryCode, countries, geoBorder.value);
  }

  /** The two polygon loops of a placemark act as one loop over the Polygon nodes followed by the MultiGeometry ones. */
  lemma PlacemarkFoldsAllRings<G>(engine: Engine<G>, placemark: Placemark, start: Folded<G>)
    ensures FoldRings(engine, FoldRings(engine, start, placemark.polygons), placemark.multiPolygons)
            == FoldRings(engine, start, placemark.polygons + placemark.multiPolygons)
  {
    FoldRingsAppend(engine, start, placemark.polygons, placemark.multiPolygons);
  }

  /**
   * What a placemark with its SimpleData leaves behind: the "Parsing"
   * line comes first; a file row is written only together with a
   * database row, and exactly when the country code is in the list; an
   * escaping exception writes neither.
   */
  lemma PlacemarkOutputs<G>(engine: Engine<G>, countries: seq<FileReader.Country>, placemark: Placemark)
    requires |placemark.simpleData| >= 3
    ensures var s := PlacemarkSpec(engine, countries, placemark);
            |s.messages| > 0 && s.messages[0] == Parsing(placemark.simpleData[1])
    ensures var s := PlacemarkSpec(engine, countries, placemark);
            s.row.Some? <==> s.record.Some? && FindCountry(countries, placemark.simpleData[2]).Some?
    ensures var s := PlacemarkSpec(engine, countries, placemark);
            s.failure.Some? ==> s.record.None? && s.row.None?
    ensures var s := PlacemarkSpec(engine, countries, placemark);
            s.record.Some? ==> s.record.value.countryCode == placemark.simpleData[2]
                               && s.record.value.countryName == placemark.simpleData[1]
  {
    var start := Folded(None, [Parsing(placemark.simpleData[1])], None);
    PlacemarkFoldsAllRings(engine, placemark, start);
    FoldRingsReportsOnlyUnions(engine, start, placemark.polygons + placemark.multiPolygons);
  }

  /**
   * When every ring of a placemark reads, no exception escapes, and the
   * border saved in the database is the text of the Merged border of all
   * its rings, the Polygon ones first.
   */
  lemma PlacemarkSavedBorder<G>(engine: Engine<G>, countries: seq<FileReader.Country>, placemark: Placemark)
    requires |placemark.simpleData| >= 3
    requires RingsOf(engine, placemark.polygons + placemark.multiPolygons).Ok?
    ensures PlacemarkSpec(engine, countries, placemark).failure.None?
    ensures var s := PlacemarkSpec(engine, countries, placemark);
            var border := Merged(engine, None, RingsOf(engine, placemark.polygons + placemark.multiPolygons).value);
            s.record.Some? ==> border.Some? && s.record.value.countryBorder == engine.asText(border.value)
  {
    var start := Folded(None, [Parsing(placemark.simpleData[1])], None);
    PlacemarkFoldsAllRings(engine, placemark, start);
    FoldRingsMerges(engine, start, placemark.polygons + placemark.multiPolygons);
  }

  /**
   * A placemark none of whose polygon nodes has an outer ring is not
   * added: geoBorder stays null, and only the "Parsing" line and the
   * "not added" line are written.
   */
  lemma NoRingNoCountry<G>(engine: Engine<G>, countries: seq<FileReader.Country>, placemark: Placemark)
    requires |placemark.simpleData| >= 3
    requires forall k :: 0 <= k < |placemark.polygons| ==> placemark.polygons[k].None?
    requires forall k :: 0 <= k < |placemark.multiPolygons| ==> placemark.multiPolygons[k].None?
    ensures PlacemarkSpec(engine, countries, placemark) ==
              Saved([Parsing(placemark.simpleData[1]), CountryNotAdded(placemark.simpleData[2], NoBorder)],
                    None, None, None)
  {
    var start := Folded(None, [Parsing(placemark.simpleData[1])], None);
    FoldRingsSkipsEmpty(engine, start, placemark.polygons);
    FoldRingsSkipsEmpty(engine, start, placemark.multiPolygons);
  }

  /** Nodes without an outer ring change nothing. */
  lemma {:induction false} FoldRingsSkipsEmpty<G>(engine: Engine<G>, acc: Folded<G>, nodes: seq<Option<string>>)
    requires forall k :: 0 <= k < |nodes| ==> nodes[k].None?
    ensures FoldRings(engine, acc, nodes) == acc
    decreases |nodes|
  {
    if |nodes| > 0 && acc.failure.None? {
      assert nodes[0].None?;
      assert forall k :: 0 <= k < |nodes| - 1 ==> nodes[1..][k] == nodes[k + 1];
      FoldRingsSkipsEmpty(engine, acc, nodes[1..]);
    }
  }

  // ---------------------------------------------------------------------
  // The placemark loop and Main
  // ---------------------------------------------------------------------

  /** The state of Main's placemark loop: the console, the rows after the header, the database rows, the exception. */
  datatype Progress = Progress(messages: seq<Message>, rows: seq<string>, records: seq<Record>,
                               failure: Option<Failure>)

  function Listed<T>(x: Option<T>): (s: seq<T>)
    ensures |s| <= 1
  {
    if x.Some? then [x.value] else []
  }

  /** The state after one more placemark. */
  function Apply(acc: Progress, saved: Saved): Progress {
    Progress(acc.messages + saved.messages, acc.rows + Listed(saved.row), acc.records + Listed(saved.record),
             saved.failure)
  }

  /** The placemark loop: placemark after placemark, until an exception escapes. */
  function Run<G>(engine: Engine<G>, countries: seq<FileReader.Country>, acc: Progress, placemarks: seq<Placemark>)
    : (r: Progress)
    ensures acc.failure.Some? ==> r == acc
    decreases |placemarks|
  {
    if |placemarks| == 0 || acc.failure.Some? then acc
    else Run(engine, countries, Apply(acc, PlacemarkSpec(engine, countries, placemarks[0])), placemarks[1..])
  }

  /** The placemark loop over two lists is the loop over the one after the other. */
  lemma {:induction false} RunAppend<G>(engine: Engine<G>, countries: seq<FileReader.Country>, acc: Progress,
                                        a: seq<Placemark>, b: seq<Placemark>)
    ensures Run(engine, countries, acc, a + b) == Run(engine, countries, Run(engine, countries, acc, a), b)
    decreases |a|
  {
    if |a| == 0 {
      assert a + b == b;
    } else if acc.failure.None? {
      assert (a + b)[0] == a[0] && (a + b)[1..] == a[1..] + b;
      RunAppend(engine, countries, Apply(acc, PlacemarkSpec(engine, countries, a[0])), a[1..], b);
    }
  }

  /** An exception escaping from one placemark ends the run: the placemarks after it change nothing. */
  lemma FailureEndsRun<G>(engine: Engine<G>, countries: seq<FileReader.Country>, acc: Progress,
                          a: seq<Placemark>, b: seq<Placemark>)
    requires Run(engine, countries, acc, a).failure.Some?
    ensures Run(engine, countries, acc, a + b) == Run(engine, countries, acc, a)
  {
    RunAppend(engine, countries, acc, a, b);
  }

  /**
   * The loop only appends: to the console, to the file and to the
   * database; and it writes no more file rows than database rows.
   */
  lemma {:induction false} RunAppendsOnly<G>(engine: Engine<G>, countries: seq<FileReader.Country>, acc: Progress,
                                             placemarks: seq<Placemark>)
    ensures var r := Run(engine, countries, acc, placemarks);
            |acc.messages| <= |r.messages| && r.messages[..|acc.messages|] == acc.messages
            && |acc.rows| <= |r.rows| && r.rows[..|acc.rows|] == acc.rows
            && |acc.records| <= |r.records| && r.records[..|acc.records|] == acc.records
            && |r.rows| - |acc.rows| <= |r.records| - |acc.records|
    decreases |placemarks|
  {
    if |placemarks| > 0 && acc.failure.None? {
      var saved := PlacemarkSpec(engine, countries, placemarks[0]);
      var next := Apply(acc, saved);
      SavedRowNeedsRecord(engine, countries, placemarks[0]);
      RunAppendsOnly(engine, countries, next, placemarks[1..]);
      var r := Run(engine, countries, acc, placemarks);
      assert r == Run(engine, countries, next, placemarks[1..]);
      PrefixOfPrefix(acc.messages, next.messages, r.messages);
      PrefixOfPrefix(acc.rows, next.rows, r.rows);
      PrefixOfPrefix(acc.records, next.records, r.records);
    }
  }

  /** A file row is only written together with a database row. */
  lemma SavedRowNeedsRecord<G>(engine: Engine<G>, countries: seq<FileReader.Country>, placemark: Placemark)
    ensures var s := PlacemarkSpec(engine, countries, placemark);
            s.row.Some? ==> s.record.Some?
  {
  }

  lemma PrefixOfPrefix<T>(a: seq<T>, b: seq<T>, c: seq<T>)
    requires |a| <= |b| && b[..|a|] == a && |b| <= |c| && c[..|b|] == b
    ensures c[..|a|] == a
  {
    assert c[..|a|] == c[..|b|][..|a|];
  }

  /** The placemark loop of Main, from the state after the header. */
  method RunPlacemarks<G>(engine: Engine<G>, countries: seq<FileReader.Country>, console: seq<Message>,
                          placemarks: seq<Placemark>)
    returns (messages: seq<Message>, rows: seq<string>, records: seq<Record>, failure: Option<Failure>)
    ensures Progress(messages, rows, records, failure) == Run(engine, countries, Progress(console, [], [], None), placemarks)
  {
    messages, rows, records, failure := console, [], [], None;
    var i := 0;
    while i < |placemarks|
      invariant 0 <= i <= |placemarks|
      invariant Run(engine, countries, Progress(console, [], [], None), placemarks)
                == Run(engine, countries, Progress(messages, rows, records, None), placemarks[i..])
      decreases |placemarks| - i
    {
      assert placemarks[i..][0] == placemarks[i] && placemarks[i..][1..] == placemarks[i + 1..];
      var more, record, row, escaped := ProcessPlacemark(engine, countries, placemarks[i]);
      messages := messages + more;
      rows := rows + Listed(row);
      records := records + Listed(record);
      if escaped.Some? {
        failure := escaped;
        return;
      }
      i := i + 1;
    }
  }

  /** What Main leaves behind: the console, the output file (None when it is never created) and the database rows. */
  datatype Outcome = Outcome(console: seq<Message>, file: Option<seq<string>>, database: seq<Record>)

  /**
   * Main, from the lines of the country file and the placemarks of the
   * KML document: the countries are read (an exception ends Main before the
   * output file is created), the header is written, the placemarks are
   * processed, and "Done" is written unless an exception escaped, in which
   * case its message is written instead. The rows written before the
   * exception stay in the file.
   */
  function Convert<G>(engine: Engine<G>, csvLines: seq<string>, placemarks: seq<Placemark>): Outcome {
    match FileReader.Countries(FileReader.FileData(csvLines))
    case Err(f) => Outcome([ReadingCountries, Fatal(ReadFailed(f))], None, [])
    case Ok(countries) =>
      var p := Run(engine, countries, Progress([ReadingCountries], [], [], None), placemarks);
      Outcome(p.messages + [if p.failure.Some? then Fatal(p.failure.value) else Done],
              Some([Header] + p.rows), p.records)
  }

  /** Main, without the file system checks, the KML parsing and the final Console.ReadLine. */
  method ConvertCountries<G>(engine: Engine<G>, csvLines: seq<string>, placemarks: seq<Placemark>)
    returns (console: seq<Message>, file: Option<seq<string>>, database: seq<Record>)
    ensures Outcome(console, file, database) == Convert(engine, csvLines, placemarks)
  {
    var data := FileReader.GetFileData(csvLines);
    console := [ReadingCountries];
    var countries := FileReader.GetCountries(data);
    if countries.Err? {
      return console + [Fatal(ReadFailed(countries.error))], None, [];
    }
    var messages, rows, records, failure := RunPlacemarks(engine, countries.value, console, placemarks);
    file := Some([Header] + rows);
    database := records;
    if failure.Some? {
      console := messages + [Fatal(failure.value)];
    } else {
      console := messages + [Done];
    }
  }

  /**
   * Main's console and files: the console starts with the "Reading
   * countries" line and ends with "Done" exactly when no exception message
   * was written; the output file is missing exactly when the country file
   * could not be read, and otherwise starts with the header and has no more
   * rows than the database received.
   */
  lemma ConvertOutcome<G>(engine: Engine<G>, csvLines: seq<string>, placemarks: seq<Placemark>)
    ensures var o := Convert(engine, csvLines, placemarks);
            |o.console| >= 2 && o.console[0] == ReadingCountries
    ensures var o := Convert(engine, csvLines, placemarks);
            o.file.None? <==> FileReader.Countries(FileReader.FileData(csvLines)).Err?
    ensures var o := Convert(engine, csvLines, placemarks);
            o.file.Some? ==> |o.file.value| >= 1 && o.file.value[0] == Header && |o.file.value| - 1 <= |o.database|
    ensures var o := Convert(engine, csvLines, placemarks);
            o.console[|o.console| - 1] == Done <==> NoFatal(o.console)
  {
    var countries := FileReader.Countries(FileReader.FileData(csvLines));
    if countries.Ok? {
      var start := Progress([ReadingCountries], [], [], None);
      var p := Run(engine, countries.value, start, placemarks);
      RunAppendsOnly(engine, countries.value, start, placemarks);
      RunReportsNoFatal(engine, countries.value, start, placemarks);
      var o := Convert(engine, csvLines, placemarks);
      assert o.console == p.messages + [if p.failure.Some? then Fatal(p.failure.value) else Done];
      assert o.console[0] == p.messages[..1][0];
      assert forall k :: 0 <= k < |p.messages| ==> o.console[k] == p.messages[k];
    }
  }

  /** No console line is an exception message. */
  predicate NoFatal(messages: seq<Message>) {
    forall k :: 0 <= k < |messages| ==> !messages[k].Fatal?
  }

  lemma NoFatalConcat(a: seq<Message>, b: seq<Message>)
    requires NoFatal(a) && NoFatal(b)
    ensures NoFatal(a + b)
  {
    forall k | 0 <= k < |a + b| ensures !(a + b)[k].Fatal? {
      if k >= |a| {
        assert (a + b)[k] == b[k - |a|];
      }
    }
  }

  /** The placemark loop itself writes no exception message; Main writes it after the loop. */
  lemma {:induction false} RunReportsNoFatal<G>(engine: Engine<G>, countries: seq<FileReader.Country>, acc: Progress,
                                                placemarks: seq<Placemark>)
    requires NoFatal(acc.messages)
    ensures NoFatal(Run(engine, countries, acc, placemarks).messages)
    decreases |placemarks|
  {
    if |placemarks| > 0 && acc.failure.None? {
      var saved := PlacemarkSpec(engine, countries, placemarks[0]);
      SavedReportsNoFatal(engine, countries, placemarks[0]);
      var next := Apply(acc, saved);
      NoFatalConcat(acc.messages, saved.messages);
      RunReportsNoFatal(engine, countries, next, placemarks[1..]);
    }
  }

  /** The polygon loop writes no exception message: a merge the union rejects is reported, an exception escapes. */
  lemma {:induction false} FoldRingsNoFatal<G>(engine: Engine<G>, acc: Folded<G>, nodes: seq<Option<string>>)
    requires NoFatal(acc.messages)
    ensures NoFatal(FoldRings(engine, acc, nodes).messages)
    decreases |nodes|
  {
    if |nodes| > 0 && acc.failure.None? {
      var next := Step(engine, acc, nodes[0]);
      if next.messages != acc.messages {
        assert next.messages == acc.messages + [UnionRejected];
        NoFatalConcat(acc.messages, [UnionRejected]);
      }
      FoldRingsNoFatal(engine, next, nodes[1..]);
    }
  }

  /** A placemark writes no exception message; an exception it raises is reported by Main. */
  lemma SavedReportsNoFatal<G>(engine: Engine<G>, countries: seq<FileReader.Country>, placemark: Placemark)
    ensures NoFatal(PlacemarkSpec(engine, countries, placemark).messages)
  {
    if |placemark.simpleData| >= 3 {
      var start := Folded(None, [Parsing(placemark.simpleData[1])], None);
      FoldRingsNoFatal(engine, start, placemark.polygons);
      var direct := FoldRings(engine, start, placemark.polygons);
      FoldRingsNoFatal(engine, direct, placemark.multiPolygons);
      var folded := FoldRings(engine, direct, placemark.multiPolygons);
      NoFatalConcat(folded.messages, [CountryNotAdded(placemark.simpleData[2], NoBorder)]);
      NoFatalConcat(folded.messages, [CountryNotAdded(placemark.simpleData[2], DatabaseRejected)]);
    }
  }
}
