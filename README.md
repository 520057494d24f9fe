# ParseCountryBordersFromKmlFile in Dafny

This project models the core of a small .NET console program. The program
reads country borders from a KML file of world boundaries and stores them.
For every `Placemark` it reads the outer rings of the `Polygon` and
`MultiGeometry/Polygon` nodes. Each ring's `coordinates` text goes through
`GeographicCoordinate.ParseCoordinates`, is rewritten as well-known text by
`ConvertGeoCoordinatesToPolygon`, and is merged with `DbGeography.Union` into
one border per country. The border is then saved in a database and written
to a comma-delimited output file. The output row takes the country's fields
from a reference file, `SeedCountry.csv`, which `FileReader` reads.

Modules, one per file:

- `Wrappers` (`wrappers.dfy`): `Option` for a nullable reference and
  `Result` for a call that returns or throws.
- `Text` (`text.dfy`): the `System.String` operations the code relies on.
  These are `Trim` (removing `char.IsWhiteSpace`) and `Split` on a set of
  separator characters that keeps empty pieces. `Join` is not called by
  the code: it stands for the text the StringBuilder loop of
  `ConvertGeoCoordinatesToPolygon` builds, and serves the round-trip
  lemmas (a country-file row joined back with ',' is its line).
- `Int32Text` (`int32_text.dfy`): `int.Parse` with the default integer
  style, and `int.ToString()`.
- `Coordinates` (`coordinates.dfy`): `GeographicCoordinate` and its
  tolerance equality, plus `ParseCoordinates` and
  `ConvertGeoCoordinatesToPolygon`. The two methods keep their loops and are
  proved equal to the specification functions `Pairs` and `RingPolygon`.
- `FileReader` (`file_reader.dfy`): `GetFileData` and `GetCountries`, as
  loops proved equal to `FileData` and `Countries`.
- `Program` (`program.dfy`): the body of `Main` from reading the countries
  to the final "Done". This covers the per-placemark polygon loops
  (`FoldPolygons` / `FoldRings`) and the two saves (`ProcessPlacemark` /
  `PlacemarkSpec`). It also covers the placemark loop (`RunPlacemarks` /
  `Run`), the whole of Main (`ConvertCountries` / `Convert`) and
  `SaveCountryInFile`.

The code calls into libraries whose source is not part of this model. These
calls are parameters:

- `double.Parse` is `parse: string -> Option<real>`, with `None` for the
  exception.
- `double.ToString()` is `format: real -> string`.
- `DbGeography.PolygonFromText`, `Union`, `AsText` and `AsGml` are functions
  over an abstract geometry type `G`. For `PolygonFromText` and `Union` a
  `None` result stands for an exception; `AsText` and `AsGml` are total.
- `SaveCountryInDatabase` is `saveInDatabase`, returning `false` when it
  throws.

In `Program` these parameters are gathered in the datatype `Engine<G>`. The
KML document is given as its list of placemarks in document order. Each
polygon node is reduced to the inner text of its
`outerBoundaryIs/LinearRing/coordinates` node, or `None` when that node is
missing. The console, the output file and the database are represented by
what is written to them: a list of `Message`s, the file's lines, and the
inserted `Record`s.

Details of the code the model follows:

- `ParseCoordinates` builds `System.Device.Location.GeoCoordinate` values,
  not `GeographicCoordinate`s. GeoCoordinate's constructor takes the
  latitude first and rejects a latitude outside [-90, 90] or a longitude
  outside [-180, 180] (`OutOfRange`). As a result the closure check in
  `ConvertGeoCoordinatesToPolygon` compares the first and last points
  exactly, not with the 1.0 tolerance of `GeographicCoordinate`.
- `First()` on an empty list throws (`EmptyRing`).
- A ring that fails to parse or to convert is not skipped. The exception
  escapes to the outer `catch` of `Main` and ends the run, and no later
  placemark is processed. The lines already in the output file stay there.
- The code has no minimum-vertex check, no re-closing of open rings, no
  antimeridian handling and no size filter. The model has none either.
- Pairing is not re-aligned after a run of separators.
  `Coordinates.SeparatorRunBetweenPoints` shows the effect: between two
  `lon,lat` points, a run of n separator characters (a line feed followed by
  indentation, say) leaves n - 1 empty pieces. When n - 1 is odd, the
  second point's longitude is paired with an empty piece. Then its latitude
  becomes the lone last piece and the parse throws.

## Model

| member | source | states |
|---|---|---|
| Coordinates.EqualWithinOneDegree | ParseCountryBordersFromKmlFile/GeographicCoordinate.cs:12 | with Tolerance = 10.0 * .1, two coordinates are `==` exactly when both axis differences lie strictly between -1 and 1 |
| Coordinates.EqualOnNull | ParseCountryBordersFromKmlFile/GeographicCoordinate.cs:23-35 | null == null holds; null == coordinate and coordinate == null are false |
| Coordinates.EqualReflexive | ParseCountryBordersFromKmlFile/GeographicCoordinate.cs:23-40 | every value, null included, is `==` to itself |
| Coordinates.EqualSymmetric | ParseCountryBordersFromKmlFile/GeographicCoordinate.cs:37-39 | `==` is symmetric |
| Coordinates.EqualNotTransitive | ParseCountryBordersFromKmlFile/GeographicCoordinate.cs:37-39 | `==` is not transitive: points 0.6 apart chain up to points 1.2 apart |
| Coordinates.NotEqualIff | ParseCountryBordersFromKmlFile/GeographicCoordinate.cs:42-45 | `!=` holds exactly when one side alone is null or some axis differs by at least 1.0 |
| Coordinates.EqualsAgreesWithEqual | ParseCountryBordersFromKmlFile/GeographicCoordinate.cs:47-59 | `Equals` is false for null and for other run-time types, and agrees with `==` on coordinates |
| Text.TrimWithFacts | ParseCountryBordersFromKmlFile/GeographicCoordinate.cs:75 | the trimmed text starts and ends with a non-white character, is empty exactly when the text is all white space, and is the slice between a white prefix and a white suffix |
| Text.TrimStartFacts | ParseCountryBordersFromKmlFile/GeographicCoordinate.cs:75 | trimming the start removes a white prefix and leaves a suffix that is empty or starts with a non-white character |
| Text.TrimEndFacts | ParseCountryBordersFromKmlFile/GeographicCoordinate.cs:75 | trimming the end removes a white suffix and leaves a prefix that is empty or ends with a non-white character |
| Text.Split | ParseCountryBordersFromKmlFile/GeographicCoordinate.cs:76-77 | the pieces number one more than the separators in the text, and no piece holds a separator |
| Text.SplitJoin | ParseCountryBordersFromKmlFile/FileReader.cs:33 | splitting fields joined by a separator gives back the fields, when none holds a separator |
| Text.JoinSplit | ParseCountryBordersFromKmlFile/FileReader.cs:33 | joining the pieces of `Split(',')` with ',' gives back the line |
| Int32Text.ParseInt32 | ParseCountryBordersFromKmlFile/FileReader.cs:50 | int.Parse yields only values inside the Int32 range |
| Int32Text.NatToString | ParseCountryBordersFromKmlFile/Program.cs:217 | the decimal text of a number is non-empty, all digits, worth the number, and has no leading zero |
| Int32Text.ParseInt32OfToString | ParseCountryBordersFromKmlFile/FileReader.cs:50-54 | every Int32 reads back from its own text |
| Int32Text.Int32ToStringHasNoComma | ParseCountryBordersFromKmlFile/Program.cs:217 | the text of an integer is non-empty and holds no comma |
| Coordinates.Tokens | ParseCountryBordersFromKmlFile/GeographicCoordinate.cs:75-77 | the trimmed text splits into at least one piece |
| Coordinates.ReadPoint | ParseCountryBordersFromKmlFile/GeographicCoordinate.cs:91 | the latitude token is parsed first; a point results exactly when both tokens parse and lie in range, with latitude and longitude taken from the matching tokens |
| Coordinates.Stride | ParseCountryBordersFromKmlFile/GeographicCoordinate.cs:83-91 | a pair with a blank half yields no point; otherwise the trimmed pair yields the point or the exception of ReadPoint; at most one point per pair |
| Coordinates.Pairs | ParseCountryBordersFromKmlFile/GeographicCoordinate.cs:81-92 | every point uses up two pieces |
| Coordinates.ParseCoordinates | ParseCountryBordersFromKmlFile/GeographicCoordinate.cs:73-95 | the loop returns the pairing of the trimmed, split text: points in piece order, or the first exception |
| Coordinates.PairsConcat | ParseCountryBordersFromKmlFile/GeographicCoordinate.cs:81 | the stride of two makes the pairing compositional: pieces cut at an even index pair up independently, first part first |
| Coordinates.PairsOfStride | ParseCountryBordersFromKmlFile/GeographicCoordinate.cs:81-92 | two pieces pair as one stride |
| Coordinates.PairsOddTailFails | ParseCountryBordersFromKmlFile/GeographicCoordinate.cs:87 | a non-blank last piece at an even index of an odd-length list reads past the end and the parse fails |
| Coordinates.SplitSeparatorRun | ParseCountryBordersFromKmlFile/GeographicCoordinate.cs:76-77 | a run of n separators after a piece leaves n - 1 empty pieces |
| Coordinates.PairsAfterBlanks | ParseCountryBordersFromKmlFile/GeographicCoordinate.cs:81-89 | an even number of empty pieces before a pair is skipped; an odd number pairs the longitude with an empty piece and the latitude is left without a partner |
| Coordinates.SeparatorRunBetweenPoints | ParseCountryBordersFromKmlFile/GeographicCoordinate.cs:75-92 | between two points, a run of n separators keeps both points when n - 1 is even and makes the parse fail when it is odd (the stride is not re-aligned) |
| Coordinates.PointTexts | ParseCountryBordersFromKmlFile/GeographicCoordinate.cs:110-112 | one "lon lat" text per vertex, in input order |
| Coordinates.RingPolygon | ParseCountryBordersFromKmlFile/GeographicCoordinate.cs:97-120 | an empty ring and a ring whose first and last points differ are refused; a closed ring gives a geometry exactly when the engine accepts "POLYGON((" + vertex list + "))", that geometry, and otherwise is refused with that text |
| Coordinates.ConvertGeoCoordinatesToPolygon | ParseCountryBordersFromKmlFile/GeographicCoordinate.cs:97-120 | the StringBuilder loop with its count builds exactly that text and returns RingPolygon |
| Coordinates.CommaCount | ParseCountryBordersFromKmlFile/GeographicCoordinate.cs:109-112 | when n > 0 and no vertex text holds a comma, the vertex list holds exactly n - 1 commas for n vertices |
| Coordinates.CoordinateListReadsBack | ParseCountryBordersFromKmlFile/GeographicCoordinate.cs:75-115 | round trip: parsing the vertex list written for a ring gives the ring back whenever the number format reads back |
| FileReader.SplitLines | ParseCountryBordersFromKmlFile/FileReader.cs:29-33 | one row per line, in order, each the line's `Split(',')` |
| FileReader.GetFileData | ParseCountryBordersFromKmlFile/FileReader.cs:26-34 | the first line is dropped and every later line becomes one row |
| FileReader.FileDataKeepsLines | ParseCountryBordersFromKmlFile/FileReader.cs:27-33 | there is one row per line after the header, and each row joined with ',' is its line |
| FileReader.MapRowMeaning | ParseCountryBordersFromKmlFile/FileReader.cs:48-55 | a row maps exactly when it has at least five fields and fields 0 and 4 parse, onto (int field 0, field 1, field 2, field 3, int field 4); a bad field 0 is reported before a short row; a short row reports its first missing index |
| FileReader.Countries | ParseCountryBordersFromKmlFile/FileReader.cs:44-58 | one Country per row on success; a failure names a row of the input |
| FileReader.GetCountries | ParseCountryBordersFromKmlFile/FileReader.cs:40-59 | the foreach loop returns Countries of its rows |
| FileReader.CountriesByRow | ParseCountryBordersFromKmlFile/FileReader.cs:46-56 | on success row k maps to the k-th Country; on failure the reported row is the first that does not map, with its error |
| FileReader.CountriesFirstFailure | ParseCountryBordersFromKmlFile/FileReader.cs:46-56 | when rows 0..i-1 map and row i does not, GetCountries fails at row i |
| FileReader.CountriesAllMap | ParseCountryBordersFromKmlFile/FileReader.cs:46-58 | when every row maps, GetCountries returns the mapped rows in order |
| FileReader.CommaInNameShiftsFields | ParseCountryBordersFromKmlFile/FileReader.cs:48-55 | a comma inside the name shifts every later field: the name's second half becomes CC2, CC2 becomes CC3, and CC3 is parsed as the affiliation id |
| Program.RingGeometry | ParseCountryBordersFromKmlFile/Program.cs:103-104 | a ring yields a geometry exactly when it parses and converts, and it is the polygon converted from the parsed points; otherwise the exception is the parse error or, after a successful parse, the convert error |
| Program.ReadRing | ParseCountryBordersFromKmlFile/Program.cs:103-104 | the two calls compute RingGeometry |
| Program.Step | ParseCountryBordersFromKmlFile/Program.cs:100-122 | a node without an outer ring changes nothing; a ring that throws records the exception and nothing else; the first ring becomes the border; a successful Union replaces the border; a rejected Union adds one report and keeps the border |
| Program.FoldRings | ParseCountryBordersFromKmlFile/Program.cs:97-124 | after an exception nothing more happens |
| Program.FoldPolygons | ParseCountryBordersFromKmlFile/Program.cs:96-124 | the foreach loop over polygon nodes computes FoldRings |
| Program.FoldRingsAppend | ParseCountryBordersFromKmlFile/Program.cs:96-154 | one shared accumulator: looping over two node lists is looping over their concatenation |
| Program.FoldRingsReportsOnlyUnions | ParseCountryBordersFromKmlFile/Program.cs:112-121 | the loops only append Union reports to the console, and a border once set is never lost |
| Program.FoldRingsBorderNull | ParseCountryBordersFromKmlFile/Program.cs:94-109 | without an exception, geoBorder ends null exactly when it started null and no node had an outer ring |
| Program.RingsOf | ParseCountryBordersFromKmlFile/Program.cs:100-104 | at most one geometry per node |
| Program.FoldRingsFailure | ParseCountryBordersFromKmlFile/Program.cs:103-134 | the loop ends with an exception exactly when reading some ring throws, and with the first such exception |
| Program.FoldRingsUnionsFrom | ParseCountryBordersFromKmlFile/Program.cs:110-121 | from a border, no Union is reported as rejected exactly when merging all rings in order succeeds, and the border is then that union |
| Program.FoldRingsUnions | ParseCountryBordersFromKmlFile/Program.cs:94-122 | from null, the first ring becomes the border without a Union call and the later rings are merged into it with UnionOf; no rejection is reported exactly when all those Unions succeed, and the border is then their union; with no ring nothing changes |
| Program.FoldRingsMerges | ParseCountryBordersFromKmlFile/Program.cs:94-122 | when every ring reads, the loop ends without exception and its border is the one Merged builds: rejected Unions are skipped and later rings are still merged |
| Program.FoldRingsIgnoresMessages | ParseCountryBordersFromKmlFile/Program.cs:94-122 | the border and the exception of the loop do not depend on the console lines written before it |
| Program.RejectedRingIsSkipped | ParseCountryBordersFromKmlFile/Program.cs:110-121 | a ring whose Union with the border is rejected leaves the final border and exception as if the ring were absent |
| Program.FoldRingsSkipsEmpty | ParseCountryBordersFromKmlFile/Program.cs:100-101 | nodes without an outer ring leave the state as it was |
| Program.FindCountry | ParseCountryBordersFromKmlFile/Program.cs:214 | no result exactly when no country has the code as CC2 or CC3; a result is a listed country with the code |
| Program.FindCountryFirst | ParseCountryBordersFromKmlFile/Program.cs:214 | the result is the first country with the code |
| Program.SaveCountryInFile | ParseCountryBordersFromKmlFile/Program.cs:212-218 | a row is written exactly when some country has the code, and it is that country's row with the border's GML |
| Program.RowReadsBack | ParseCountryBordersFromKmlFile/Program.cs:217 | an output row, split on ',' and mapped as GetCountries does, gives back its country when the name and the codes hold no comma |
| Program.ProcessPlacemark | ParseCountryBordersFromKmlFile/Program.cs:87-166 | the body of the placemark loop computes PlacemarkSpec |
| Program.PlacemarkFoldsAllRings | ParseCountryBordersFromKmlFile/Program.cs:96-154 | the Polygon nodes are folded before the MultiGeometry nodes, into one accumulator |
| Program.PlacemarkOutputs | ParseCountryBordersFromKmlFile/Program.cs:89-166 | the "Parsing" line comes first; a file row is written exactly when a database row was and the code is listed; an exception writes neither; the database row has the placemark's code and name |
| Program.PlacemarkSavedBorder | ParseCountryBordersFromKmlFile/Program.cs:94-158 | when every ring of the placemark reads, no exception escapes and the saved database border is AsText of the Merged border of all its rings, Polygon nodes first |
| Program.NoRingNoCountry | ParseCountryBordersFromKmlFile/Program.cs:94-166 | a placemark without outer rings is reported as not added, saved nowhere, and the run goes on |
| Program.Run | ParseCountryBordersFromKmlFile/Program.cs:85-167 | after an exception nothing more happens |
| Program.RunPlacemarks | ParseCountryBordersFromKmlFile/Program.cs:85-167 | the placemark loop with its early exit computes Run |
| Program.RunAppend | ParseCountryBordersFromKmlFile/Program.cs:85-167 | the placemark loop over two lists is the loop over one list, then over the other |
| Program.FailureEndsRun | ParseCountryBordersFromKmlFile/Program.cs:103-181 | once an exception escapes, later placemarks change nothing |
| Program.RunAppendsOnly | ParseCountryBordersFromKmlFile/Program.cs:158-159 | console, file and database are only appended to, and the file gains no more rows than the database |
| Program.SavedRowNeedsRecord | ParseCountryBordersFromKmlFile/Program.cs:158-159 | the database save comes first: no file row without a database row |
| Program.ConvertCountries | ParseCountryBordersFromKmlFile/Program.cs:46-181 | the console lines, file rows and database rows Main produces are those of Convert on the same inputs |
| Program.ConvertOutcome | ParseCountryBordersFromKmlFile/Program.cs:46-181 | the console starts with the "Reading countries" line and ends with "Done" exactly when no exception message was written; the output file is missing exactly when a row of the country file does not map to a Country, and otherwise starts with the header and has no more rows than the database received |
| Program.FoldRingsNoFatal | ParseCountryBordersFromKmlFile/Program.cs:112-121 | the polygon loops write no exception message |
| Program.SavedReportsNoFatal | ParseCountryBordersFromKmlFile/Program.cs:89-166 | one placemark writes no exception message, whichever way it ends |
| Program.RunReportsNoFatal | ParseCountryBordersFromKmlFile/Program.cs:85-167 | the placemark loop writes no exception message itself |

## Left out

- XML loading, the `xmlns` replacements and the XPath selection of folders, placemarks and nodes: placemarks are given as lists of ring texts.
- `DbGeography` internals (well-known-text parsing, Union, AsText, AsGml): opaque functions of the engine.
- `double.Parse` and double formatting, including culture settings and NaN: opaque functions; coordinates are reals.
- `Int32Text.Int32ToString`: writes the minus sign as '-' and uses no culture, while the interpolation that formats an output row uses the current culture's negative sign.
- Floating point rounding: the tolerance 10.0 * .1 is taken as exactly 1.0 and differences are exact.
- `GetHashCode`: float hashing, which the rest of the core does not use.
- The SQL connection and stored procedure: the database save is an opaque yes/no function, which is deterministic in the model.
- The directory and file existence checks, the project-directory discovery, the `StreamWriter` lifetime, console colours, `async`/`await` and the final `Console.ReadLine()`: I/O and scheduling.
- An exception from `AsText`, `AsGml` or from writing a line: the model assumes these calls return, so an `AsText` or `AsGml` exception on a non-null border, which the catch around the two saves would report as "not added", is not modelled.
- How `ReadLine` cuts the file into lines: the country file is given as its list of lines.
- `Int32Text.ParseInt32`: does not model the trailing null characters and culture-specific signs that `int.Parse` also accepts.
- Object identity: `ReferenceEquals` in `==` is not modelled separately, because a value is always within tolerance of itself.
- `FileReader.Countries`: the failure carries the index of the failing row, which the .NET exception does not.
