# MusicPortfolio library pipeline, modelled in Dafny

MusicPortfolio publishes a personal music library as a web page. It uses three pieces:

- **Metadata scanner** (`scripts/generate_csv.py`). It walks the FLAC and MP3 trees and keeps every file whose lower-cased name ends in that format's extension. It pairs the files by basename and writes one 13-column CSV row per basename. The metadata cells are read from the FLAC copy when there is one, and otherwise from the MP3 copy.
- **Converter** (`scripts/csv_to_json.py`). It reads the CSV back. It turns every non-empty `duration`, `bitrate` and `sample_rate` cell into an int. A cell that is not an integer literal aborts the run before the JSON file is opened.
- **Page script** (`src/scripts.js`). It shows up to three featured tracks. It also renders the tracks whose `featured` is falsy as cards, sorted by date, and re-sorts and re-renders them when the "Sort by" dropdown changes.

Modules:

- `Wrappers`: Option, Result, Outcome.
- `Rows`: Python dicts as ordered key/value sequences. Assigning to a present key keeps its position.
- `Decimal`: `str(int)` and `int(str)`.
- `GenerateCsv`: the scanner.
- `CsvToJson`: the converter.
- `LibraryView`: the page script.
- `Pipeline`: properties across the stages. The main one is that every table the scanner writes converts without error back to the scanner's rows, and that the resulting page has no featured tracks.

The scanner is written imperatively:

- a `for` loop per format fills the file index;
- a `while` loop over the set of basenames appends rows.

Each method is proved against a functional specification (`Index`, `MakeRow`). The converter's nested loop (`CsvToJson.Convert`) is proved equal to a fold (`ConvertAll`). That fold is in turn characterised cell by cell (`CoerceRowCells`). The page's state is the `LibraryView.Library` class. Its `normal` list is re-sorted in place by the change handler, and its card list is rebuilt by `RenderTracks`.

Inputs from outside each script are parameters:

- The directory walk: the sequence of (file name, path relative to the project root) pairs it reports for each format.
- The audio-tag library: a function from a path to optional bitrate, sample rate and length.
- The file-date lookup: a function from a path to an optional `YYYY-MM-DD` string.
- `new Date(...)` in the page: a function from a date string to an integer time stamp.

The scanner's per-format index is keyed by the full file name, not by the basename (`scripts/generate_csv.py:45`) and looks up `base + ".flac"` / `base + ".mp3"` exactly. The model follows the code. As a result, a lone `Song.FLAC` is collected but its row has both paths empty (`GenerateCsv.UpperCaseExtensionLosesPath`).

## Model

| member | source | states |
|---|---|---|
| Rows.Get | scripts/csv_to_json.py:23 | `d.get(k)` finds a value exactly when k is one of the dict's keys |
| Rows.Find | scripts/csv_to_json.py:23 | the position of the first pair with the key, or -1 exactly when no pair has it |
| Rows.Put | scripts/csv_to_json.py:24 | after `d[k] = v`, k maps to v and every other key keeps its value. The key sequence is unchanged when k was present (k keeps its position), else k is appended |
| Rows.FindUnique | scripts/csv_to_json.py:24 | with distinct keys, the only position holding k is the one lookup finds |
| Decimal.NatText | scripts/generate_csv.py:103 | the decimal text of a natural is non-empty, all digits, without a leading zero |
| Decimal.IntText | scripts/generate_csv.py:103 | the text of an int starts with '-' exactly when the int is negative |
| Decimal.ParseInt | scripts/csv_to_json.py:24 | `int(text)` succeeds exactly on an optional single sign followed by one or more digits. A '-' gives a non-positive value, anything else a non-negative one |
| Decimal.DigitsValue | scripts/csv_to_json.py:24 | the value of a digit string, most significant digit first. It is characterised by `NatTextValue`, `LeadingZerosValue` and `CanonicalDigits` |
| Decimal.NatTextValue | scripts/generate_csv.py:103 | the digits written for a natural read back as that natural |
| Decimal.ParseNatText | scripts/csv_to_json.py:24 | the decimal text of a natural parses back to it |
| Decimal.ParseNegText | scripts/csv_to_json.py:24 | "-" followed by the decimal text of a natural parses back to its negation |
| Decimal.ParseIntText | scripts/csv_to_json.py:24 | parsing the text the csv writer emits for an int gives the same int back |
| Decimal.LeadingZerosValue | scripts/csv_to_json.py:24 | zeros in front of a digit string do not change its value |
| Decimal.CanonicalDigits | scripts/csv_to_json.py:24 | a digit string without a leading zero is the decimal text of its own value |
| Decimal.DigitsForm | scripts/csv_to_json.py:24 | every non-empty digit string is some zeros followed by the decimal text of a natural |
| Decimal.ParseZeros | scripts/csv_to_json.py:24 | `int()` of zeros followed by the decimal text of n is n |
| Decimal.ParsePlusZeros | scripts/csv_to_json.py:24 | `int()` of "+", zeros and the decimal text of n is n |
| Decimal.ParseMinusZeros | scripts/csv_to_json.py:24 | `int()` of "-", zeros and the decimal text of n is -n |
| Decimal.ParseIntForms | scripts/csv_to_json.py:24 | every literal `int()` accepts is zeros and canonical digits with an optional sign, and its value is the one those forms give, so the value of every accepted literal is fixed |
| GenerateCsv.Collect | scripts/generate_csv.py:40-45 | the per-format loop over the walk builds exactly the index `Index` defines |
| GenerateCsv.HasFormat | scripts/generate_csv.py:43 | a file is kept for a format when its lower-cased name ends in "." and the format. It is characterised by `IndexKeys` |
| GenerateCsv.Index | scripts/generate_csv.py:40-45 | the per-format map after the walk: characterised by `IndexKeys`, `IndexLatest` and `IndexPairs` |
| GenerateCsv.IndexKeys | scripts/generate_csv.py:42-45 | a name is a key of the index exactly when the walk reported it and its lower-cased form ends in "." + the format |
| GenerateCsv.IndexLatest | scripts/generate_csv.py:45 | for a name reported several times, the path reported last is the one stored |
| GenerateCsv.IndexPairs | scripts/generate_csv.py:44-45 | every stored (name, path) pair was reported by the walk |
| GenerateCsv.Lower | scripts/generate_csv.py:43 | lower-casing keeps the length and maps each character on its own |
| GenerateCsv.SplitExt | scripts/generate_csv.py:49-50 | the root and the extension concatenate to the path. The extension is empty or a dot followed by no dot and no '/' |
| GenerateCsv.SplitKnownExt | scripts/generate_csv.py:49-50 | a name `b.ext` whose b has a non-dot character splits at that last dot, into b and ".ext" |
| GenerateCsv.Root | scripts/generate_csv.py:49-50 | `os.path.splitext(f)[0]`, characterised by `SplitExt`, `SplitKnownExt` and `RootIsPrefix` |
| GenerateCsv.FormatOf | scripts/generate_csv.py:68 | the extension without its dot, characterised by `ShapedPathFormat` and `RowFormat` |
| GenerateCsv.Basenames | scripts/generate_csv.py:48-51 | the names are exactly the roots of the keys of either index |
| GenerateCsv.Trunc | scripts/generate_csv.py:67 | `int()` of a float truncates toward zero |
| GenerateCsv.Kbps | scripts/generate_csv.py:65 | the kbps value is the bit rate divided by 1000, truncated toward zero |
| GenerateCsv.ReadMetadata | scripts/generate_csv.py:63-79 | when the tag read or the date lookup fails, all five derived cells are "". Otherwise the bitrate is the reported bitrate divided by 1000 and truncated, the sample rate is the reported one, the duration is the truncated length, each "" when the library does not report it, the format is the path's extension and the date is the looked-up one |
| GenerateCsv.Lookup | scripts/generate_csv.py:58-59 | `.get(name, "")` gives the stored path, or "" when the name is absent |
| GenerateCsv.SourcePath | scripts/generate_csv.py:62 | the FLAC path when it is non-empty, else the MP3 path |
| GenerateCsv.AsRow | scripts/generate_csv.py:80-94 | the appended dict has exactly the 13 column names, in column order |
| GenerateCsv.FieldsDistinct | scripts/generate_csv.py:27-31 | the 13 column names are pairwise different |
| GenerateCsv.FieldCells | scripts/generate_csv.py:101-103 | a row keyed by the columns answers each column name with the cell at that column's position |
| GenerateCsv.ColumnCell | scripts/generate_csv.py:80-94 | looking a column name up in the appended dict gives the cell at that column's position |
| GenerateCsv.AsRowNameCells | scripts/generate_csv.py:81-83 | the filename, title and artist keys hold those fields of the record |
| GenerateCsv.AsRowTagCells | scripts/generate_csv.py:84-86 | the movie, genre and date keys hold those fields of the record |
| GenerateCsv.AsRowAudioCells | scripts/generate_csv.py:87-89 | the duration, format and bitrate keys hold those fields of the record |
| GenerateCsv.AsRowPathCells | scripts/generate_csv.py:90-93 | the sample_rate, path_flac, path_mp3 and desc keys hold those fields of the record |
| GenerateCsv.AsRowShape | scripts/generate_csv.py:80-94 | only duration, bitrate and sample_rate can hold anything but a string |
| GenerateCsv.MakeRow | scripts/generate_csv.py:53-94 | filename and title are the basename, the artist is "Keshav Anand", and movie, genre and desc are "". The paths are the stored ones for exactly `base.flac` / `base.mp3`, else "". The derived cells come from the FLAC path if present, else the MP3 path, and are all "" when that read fails. Numeric cells are ints or "" |
| GenerateCsv.IndexShaped | scripts/generate_csv.py:44 | every indexed name is a bare file name and its path ends in "/" + name |
| GenerateCsv.BasenameShaped | scripts/generate_csv.py:48-51 | every basename of a walk-shaped index is a bare name with a non-dot character |
| GenerateCsv.RootIsPrefix | scripts/generate_csv.py:49-50 | a root is a prefix of its name, with no '/' when the name has none |
| GenerateCsv.ShapedPathFormat | scripts/generate_csv.py:68 | the extension of the path stored for `base.fmt` is fmt |
| GenerateCsv.MakeRowFormat | scripts/generate_csv.py:68-72 | when the read succeeds, the row's format is the extension of the path it was read from and its date is the file date |
| GenerateCsv.FlacRowFormat | scripts/generate_csv.py:58-68 | with a FLAC copy the FLAC path is non-empty, and a successful read gives format "flac" |
| GenerateCsv.Mp3RowFormat | scripts/generate_csv.py:58-68 | without a FLAC copy the FLAC path is "", and a successful read gives format "mp3" when there is an MP3 path, else "" |
| GenerateCsv.RowFormat | scripts/generate_csv.py:62-68 | when the read succeeds the row's format is "flac" if it has a FLAC path, else "mp3" if it has an MP3 path |
| GenerateCsv.ProgressStep | scripts/generate_csv.py:53 | handling one more remaining basename keeps the handled names distinct, and handled plus remaining is still exactly the set |
| GenerateCsv.BuildRows | scripts/generate_csv.py:53-94 | one row per basename, each basename exactly once, each row the one built for its basename |
| GenerateCsv.Generate | scripts/generate_csv.py:39-94 | the same, for the basenames of the two indexes built from the walk |
| GenerateCsv.Table | scripts/generate_csv.py:100-103 | the written table is the header line of the 13 columns followed by one 13-cell line per row |
| GenerateCsv.CellText | scripts/generate_csv.py:101-103 | what the csv writer puts in a cell: the string, or `str(n)` for an int. It is characterised by `Pipeline.CellRoundTrip` |
| GenerateCsv.Record | scripts/generate_csv.py:101-103 | one data line in column order, characterised by `Pipeline.RowRoundTrip` |
| GenerateCsv.UpperCaseExtensionLosesPath | scripts/generate_csv.py:43-59 | a lone `Song.FLAC` is indexed and gives basename `Song`, but its row has both paths "" |
| GenerateCsv.UpperCaseExtensionNoMetadata | scripts/generate_csv.py:62-79 | with both paths "" the read is of the project directory; when that read raises, the row's five derived cells are all "" |
| GenerateCsv.PairedFormats | scripts/generate_csv.py:48-59 | `song.flac` and `song.mp3` give the single basename `song` with both paths filled |
| GenerateCsv.OneEntryIndex | scripts/generate_csv.py:43-45 | a lower-case `base.flac` or `base.mp3` alone is indexed under its own name |
| CsvToJson.Lift | scripts/csv_to_json.py:19-20 | the reader's row keeps its keys and holds every cell as a string |
| CsvToJson.Truthy | scripts/csv_to_json.py:23 | the `row[key]` test: a non-empty string or a non-zero int. It is characterised by `CoerceFieldPresent` |
| CsvToJson.CellValue | scripts/csv_to_json.py:23-24 | the independent per-cell conversion: an empty or non-numeric cell stays a string, a numeric one becomes `int()` of its text or fails. It is the reference for `CoerceRowCells` |
| CsvToJson.CoerceFields | scripts/csv_to_json.py:22-24 | the inner loop over the given keys, stopping at the first failure. It is characterised by `CoerceFieldsPartial` and `CoerceFieldsFailure` |
| CsvToJson.CoerceRow | scripts/csv_to_json.py:20-25 | what one reader row becomes, characterised by `CoerceRowCells` |
| CsvToJson.ConvertAll | scripts/csv_to_json.py:18-25 | all rows in order or the first error, characterised by `ConvertAllRows` and `ConvertAllFailure` |
| CsvToJson.CoerceField | scripts/csv_to_json.py:23-24 | converting one column never changes the row's keys or their order |
| CsvToJson.CoerceFieldsFailure | scripts/csv_to_json.py:22-24 | once a column fails, the rest of the row's columns are not reached |
| CsvToJson.ConvertAllFailure | scripts/csv_to_json.py:20-24 | once a row fails, the later rows are not reached |
| CsvToJson.CoerceInPlace | scripts/csv_to_json.py:22-24 | the inner loop over the numeric keys computes exactly the row's conversion, stopping at the first invalid cell |
| CsvToJson.Convert | scripts/csv_to_json.py:18-25 | the read loop computes exactly the row-by-row fold, stopping at the first row that fails |
| CsvToJson.CoerceFieldStep | scripts/csv_to_json.py:23-24 | processing one numeric column fails exactly when its cell is non-empty and not a literal, and otherwise converts just that cell |
| CsvToJson.CoerceFieldPresent | scripts/csv_to_json.py:23-24 | the same, for a key the row holds: an empty cell is left as it is, a literal is replaced by its int, anything else fails |
| CsvToJson.CoerceFieldsPartial | scripts/csv_to_json.py:22-24 | after the first j numeric columns, the row succeeded exactly when those cells were empty or literals, and those cells (only those) are converted |
| CsvToJson.CoerceRowCells | scripts/csv_to_json.py:20-25 | a row converts exactly when every numeric cell is empty or an integer literal. Every other cell keeps its string, empty numeric cells stay "", and the keys keep their order |
| CsvToJson.IntCell | scripts/csv_to_json.py:23-24 | a numeric column holding the decimal text of any int converts to that int |
| CsvToJson.NumericSpecimen | scripts/csv_to_json.py:22-24 | duration 245, bitrate 320 and sample_rate 44100 become those ints |
| CsvToJson.EmptySpecimen | scripts/csv_to_json.py:23 | an empty duration stays "" and is not turned into 0 |
| CsvToJson.InvalidSpecimen | scripts/csv_to_json.py:24 | a bitrate of "N/A" fails its row and with it the whole run |
| CsvToJson.ConvertAllSucceeds | scripts/csv_to_json.py:20-24 | the run succeeds exactly when every row converts |
| CsvToJson.ConvertAllValues | scripts/csv_to_json.py:20-25 | a successful run yields one converted row per input row, in input order |
| CsvToJson.ConvertAllRows | scripts/csv_to_json.py:20-25 | the run succeeds exactly when every row converts, and then yields the rows in input order |
| CsvToJson.JsonFile.constructor | scripts/csv_to_json.py:28 | before the run no document has been written |
| CsvToJson.Export | scripts/csv_to_json.py:15-29 | on a conversion error the file is left untouched and the error is reported. Otherwise the file holds the converted rows |
| LibraryView.Filter | src/scripts.js:8-9 | the filter keeps at most the input's elements, each satisfying the predicate |
| LibraryView.FilterOne | src/scripts.js:8-9 | a single element is kept exactly when it satisfies the predicate |
| LibraryView.FilterAppend | src/scripts.js:8-9 | filtering a concatenation is the concatenation of the filtered parts, so the kept elements stay in input order |
| LibraryView.FilterSplit | src/scripts.js:8-9 | the truthy-featured and the falsy-featured filters together hold every track exactly once |
| LibraryView.FilterAll | src/scripts.js:9 | filtering keeps every element when all satisfy the predicate |
| LibraryView.FilterNone | src/scripts.js:8 | filtering keeps nothing when no element satisfies the predicate |
| LibraryView.Truthy | src/scripts.js:8-9 | JavaScript truthiness of a `featured` value. It is characterised by `SelectionLists` and `FalseStringIsFeatured` |
| LibraryView.FeaturedTracks | src/scripts.js:8 | `data.filter(t => t.featured).slice(0, 3)`, characterised by `SelectionBound`, `SelectionLists`, `FilterOne` and `FilterAppend` |
| LibraryView.NormalTracks | src/scripts.js:9 | `data.filter(t => !t.featured)`, characterised by `SelectionLists`, `SelectionPartition`, `FilterOne` and `FilterAppend` |
| LibraryView.SelectionBound | src/scripts.js:8 | the featured list is the first min(3, n) of the n truthy-featured tracks, in input order |
| LibraryView.SelectionLists | src/scripts.js:8-9 | featured tracks are truthy-featured, normal tracks falsy-featured |
| LibraryView.SelectionPartition | src/scripts.js:8-9 | featured, normal and the featured tracks past the third together are exactly the input tracks |
| LibraryView.FalseStringIsFeatured | src/scripts.js:8 | a `featured` of "false" is truthy, so the track is featured |
| LibraryView.Heading | src/scripts.js:42-44 | the heading starts with the title. It is the bare title when there is no movie, else three characters longer: the title, " (", the movie and ")" |
| LibraryView.Join | src/scripts.js:52 | `parts.join(sep)`. It is characterised by `JoinNonEmpty` and `MetaFull` |
| LibraryView.NonEmpty | src/scripts.js:52 | `filter(Boolean)` keeps only non-empty strings |
| LibraryView.NonEmptyOne | src/scripts.js:52 | `filter(Boolean)` keeps a single string exactly when it is non-empty |
| LibraryView.NonEmptyTriple | src/scripts.js:52 | `filter(Boolean)` on three strings filters each one in place |
| LibraryView.Meta | src/scripts.js:48-52 | the meta line, characterised by `MetaParts`, `MetaEmpty` and `MetaFull` |
| LibraryView.MetaParts | src/scripts.js:48-52 | pushing desc and date only when truthy and then filtering is the same as filtering genre, desc and date, in that order, joined by " \| " |
| LibraryView.MetaEmpty | src/scripts.js:48-52 | the meta line is empty exactly when genre, desc and date all are |
| LibraryView.MetaFull | src/scripts.js:48-52 | with all three present the meta line is genre, desc and date separated by " \| " |
| LibraryView.Src | src/scripts.js:58 | the MP3 path when non-empty, else the FLAC path. Empty exactly when both are |
| LibraryView.CardOf | src/scripts.js:89-104 | a card holds the heading, the meta line and the audio source. It is characterised by `Heading`, `Meta` and `Src` |
| LibraryView.MakeCards | src/scripts.js:85-108 | one card per track, in array order |
| LibraryView.Insert | src/scripts.js:112 | inserting adds exactly the one element |
| LibraryView.SortBy | src/scripts.js:112 | sorting is a permutation |
| LibraryView.InsertLowerBound | src/scripts.js:112 | a lower bound of the inserted element and of the list bounds the result |
| LibraryView.InsertSorted | src/scripts.js:112 | inserting into an ordered list keeps it ordered |
| LibraryView.SortBySorted | src/scripts.js:112-120 | the sort gives an ordered permutation of its input |
| LibraryView.SortBySortedInput | src/scripts.js:116-121 | sorting an already ordered list leaves it unchanged |
| LibraryView.InsertTies | src/scripts.js:112 | among the tracks with one key, the inserted track comes first and the others keep their order |
| LibraryView.SortByStable | src/scripts.js:112-120 | the sort is stable: the tracks with any one key keep their input order |
| LibraryView.Newest | src/scripts.js:112-118 | the comparator `new Date(b.date) - new Date(a.date)` as an ascending key. It is characterised by `DateOrders` |
| LibraryView.Oldest | src/scripts.js:120 | the comparator `new Date(a.date) - new Date(b.date)` as an ascending key. It is characterised by `DateOrders` |
| LibraryView.DateOrders | src/scripts.js:112-120 | "recent" orders by non-increasing date and "oldest" by non-decreasing date, and both are permutations |
| LibraryView.Library.constructor | src/scripts.js:8-113 | the featured section exists exactly when there is a featured track, with one card per featured track. The list is the normal tracks sorted most recent first, rendered one card each |
| LibraryView.Library.Render | src/scripts.js:12-113 | the first render: the featured section with one card per featured track, then one card per normal track |
| LibraryView.Library.RenderFeatured | src/scripts.js:12-65 | the featured section exists exactly when there is a featured track, with one card per featured track, in order |
| LibraryView.Library.RenderTracks | src/scripts.js:83-109 | the container is rebuilt with exactly one card per listed track, in list order |
| LibraryView.Library.OnSortChange | src/scripts.js:116-123 | "recent" and "oldest" re-sort, and any other value leaves the order unchanged. The list stays a permutation of the loaded normal tracks and is re-rendered |
| Pipeline.ReadLine | scripts/csv_to_json.py:19-20 | a read line is keyed by the header, cell by cell |
| Pipeline.ReadTable | scripts/csv_to_json.py:19-20 | one row per line after the header, each keyed by the header |
| Pipeline.NumericColumns | scripts/csv_to_json.py:22 | the converted columns are exactly the scanner's columns 6, 8 and 9 |
| Pipeline.CellRoundTrip | scripts/csv_to_json.py:24 | every cell the scanner writes reads back as itself |
| Pipeline.RowRoundTrip | scripts/csv_to_json.py:20-25 | a written line, read back and converted, is the scanner's row again |
| Pipeline.TableRoundTrip | scripts/csv_to_json.py:18-25 | every table the scanner writes converts without error to exactly the scanner's rows, in order |
| Pipeline.Publish | scripts/generate_csv.py:35-103 | the scan followed by the conversion always succeeds and writes exactly the scanned rows |
| Pipeline.TrackOfRow | src/scripts.js:8 | the page sees each scanned row's text fields, and `featured` is undefined |
| Pipeline.TextOf | src/scripts.js:42-58 | a property used as text: a string as it is, an int in decimal, a missing key as "". It is characterised by `TrackOfRow` |
| Pipeline.FeaturedOf | src/scripts.js:8-9 | the `featured` property, undefined when missing. It is characterised by `PublishedNothingFeatured` |
| Pipeline.ToTrack | src/scripts.js:8-104 | a JSON object as the page reads it, characterised by `TrackOfRow` |
| Pipeline.NoFeaturedColumn | scripts/generate_csv.py:27-31 | a scanned row has no `featured` key |
| Pipeline.PublishedNothingFeatured | src/scripts.js:8-12 | a freshly published document has no featured tracks, and every track is in the sorted list |
| Pipeline.PlayerPrefersMp3 | src/scripts.js:104 | the page plays the MP3 copy when there is one, while the row's date, format, bitrate, sample rate and duration all come from the one read of the FLAC copy when there is one |

## Left out

- `convert_audio.py` at the repository root, the transcoder front end, is not part of this model.
- The directory walk, `os.path.relpath`, `os.path.join` with the project root and backslash replacement are not modelled. The walk is an input: the (name, relative path) pairs in the order reported.
- The audio-tag library and `os.path.getctime` with `strftime` are oracles. Their exceptions are a `None` result, and `hasattr` misses are absent fields.
- When a basename has neither path, the source reads the project directory itself, which always raises. The model leaves that read to the tag-library oracle, and `GenerateCsv.UpperCaseExtensionNoMetadata` states the row for the case where it raises.
- GenerateCsv.Trunc: a float length of NaN or infinity (which raise in Python) is not modelled. The length is a real.
- GenerateCsv.Kbps: the bit rate is divided as an integer, not as a float then truncated. The two agree below 2^53.
- GenerateCsv.Lower: only ASCII letters are lower-cased.
- Python set iteration order is modelled as an unspecified choice, so no row order is claimed.
- The CSV writer's quoting and the reader's unquoting are treated as lossless. `Pipeline.ReadTable` keys each line by the header and assumes every line has the header's width.
- The reader's skipping of blank lines is not modelled. No written line is blank, because the artist cell is never empty.
- Decimal.ParseInt: does not accept the surrounding whitespace, the digit-group underscores or the non-ASCII Unicode decimal digits (such as Arabic-Indic digits) that Python's `int()` also accepts. The scanner never writes them.
- `json.dump`, the `fetch` and `response.json()` calls, and the console messages are not modelled. The JSON document is the converted row sequence.
- The DOM, CSS styles and the element tree are not modelled. A card is reduced to the text of its heading, its meta line and its audio source.
- Pipeline.TextOf: a key missing in the JSON object is read as "" (JavaScript would print "undefined" in a title). Every scanned row has all 13 keys, so this does not arise for a published document.
- LibraryView.JsValue: NaN, Infinity, arrays and objects as `featured` values are not modelled.
- `new Date(...)` is an oracle from the date text to an integer time stamp. An invalid date (NaN in the comparator) is not modelled.
- LibraryView.SortBy: is a stable insertion sort, proved ordered, a permutation and stable (`SortByStable`). It is not proved that these three facts determine the result, that is, that every stable sort gives the same list.
