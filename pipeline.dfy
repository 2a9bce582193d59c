/**
 * The three stages run one after the other: the scanner writes the table, the
 * converter reads it back and writes the JSON document, and the page loads that
 * document as its track list.
 */
module Pipeline {
  import opened Wrappers
  import opened Rows
  import Decimal
  import opened GenerateCsv
  import CsvToJson
  import LibraryView

  // ---------------------------------------------------------------------------
  // Reading the table back

  /** `csv.DictReader` on one line whose width is the header's: each cell keyed by its column. */
  function ReadLine(header: seq<string>, line: seq<string>): (r: CsvToJson.TextRow)
    requires |line| == |header|
    ensures Keys(r) == header
    ensures forall i :: 0 <= i < |header| ==> r[i] == (header[i], line[i])
  {
    seq(|header|, i requires 0 <= i < |header| => (header[i], line[i]))
  }

  /** `csv.DictReader` on a table: the first line names the columns, the others are the rows. */
  function ReadTable(t: seq<seq<string>>): (rows: seq<CsvToJson.TextRow>)
    requires |t| >= 1 && forall i :: 0 <= i < |t| ==> |t[i]| == |t[0]|
    ensures |rows| == |t| - 1
    ensures forall i :: 0 <= i < |rows| ==> Keys(rows[i]) == t[0]
  {
    seq(|t| - 1, i requires 0 <= i < |t| - 1 => ReadLine(t[0], t[i + 1]))
  }

  /** The converter's numeric columns are the scanner's duration, bitrate and sample rate columns. */
  lemma NumericColumns()
    ensures CsvToJson.NUMERIC_FIELDS == [FIELDS[6], FIELDS[8], FIELDS[9]]
    ensures forall i :: 0 <= i < |FIELDS| ==> (FIELDS[i] in CsvToJson.NUMERIC_FIELDS <==> i == 6 || i == 8 || i == 9)
  {
    FieldsDistinct();
  }

  /** A written cell reads back as itself: an int as its decimal text, a string untouched. */
  lemma CellRoundTrip(t: TrackRow, i: nat)
    requires WellTyped(t) && i < |FIELDS|
    ensures var c := AsRow(t)[i];
      CsvToJson.CellValue(c.0, CellText(c.1)) == Success(c.1)
  {
    var c := AsRow(t)[i];
    assert c.0 == FIELDS[i];
    NumericColumns();
    AsRowShape(t);
    if c.1.Int? {
      CsvToJson.IntCell(c.0, c.1.n);
    }
  }

  /** One written line, read back and converted, is the scanner's row again. */
  lemma RowRoundTrip(t: TrackRow)
    requires WellTyped(t)
    ensures CsvToJson.CoerceRow(ReadLine(FIELDS, Record(AsRow(t)))) == Success(AsRow(t))
  {
    var r := AsRow(t);
    FieldCells(r);
    var line := Record(r);
    assert forall i :: 0 <= i < |FIELDS| ==> line[i] == CellText(r[i].1);
    var tr := ReadLine(FIELDS, line);
    FieldsDistinct();
    assert DistinctKeys(tr);
    forall i | 0 <= i < |tr|
      ensures CsvToJson.CellOk(tr[i]) && CsvToJson.CellValue(tr[i].0, tr[i].1).value == r[i].1
    {
      CellRoundTrip(t, i);
    }
    CsvToJson.CoerceRowCells(tr);
    assert CsvToJson.Expected(tr) == r;
  }

  /** The rows as the Python dicts the scanner holds. */
  function Dicts(rows: seq<TrackRow>): (ds: seq<Row>)
    ensures |ds| == |rows| && forall i :: 0 <= i < |rows| ==> ds[i] == AsRow(rows[i])
  {
    seq(|rows|, i requires 0 <= i < |rows| => AsRow(rows[i]))
  }

  /**
   * Table round trip: whatever rows the scanner writes, the converter reads them
   * back without error, in order, with every int column an int again and every
   * other cell the string that was written.
   */
  lemma TableRoundTrip(rows: seq<TrackRow>)
    requires forall i :: 0 <= i < |rows| ==> WellTyped(rows[i])
    ensures CsvToJson.ConvertAll(ReadTable(Table(rows))) == Success(Dicts(rows))
  {
    var t := Table(rows);
    var read := ReadTable(t);
    assert |read| == |rows|;
    forall i | 0 <= i < |rows| ensures CsvToJson.CoerceRow(read[i]) == Success(AsRow(rows[i])) {
      assert read[i] == ReadLine(t[0], t[i + 1]);
      assert t[i + 1] == Record(AsRow(rows[i]));
      RowRoundTrip(rows[i]);
    }
    CsvToJson.ConvertAllRows(read);
    var out := CsvToJson.ConvertAll(read).value;
    assert out == Dicts(rows);
  }

  /** Both scripts in sequence: the scan, then the conversion of the table it wrote. */
  method Publish(flacEntries: seq<Entry>, mp3Entries: seq<Entry>, read: Reader, clock: Clock,
                 out: CsvToJson.JsonFile)
    returns (rows: seq<TrackRow>, status: Outcome<CsvToJson.Error>)
    modifies out
    ensures var flac := Index(flacEntries, FLAC);
      var mp3 := Index(mp3Entries, MP3);
      && |rows| == |Basenames(flac, mp3)|
      && forall i :: 0 <= i < |rows| ==> rows[i] == MakeRow(rows[i].filename, flac, mp3, read, clock)
    ensures status == Pass && out.document == Some(Dicts(rows))
  {
    rows := Generate(flacEntries, mp3Entries, read, clock);
    assert forall i :: 0 <= i < |rows| ==> WellTyped(rows[i]);
    TableRoundTrip(rows);
    status := CsvToJson.Export(ReadTable(Table(rows)), out);
  }

  // ---------------------------------------------------------------------------
  // Loading the document in the page

  /** A property used as text: a string as is, an int in decimal, a missing key as "". */
  function TextOf(v: Option<Value>): string {
    if v.None? then "" else if v.value.Str? then v.value.s else Decimal.IntText(v.value.n)
  }

  /** The `featured` property: undefined when the key is missing. */
  function FeaturedOf(v: Option<Value>): LibraryView.JsValue {
    if v.None? then LibraryView.Undefined
    else if v.value.Str? then LibraryView.Text(v.value.s)
    else LibraryView.Number(v.value.n)
  }

  /** A JSON object as the page reads it. */
  function ToTrack(row: Row): LibraryView.Track {
    LibraryView.Track(
      TextOf(Get(row, "title")), TextOf(Get(row, "movie")), TextOf(Get(row, "genre")),
      TextOf(Get(row, "desc")), TextOf(Get(row, "date")), TextOf(Get(row, "path_mp3")),
      TextOf(Get(row, "path_flac")), FeaturedOf(Get(row, "featured")))
  }

  /** A scanned row seen by the page: its own text fields, and no `featured` key. */
  lemma TrackOfRow(t: TrackRow)
    ensures ToTrack(AsRow(t)) ==
      LibraryView.Track(t.title, t.movie, t.genre, t.desc, t.date, t.pathMp3, t.pathFlac, LibraryView.Undefined)
  {
    AsRowNameCells(t);
    AsRowTagCells(t);
    AsRowAudioCells(t);
    AsRowPathCells(t);
    NoFeaturedColumn(t);
  }

  lemma NoFeaturedColumn(t: TrackRow)
    ensures Get(AsRow(t), "featured") == None
  {
    assert "featured" !in FIELDS;
  }

  /**
   * The scanner never writes a `featured` column, so a document straight from the
   * pipeline gives an empty featured section and every track in the list.
   */
  lemma PublishedNothingFeatured(rows: seq<TrackRow>)
    ensures var tracks := seq(|rows|, i requires 0 <= i < |rows| => ToTrack(AsRow(rows[i])));
      LibraryView.FeaturedTracks(tracks) == [] && LibraryView.NormalTracks(tracks) == tracks
  {
    var tracks := seq(|rows|, i requires 0 <= i < |rows| => ToTrack(AsRow(rows[i])));
    forall i | 0 <= i < |tracks| ensures !LibraryView.IsFeatured(tracks[i]) {
      TrackOfRow(rows[i]);
    }
    LibraryView.FilterNone(tracks, LibraryView.IsFeatured);
    LibraryView.FilterAll(tracks, LibraryView.IsNormal);
  }

  /**
   * For a basename present in both formats the page plays the MP3 copy, while the
   * scanner read the row's metadata from the FLAC copy.
   */
  lemma PlayerPrefersMp3(base: string, flac: map<string, string>, mp3: map<string, string>,
                         read: Reader, clock: Clock)
    ensures var t := MakeRow(base, flac, mp3, read, clock);
      && LibraryView.Src(ToTrack(AsRow(t))) == (if t.pathMp3 != "" then t.pathMp3 else t.pathFlac)
      && var m := ReadMetadata(if t.pathFlac != "" then t.pathFlac else t.pathMp3, read, clock);
      && t.date == m.date && t.format == m.format && t.bitrate == m.bitrate
      && t.sampleRate == m.sampleRate && t.duration == m.duration
  {
    TrackOfRow(MakeRow(base, flac, mp3, read, clock));
  }
}
