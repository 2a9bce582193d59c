/**
 * The metadata scanner: pairs the files of the FLAC and MP3 trees by basename and
 * builds one 13-column row per basename.  The directory walk is given as the
 * sequence of (file name, path relative to the project root) pairs it reports, per
 * format; the audio-tag library and the file-date lookup are oracles.
 */
module GenerateCsv {
  import opened Wrappers
  import opened Rows
  import Decimal

  /** The CSV columns, in the order they are written. */
  const FIELDS: seq<string> := [
    "filename", "title", "artist", "movie", "genre", "date",
    "duration", "format", "bitrate", "sample_rate",
    "path_flac", "path_mp3", "desc"
  ]

  const DEFAULT_ARTIST: string := "Keshav Anand"

  /** The two scanned formats; each also names its file extension. */
  const FLAC: string := "flac"
  const MP3: string := "mp3"

  /** One file reported by the walk: its name and its path relative to the project root. */
  type Entry = (string, string)

  // ---------------------------------------------------------------------------
  // Collecting the files of one format

  /** ASCII lower-casing (no upper-case letter outside ASCII lower-cases to a letter of "flac" or "mp3"). */
  function LowerChar(c: char): char {
    if 'A' <= c <= 'Z' then (c as int + 32) as char else c
  }

  function Lower(s: string): (r: string)
    ensures |r| == |s| && forall i :: 0 <= i < |s| ==> r[i] == LowerChar(s[i])
  {
    seq(|s|, i requires 0 <= i < |s| => LowerChar(s[i]))
  }

  predicate EndsWith(s: string, suffix: string) {
    |suffix| <= |s| && s[|s| - |suffix|..] == suffix
  }

  /** The walk keeps a file for format fmt when its lower-cased name ends in "." + fmt. */
  predicate HasFormat(name: string, fmt: string) {
    EndsWith(Lower(name), "." + fmt)
  }

  /** The map from file name to relative path after the walk reported entries, in order. */
  function Index(entries: seq<Entry>, fmt: string): map<string, string>
    decreases |entries|
  {
    if entries == [] then map[]
    else
      var m := Index(entries[..|entries| - 1], fmt);
      var e := entries[|entries| - 1];
      if HasFormat(e.0, fmt) then m[e.0 := e.1] else m
  }

  /** Fills the per-format map in walk order; a later file of the same name overwrites the earlier one. */
  method Collect(entries: seq<Entry>, fmt: string) returns (index: map<string, string>)
    ensures index == Index(entries, fmt)
  {
    index := map[];
    for i := 0 to |entries|
      invariant index == Index(entries[..i], fmt)
    {
      assert entries[..i + 1][..i] == entries[..i];
      var (name, path) := entries[i];
      if HasFormat(name, fmt) {
        index := index[name := path];
      }
    }
    assert entries[..|entries|] == entries;
  }

  /** A name is a key exactly when the walk reported it and it has the format's extension. */
  lemma {:induction false} IndexKeys(entries: seq<Entry>, fmt: string, k: string)
    ensures k in Index(entries, fmt) <==>
      HasFormat(k, fmt) && exists i :: 0 <= i < |entries| && entries[i].0 == k
    decreases |entries|
  {
    if entries != [] {
      var init := entries[..|entries| - 1];
      IndexKeys(init, fmt, k);
      if k in Index(entries, fmt) && k !in Index(init, fmt) {
        assert entries[|entries| - 1].0 == k;
      }
      if HasFormat(k, fmt) && (exists i :: 0 <= i < |entries| && entries[i].0 == k) {
        var i :| 0 <= i < |entries| && entries[i].0 == k;
        if i < |entries| - 1 {
          assert init[i].0 == k;
        }
      }
    }
  }

  /** The stored path is that of the last reported file with that name. */
  lemma {:induction false} IndexLatest(entries: seq<Entry>, fmt: string, i: nat)
    requires i < |entries| && HasFormat(entries[i].0, fmt)
    requires forall j :: i < j < |entries| ==> entries[j].0 != entries[i].0
    ensures entries[i].0 in Index(entries, fmt)
    ensures Index(entries, fmt)[entries[i].0] == entries[i].1
    decreases |entries|
  {
    if i < |entries| - 1 {
      var init := entries[..|entries| - 1];
      IndexLatest(init, fmt, i);
    }
  }

  /** Every stored pair is a pair the walk reported. */
  lemma {:induction false} IndexPairs(entries: seq<Entry>, fmt: string, k: string)
    requires k in Index(entries, fmt)
    ensures exists i :: 0 <= i < |entries| && entries[i] == (k, Index(entries, fmt)[k])
    decreases |entries|
  {
    var init := entries[..|entries| - 1];
    if k != entries[|entries| - 1].0 || !HasFormat(k, fmt) {
      IndexPairs(init, fmt, k);
      var i :| 0 <= i < |init| && init[i] == (k, Index(init, fmt)[k]);
      assert entries[i] == init[i];
    }
  }

  // ---------------------------------------------------------------------------
  // Basenames and extensions

  /** The position of the last occurrence of c in s, or -1. */
  function LastIndexOf(s: string, c: char): (i: int)
    ensures -1 <= i < |s|
    ensures i >= 0 ==> s[i] == c
    ensures forall j :: i < j < |s| ==> s[j] != c
  {
    if s == [] then -1
    else if s[|s| - 1] == c then |s| - 1
    else LastIndexOf(s[..|s| - 1], c)
  }

  /**
   * `os.path.splitext(p)` on POSIX: the extension starts at the last dot after the
   * last slash, unless only dots precede that dot in the last path component.
   */
  function SplitExt(p: string): (r: (string, string))
    ensures r.0 + r.1 == p
    ensures r.1 == "" || (r.1[0] == '.' && '.' !in r.1[1..] && '/' !in r.1)
  {
    var sep := LastIndexOf(p, '/');
    var dot := LastIndexOf(p, '.');
    if dot > sep && exists k :: sep < k < dot && p[k] != '.' then
      (p[..dot], p[dot..])
    else
      (p, "")
  }

  /** `os.path.splitext(name)[0]`. */
  function Root(name: string): string {
    SplitExt(name).0
  }

  /** `os.path.splitext(path)[1][1:]`: the extension without its dot. */
  function FormatOf(path: string): string {
    var ext := SplitExt(path).1;
    if ext == "" then "" else ext[1..]
  }

  /** The union of the basenames of both maps. */
  function Basenames(flac: map<string, string>, mp3: map<string, string>): (names: set<string>)
    ensures forall b :: b in names <==>
      (exists k :: k in flac && Root(k) == b) || (exists k :: k in mp3 && Root(k) == b)
  {
    (set k | k in flac :: Root(k)) + (set k | k in mp3 :: Root(k))
  }

  predicate HasNonDot(s: string) {
    exists i :: 0 <= i < |s| && s[i] != '.'
  }

  /** A path ending in a name with a non-dot character, a dot and an extension splits before that dot. */
  lemma SplitKnownExt(dir: string, b: string, ext: string)
    requires '/' !in b && HasNonDot(b)
    requires '.' !in ext && '/' !in ext
    ensures SplitExt(dir + b + "." + ext) == (dir + b, "." + ext)
  {
    var p := dir + b + "." + ext;
    var dot := |dir| + |b|;
    assert p[dot] == '.';
    assert forall j :: dot < j < |p| ==> p[j] == ext[j - dot - 1];
    assert forall j :: dot < j < |p| ==> p[j] != '.';
    assert LastIndexOf(p, '.') == dot;
    var sep := LastIndexOf(p, '/');
    assert forall j :: |dir| <= j < |p| ==> p[j] != '/' by {
      forall j | |dir| <= j < |p| ensures p[j] != '/' {
        if j < dot { assert p[j] == b[j - |dir|]; }
        else if j > dot { assert p[j] == ext[j - dot - 1]; }
      }
    }
    assert sep < |dir|;
    var i :| 0 <= i < |b| && b[i] != '.';
    assert p[|dir| + i] == b[i];
    assert sep < |dir| + i < dot && p[|dir| + i] != '.';
    assert p[..dot] == dir + b;
    assert p[dot..] == "." + ext;
  }

  /** Every basename contains a character other than a dot (its file name ends in ".flac" or ".mp3"). */
  lemma RootHasNonDot(k: string, fmt: string)
    requires HasFormat(k, fmt) && HasNonDot(fmt)
    ensures HasNonDot(Root(k))
  {
    var p := SplitExt(k);
    var sep := LastIndexOf(k, '/');
    var dot := LastIndexOf(k, '.');
    if dot > sep && exists j :: sep < j < dot && k[j] != '.' {
      var j :| sep < j < dot && k[j] != '.';
      assert p.0[j] == k[j];
    } else {
      var i :| 0 <= i < |fmt| && fmt[i] != '.';
      var j := |k| - |fmt| + i;
      assert Lower(k)[j] == fmt[i];
      assert k[j] != '.';
    }
  }

  // ---------------------------------------------------------------------------
  // Reading the audio metadata

  /** What the tag library reports: each attribute may be missing. */
  datatype AudioInfo = AudioInfo(bitrate: Option<int>, sampleRate: Option<int>, length: Option<real>)

  /** The tag library on a relative path: None when it raises or recognises no audio format. */
  type Reader = string -> Option<AudioInfo>

  /** The creation date of a file as YYYY-MM-DD: None when the lookup raises. */
  type Clock = string -> Option<string>

  /** The five derived cells of a row. */
  datatype Metadata = Metadata(bitrate: Value, sampleRate: Value, duration: Value, format: string, date: string)

  const NO_METADATA: Metadata := Metadata(Str(""), Str(""), Str(""), "", "")

  /** Python's `int(x)` for a float: truncation toward zero. */
  function Trunc(x: real): (n: int)
    ensures x >= 0.0 ==> n >= 0 && n as real <= x < n as real + 1.0
    ensures x < 0.0 ==> n <= 0 && n as real - 1.0 < x <= n as real
  {
    if x >= 0.0 then x.Floor else -((-x).Floor)
  }

  /** `int(b / 1000)`: the quotient truncated toward zero. */
  function Kbps(b: int): (k: int)
    ensures b >= 0 ==> k == b / 1000
    ensures b < 0 ==> k == -((-b) / 1000)
  {
    if b >= 0 then b / 1000 else -((-b) / 1000)
  }

  /** The body of the `try` block: every step must succeed, else all five cells are "". */
  function ReadMetadata(path: string, read: Reader, clock: Clock): (m: Metadata)
    ensures read(path).None? || clock(path).None? ==> m == NO_METADATA
    ensures read(path).Some? && clock(path).Some? ==>
      var info := read(path).value;
      && m.bitrate == (if info.bitrate.Some? then Int(Kbps(info.bitrate.value)) else Str(""))
      && m.sampleRate == (if info.sampleRate.Some? then Int(info.sampleRate.value) else Str(""))
      && m.duration == (if info.length.Some? then Int(Trunc(info.length.value)) else Str(""))
      && m.format == FormatOf(path)
      && m.date == clock(path).value
  {
    match read(path)
    case None => NO_METADATA
    case Some(info) =>
      match clock(path)
      case None => NO_METADATA
      case Some(date) =>
        Metadata(
          match info.bitrate case Some(b) => Int(Kbps(b)) case None => Str(""),
          match info.sampleRate case Some(s) => Int(s) case None => Str(""),
          match info.length case Some(l) => Int(Trunc(l)) case None => Str(""),
          FormatOf(path),
          date)
  }

  /** `files_dict[fmt].get(name, "")`. */
  function Lookup(m: map<string, string>, name: string): (path: string)
    ensures name in m ==> path == m[name]
    ensures name !in m ==> path == ""
  {
    if name in m then m[name] else ""
  }

  /** `path_flac or path_mp3`: the metadata is read from the FLAC copy whenever there is one. */
  function SourcePath(pathFlac: string, pathMp3: string): (p: string)
    ensures pathFlac != "" ==> p == pathFlac
    ensures pathFlac == "" ==> p == pathMp3
  {
    if pathFlac != "" then pathFlac else pathMp3
  }

  // ---------------------------------------------------------------------------
  // Building the rows

  /** The row appended for one basename: the dict literal of the source, field by field. */
  datatype TrackRow = TrackRow(
    filename: string, title: string, artist: string, movie: string, genre: string,
    date: string, duration: Value, format: string, bitrate: Value, sampleRate: Value,
    pathFlac: string, pathMp3: string, desc: string)

  /** A row holding the given cells under the columns of FIELDS, in order. */
  function Layout(cells: seq<Value>): (r: Row)
    requires |cells| == |FIELDS|
    ensures Keys(r) == FIELDS
    ensures forall i :: 0 <= i < |FIELDS| ==> r[i] == (FIELDS[i], cells[i])
  {
    seq(|FIELDS|, i requires 0 <= i < |FIELDS| => (FIELDS[i], cells[i]))
  }

  /** The row as the Python dict it is: exactly the keys of FIELDS, in that order. */
  function AsRow(t: TrackRow): (r: Row)
    ensures Keys(r) == FIELDS
  {
    Layout([
      Str(t.filename), Str(t.title), Str(t.artist), Str(t.movie), Str(t.genre), Str(t.date),
      t.duration, Str(t.format), t.bitrate, t.sampleRate,
      Str(t.pathFlac), Str(t.pathMp3), Str(t.desc)
    ])
  }

  /** The thirteen column names are pairwise different. */
  lemma FieldsDistinct()
    ensures forall i, j :: 0 <= i < j < |FIELDS| ==> FIELDS[i] != FIELDS[j]
  {
    forall i, j | 0 <= i < j < |FIELDS| ensures FIELDS[i] != FIELDS[j] {
      assert i == 0 || i == 1 || i == 2 || i == 3 || i == 4 || i == 5 || i == 6 || i == 7
        || i == 8 || i == 9 || i == 10 || i == 11;
      assert 1 <= j <= 12;
    }
  }

  /** A row keyed by FIELDS answers each column with the cell at that column's position. */
  lemma FieldCells(r: Row)
    requires Keys(r) == FIELDS
    ensures DistinctKeys(r)
    ensures forall i :: 0 <= i < |FIELDS| ==> Get(r, FIELDS[i]) == Some(r[i].1)
  {
    FieldsDistinct();
    assert forall i :: 0 <= i < |r| ==> r[i].0 == FIELDS[i];
    forall i | 0 <= i < |FIELDS| ensures Get(r, FIELDS[i]) == Some(r[i].1) {
      GetAt(r, i);
    }
  }

  /** Looking a column name up in the appended dict gives the cell at that column's position. */
  lemma ColumnCell(t: TrackRow, i: nat, name: string)
    requires i < |FIELDS| && name == FIELDS[i]
    ensures Get(AsRow(t), name) == Some(AsRow(t)[i].1)
  {
    FieldCells(AsRow(t));
  }

  /** The filename, title and artist keys hold those fields of the record. */
  lemma AsRowNameCells(t: TrackRow)
    ensures var r := AsRow(t);
      Get(r, "filename") == Some(Str(t.filename)) && Get(r, "title") == Some(Str(t.title)) && Get(r, "artist") == Some(Str(t.artist))
  {
    ColumnCell(t, 0, "filename");
    ColumnCell(t, 1, "title");
    ColumnCell(t, 2, "artist");
  }

  /** The movie, genre and date keys hold those fields of the record. */
  lemma AsRowTagCells(t: TrackRow)
    ensures var r := AsRow(t);
      Get(r, "movie") == Some(Str(t.movie)) && Get(r, "genre") == Some(Str(t.genre)) && Get(r, "date") == Some(Str(t.date))
  {
    ColumnCell(t, 3, "movie");
    ColumnCell(t, 4, "genre");
    ColumnCell(t, 5, "date");
  }

  /** The duration, format and bitrate keys hold those fields of the record. */
  lemma AsRowAudioCells(t: TrackRow)
    ensures var r := AsRow(t);
      Get(r, "duration") == Some(t.duration) && Get(r, "format") == Some(Str(t.format)) && Get(r, "bitrate") == Some(t.bitrate)
  {
    ColumnCell(t, 6, "duration");
    ColumnCell(t, 7, "format");
    ColumnCell(t, 8, "bitrate");
  }

  /** The sample_rate, path_flac, path_mp3 and desc keys hold those fields of the record. */
  lemma AsRowPathCells(t: TrackRow)
    ensures var r := AsRow(t);
      Get(r, "sample_rate") == Some(t.sampleRate) && Get(r, "path_flac") == Some(Str(t.pathFlac)) && Get(r, "path_mp3") == Some(Str(t.pathMp3)) && Get(r, "desc") == Some(Str(t.desc))
  {
    ColumnCell(t, 9, "sample_rate");
    ColumnCell(t, 10, "path_flac");
    ColumnCell(t, 11, "path_mp3");
    ColumnCell(t, 12, "desc");
  }

  /** Only the three numeric columns can hold an int; every other cell is a string. */
  lemma AsRowShape(t: TrackRow)
    ensures var r := AsRow(t);
      && r[6].1 == t.duration && r[8].1 == t.bitrate && r[9].1 == t.sampleRate
      && forall i :: 0 <= i < |FIELDS| && i != 6 && i != 8 && i != 9 ==> r[i].1.Str?
  {
    var r := AsRow(t);
    forall i | 0 <= i < |FIELDS| && i != 6 && i != 8 && i != 9 ensures r[i].1.Str? {
      assert i == 0 || i == 1 || i == 2 || i == 3 || i == 4 || i == 5 || i == 7
        || i == 10 || i == 11 || i == 12;
    }
  }

  /**
   * The row built for one basename.  Name and title are the basename, the artist
   * is the default, movie, genre and desc are empty, the paths are the stored ones
   * for exactly `base.flac` and `base.mp3` (else ""), and the five derived cells
   * come from the FLAC path when there is one, else from the MP3 path; when that
   * read fails they are all "".
   */
  function MakeRow(base: string, flac: map<string, string>, mp3: map<string, string>,
                   read: Reader, clock: Clock): (t: TrackRow)
    ensures t.filename == base && t.title == base && t.artist == DEFAULT_ARTIST
    ensures t.movie == "" && t.genre == "" && t.desc == ""
    ensures WellTyped(t)
    ensures t.pathFlac == (if base + "." + FLAC in flac then flac[base + "." + FLAC] else "")
    ensures t.pathMp3 == (if base + "." + MP3 in mp3 then mp3[base + "." + MP3] else "")
    ensures var src := if t.pathFlac != "" then t.pathFlac else t.pathMp3;
      var m := ReadMetadata(src, read, clock);
      && t.bitrate == m.bitrate && t.sampleRate == m.sampleRate && t.duration == m.duration
      && t.format == m.format && t.date == m.date
      && (read(src).None? || clock(src).None? ==>
            t.bitrate == Str("") && t.sampleRate == Str("") && t.duration == Str("")
            && t.format == "" && t.date == "")
  {
    var pathFlac := Lookup(flac, base + "." + FLAC);
    var pathMp3 := Lookup(mp3, base + "." + MP3);
    var m := ReadMetadata(SourcePath(pathFlac, pathMp3), read, clock);
    TrackRow(base, base, DEFAULT_ARTIST, "", "", m.date, m.duration, m.format,
             m.bitrate, m.sampleRate, pathFlac, pathMp3, "")
  }

  /** Walk entries as the file system reports them: a bare name, and a path ending in "/" + name. */
  ghost predicate WalkShaped(entries: seq<Entry>) {
    forall i :: 0 <= i < |entries| ==> '/' !in entries[i].0 && EndsWith(entries[i].1, "/" + entries[i].0)
  }

  lemma IndexShaped(entries: seq<Entry>, fmt: string, k: string)
    requires WalkShaped(entries) && k in Index(entries, fmt)
    ensures '/' !in k && EndsWith(Index(entries, fmt)[k], "/" + k)
  {
    IndexPairs(entries, fmt, k);
  }

  /** A basename of a real walk is a bare name with a character other than a dot. */
  lemma BasenameShaped(flacEntries: seq<Entry>, mp3Entries: seq<Entry>, base: string)
    requires WalkShaped(flacEntries) && WalkShaped(mp3Entries)
    requires base in Basenames(Index(flacEntries, FLAC), Index(mp3Entries, MP3))
    ensures '/' !in base && HasNonDot(base)
  {
    var flac := Index(flacEntries, FLAC);
    var mp3 := Index(mp3Entries, MP3);
    assert HasNonDot(FLAC) && HasNonDot(MP3) by { assert FLAC[0] != '.' && MP3[0] != '.'; }
    if k :| k in flac && Root(k) == base {
      IndexKeys(flacEntries, FLAC, k);
      RootHasNonDot(k, FLAC);
      IndexShaped(flacEntries, FLAC, k);
      RootIsPrefix(k);
    } else {
      var k :| k in mp3 && Root(k) == base;
      IndexKeys(mp3Entries, MP3, k);
      RootHasNonDot(k, MP3);
      IndexShaped(mp3Entries, MP3, k);
      RootIsPrefix(k);
    }
  }

  lemma RootIsPrefix(k: string)
    ensures Root(k) == k[..|Root(k)|]
    ensures '/' !in k ==> '/' !in Root(k)
  {
    var r := SplitExt(k);
    assert k == r.0 + r.1;
    assert k[..|r.0|] == r.0;
  }

  /** A stored path of a real walk for the file `base.ext` has the format `ext`. */
  lemma ShapedPathFormat(entries: seq<Entry>, fmt: string, base: string)
    requires WalkShaped(entries) && base + "." + fmt in Index(entries, fmt)
    requires '/' !in base && HasNonDot(base) && '.' !in fmt && '/' !in fmt
    ensures FormatOf(Index(entries, fmt)[base + "." + fmt]) == fmt
  {
    var p := Index(entries, fmt)[base + "." + fmt];
    IndexShaped(entries, fmt, base + "." + fmt);
    var dir := p[..|p| - |base| - |fmt| - 2] + "/";
    assert p == dir + base + "." + fmt;
    SplitKnownExt(dir, base, fmt);
  }

  /**
   * When the walk reports real paths and the read succeeds, the format cell is
   * "flac" for every basename that has a FLAC copy and "mp3" for one with only an
   * MP3 copy.
   */
  lemma RowFormat(flacEntries: seq<Entry>, mp3Entries: seq<Entry>, base: string,
                  read: Reader, clock: Clock)
    requires WalkShaped(flacEntries) && WalkShaped(mp3Entries)
    requires base in Basenames(Index(flacEntries, FLAC), Index(mp3Entries, MP3))
    ensures var t := MakeRow(base, Index(flacEntries, FLAC), Index(mp3Entries, MP3), read, clock);
      var src := if t.pathFlac != "" then t.pathFlac else t.pathMp3;
      read(src).Some? && clock(src).Some? ==>
        t.format == (if t.pathFlac != "" then FLAC else if src != "" then MP3 else "")
  {
    BasenameShaped(flacEntries, mp3Entries, base);
    if base + "." + FLAC in Index(flacEntries, FLAC) {
      FlacRowFormat(flacEntries, mp3Entries, base, read, clock);
    } else {
      Mp3RowFormat(flacEntries, mp3Entries, base, read, clock);
    }
  }

  lemma FlacRowFormat(flacEntries: seq<Entry>, mp3Entries: seq<Entry>, base: string,
                      read: Reader, clock: Clock)
    requires WalkShaped(flacEntries) && '/' !in base && HasNonDot(base)
    requires base + "." + FLAC in Index(flacEntries, FLAC)
    ensures var t := MakeRow(base, Index(flacEntries, FLAC), Index(mp3Entries, MP3), read, clock);
      t.pathFlac != "" && (read(t.pathFlac).Some? && clock(t.pathFlac).Some? ==> t.format == FLAC)
  {
    ShapedPathFormat(flacEntries, FLAC, base);
    MakeRowFormat(base, Index(flacEntries, FLAC), Index(mp3Entries, MP3), read, clock);
  }

  lemma Mp3RowFormat(flacEntries: seq<Entry>, mp3Entries: seq<Entry>, base: string,
                     read: Reader, clock: Clock)
    requires WalkShaped(mp3Entries) && '/' !in base && HasNonDot(base)
    requires base + "." + FLAC !in Index(flacEntries, FLAC)
    ensures var t := MakeRow(base, Index(flacEntries, FLAC), Index(mp3Entries, MP3), read, clock);
      t.pathFlac == "" && (read(t.pathMp3).Some? && clock(t.pathMp3).Some? ==>
        t.format == if t.pathMp3 != "" then MP3 else "")
  {
    MakeRowFormat(base, Index(flacEntries, FLAC), Index(mp3Entries, MP3), read, clock);
    if base + "." + MP3 in Index(mp3Entries, MP3) {
      ShapedPathFormat(mp3Entries, MP3, base);
    } else {
      assert SplitExt("").1 == "";
    }
  }

  /** When the read succeeds, the row's format is the extension of the path it was read from. */
  lemma MakeRowFormat(base: string, flac: map<string, string>, mp3: map<string, string>,
                      read: Reader, clock: Clock)
    ensures var t := MakeRow(base, flac, mp3, read, clock);
      var src := if t.pathFlac != "" then t.pathFlac else t.pathMp3;
      read(src).Some? && clock(src).Some? ==> t.format == FormatOf(src) && t.date == clock(src).value
  {
  }

  /** The numeric cells hold ints, or "" when the tag library gave nothing. */
  predicate WellTyped(t: TrackRow) {
    && (t.duration.Int? || t.duration == Str(""))
    && (t.bitrate.Int? || t.bitrate == Str(""))
    && (t.sampleRate.Int? || t.sampleRate == Str(""))
  }

  /**
   * The basename loop so far: done lists the names already handled, each once, and
   * together with the remaining ones they are exactly the names.
   */
  ghost predicate Progress(names: set<string>, remaining: set<string>, done: seq<string>) {
    && remaining <= names
    && |done| + |remaining| == |names|
    && (forall i, j :: 0 <= i < j < |done| ==> done[i] != done[j])
    && (forall i :: 0 <= i < |done| ==> done[i] in names && done[i] !in remaining)
    && (forall b :: b in names && b !in remaining ==> exists i :: 0 <= i < |done| && done[i] == b)
  }

  lemma ProgressStep(names: set<string>, remaining: set<string>, done: seq<string>, base: string)
    requires Progress(names, remaining, done) && base in remaining
    ensures Progress(names, remaining - {base}, done + [base])
  {
    var next := done + [base];
    forall b | b in names && b !in remaining - {base}
      ensures exists i :: 0 <= i < |next| && next[i] == b
    {
      if b == base {
        assert next[|done|] == b;
      } else {
        var i :| 0 <= i < |done| && done[i] == b;
        assert next[i] == b;
      }
    }
  }

  /** The rows the loop has appended after visiting `done`, in visiting order. */
  ghost function RowsOf(done: seq<string>, flac: map<string, string>, mp3: map<string, string>,
                        read: Reader, clock: Clock): (rows: seq<TrackRow>)
    ensures |rows| == |done|
  {
    if done == [] then []
    else RowsOf(done[..|done| - 1], flac, mp3, read, clock) + [MakeRow(done[|done| - 1], flac, mp3, read, clock)]
  }

  /** Visiting one more name appends its row. */
  lemma RowsOfAppend(done: seq<string>, base: string, flac: map<string, string>, mp3: map<string, string>,
                     read: Reader, clock: Clock)
    ensures RowsOf(done + [base], flac, mp3, read, clock)
      == RowsOf(done, flac, mp3, read, clock) + [MakeRow(base, flac, mp3, read, clock)]
  {
    assert (done + [base])[..|done|] == done;
  }

  /** Each appended row is the row of the name visited at that step. */
  lemma {:induction false} RowsOfRows(done: seq<string>, flac: map<string, string>, mp3: map<string, string>,
                                      read: Reader, clock: Clock)
    ensures forall i :: 0 <= i < |done| ==>
      RowsOf(done, flac, mp3, read, clock)[i] == MakeRow(done[i], flac, mp3, read, clock)
  {
    if done != [] {
      var front := done[..|done| - 1];
      RowsOfRows(front, flac, mp3, read, clock);
      assert forall i :: 0 <= i < |front| ==> done[i] == front[i];
    }
  }

  /** Rows named after a finished visit of `names` give every name exactly one row. */
  lemma ProgressNames(names: set<string>, done: seq<string>, rows: seq<TrackRow>)
    requires Progress(names, {}, done)
    requires |rows| == |done| && forall i :: 0 <= i < |rows| ==> rows[i].filename == done[i]
    ensures |rows| == |names|
    ensures forall i :: 0 <= i < |rows| ==> rows[i].filename in names
    ensures forall i, j :: 0 <= i < j < |rows| ==> rows[i].filename != rows[j].filename
    ensures forall b :: b in names ==> exists i :: 0 <= i < |rows| && rows[i].filename == b
  {
    forall b | b in names ensures exists i :: 0 <= i < |rows| && rows[i].filename == b {
      var i :| 0 <= i < |done| && done[i] == b;
      assert rows[i].filename == b;
    }
  }

  /** A finished loop has given every name exactly one row, the row `MakeRow` builds for it. */
  lemma ProgressDone(names: set<string>, done: seq<string>, flac: map<string, string>, mp3: map<string, string>,
                     read: Reader, clock: Clock)
    requires Progress(names, {}, done)
    ensures var rows := RowsOf(done, flac, mp3, read, clock);
      && |rows| == |names|
      && (forall i :: 0 <= i < |rows| ==>
            rows[i].filename in names && rows[i] == MakeRow(rows[i].filename, flac, mp3, read, clock))
      && (forall i, j :: 0 <= i < j < |rows| ==> rows[i].filename != rows[j].filename)
      && (forall b :: b in names ==> exists i :: 0 <= i < |rows| && rows[i].filename == b)
  {
    var rows := RowsOf(done, flac, mp3, read, clock);
    RowsOfRows(done, flac, mp3, read, clock);
    assert forall i :: 0 <= i < |rows| ==> rows[i].filename == done[i];
    ProgressNames(names, done, rows);
  }

  /** The basename loop: one row per name, each name once, in the order the set yields them. */
  method BuildRows(names: set<string>, flac: map<string, string>, mp3: map<string, string>,
                   read: Reader, clock: Clock)
    returns (rows: seq<TrackRow>)
    ensures |rows| == |names|
    ensures forall i :: 0 <= i < |rows| ==>
      rows[i].filename in names && rows[i] == MakeRow(rows[i].filename, flac, mp3, read, clock)
    ensures forall i, j :: 0 <= i < j < |rows| ==> rows[i].filename != rows[j].filename
    ensures forall b :: b in names ==> exists i :: 0 <= i < |rows| && rows[i].filename == b
  {
    rows := [];
    ghost var done: seq<string> := [];
    var remaining := names;
    while remaining != {}
      invariant Progress(names, remaining, done)
      invariant rows == RowsOf(done, flac, mp3, read, clock)
      decreases |remaining|
    {
      var base :| base in remaining;
      ProgressStep(names, remaining, done, base);
      RowsOfAppend(done, base, flac, mp3, read, clock);
      rows := rows + [MakeRow(base, flac, mp3, read, clock)];
      done := done + [base];
      remaining := remaining - {base};
    }
    ProgressDone(names, done, flac, mp3, read, clock);
  }

  /** `generate_csv` without its file output: the rows it writes, for the walk's entries. */
  method Generate(flacEntries: seq<Entry>, mp3Entries: seq<Entry>, read: Reader, clock: Clock)
    returns (rows: seq<TrackRow>)
    ensures var flac := Index(flacEntries, FLAC);
      var mp3 := Index(mp3Entries, MP3);
      var names := Basenames(flac, mp3);
      && |rows| == |names|
      && (forall i :: 0 <= i < |rows| ==>
            rows[i].filename in names && rows[i] == MakeRow(rows[i].filename, flac, mp3, read, clock))
      && (forall i, j :: 0 <= i < j < |rows| ==> rows[i].filename != rows[j].filename)
      && (forall b :: b in names ==> exists i :: 0 <= i < |rows| && rows[i].filename == b)
  {
    var flac := Collect(flacEntries, FLAC);
    var mp3 := Collect(mp3Entries, MP3);
    rows := BuildRows(Basenames(flac, mp3), flac, mp3, read, clock);
  }

  // ---------------------------------------------------------------------------
  // The CSV table

  /** What the csv writer puts in a cell: the string itself, or `str(n)` for an int. */
  function CellText(v: Value): string {
    match v
    case Str(s) => s
    case Int(n) => Decimal.IntText(n)
  }

  /** One data line: the row's cells in FIELDS order, "" for a missing key. */
  function Record(r: Row): seq<string> {
    seq(|FIELDS|, i requires 0 <= i < |FIELDS| => CellText(Get(r, FIELDS[i]).GetOr(Str(""))))
  }

  /** The written table: the header line, then one line per row. */
  function Table(rows: seq<TrackRow>): (t: seq<seq<string>>)
    ensures |t| == |rows| + 1 && t[0] == FIELDS
    ensures forall i :: 0 <= i < |t| ==> |t[i]| == |FIELDS|
  {
    [FIELDS] + seq(|rows|, i requires 0 <= i < |rows| => Record(AsRow(rows[i])))
  }

  /** A lone `Song.FLAC` is collected, and its row has both paths empty: the lookup wants `Song.flac`. */
  lemma UpperCaseExtensionLosesPath(path: string, read: Reader, clock: Clock)
    ensures var flac := Index([("Song.FLAC", path)], FLAC);
      var row := MakeRow("Song", flac, map[], read, clock);
      && flac == map["Song.FLAC" := path]
      && Basenames(flac, map[]) == {"Song"}
      && row.pathFlac == "" && row.pathMp3 == ""
  {
    var flac := Index([("Song.FLAC", path)], FLAC);
    SongIndex(path);
    SongRoot();
    assert Basenames(flac, map[]) == {"Song"} by {
      assert flac.Keys == {"Song.FLAC"};
    }
    assert "Song" + "." + FLAC != "Song.FLAC" by {
      assert ("Song" + "." + FLAC)[5] == 'f';
    }
  }

  /** With both paths empty the read is of the project directory itself, which raises: no metadata. */
  lemma UpperCaseExtensionNoMetadata(path: string, read: Reader, clock: Clock)
    requires read("") == None
    ensures var row := MakeRow("Song", Index([("Song.FLAC", path)], FLAC), map[], read, clock);
      && row.bitrate == Str("") && row.sampleRate == Str("") && row.duration == Str("")
      && row.format == "" && row.date == ""
  {
    UpperCaseExtensionLosesPath(path, read, clock);
  }

  lemma SongIndex(path: string)
    ensures Index([("Song.FLAC", path)], FLAC) == map["Song.FLAC" := path]
  {
    var name := "Song.FLAC";
    assert Lower(name) == "song.flac";
    assert HasFormat(name, FLAC);
    var entries := [(name, path)];
    assert entries[..0] == [];
    assert Index(entries[..0], FLAC) == map[];
  }

  lemma SongRoot()
    ensures Root("Song.FLAC") == "Song"
  {
    assert "Song.FLAC" == "" + "Song" + "." + "FLAC";
    assert "Song"[0] != '.';
    SplitKnownExt("", "Song", "FLAC");
  }

  /** One FLAC `song.flac` and one MP3 `song.mp3` give the single basename `song`, with both paths. */
  lemma PairedFormats(pathFlac: string, pathMp3: string, read: Reader, clock: Clock)
    ensures var flac := Index([("song" + "." + FLAC, pathFlac)], FLAC);
      var mp3 := Index([("song" + "." + MP3, pathMp3)], MP3);
      && Basenames(flac, mp3) == {"song"}
      && MakeRow("song", flac, mp3, read, clock).pathFlac == pathFlac
      && MakeRow("song", flac, mp3, read, clock).pathMp3 == pathMp3
  {
    OneEntryIndex("song", FLAC, pathFlac);
    OneEntryIndex("song", MP3, pathMp3);
    PairedBasenames(pathFlac, pathMp3);
  }

  lemma PairedBasenames(pathFlac: string, pathMp3: string)
    requires Index([("song" + "." + FLAC, pathFlac)], FLAC) == map["song" + "." + FLAC := pathFlac]
    requires Index([("song" + "." + MP3, pathMp3)], MP3) == map["song" + "." + MP3 := pathMp3]
    ensures Basenames(Index([("song" + "." + FLAC, pathFlac)], FLAC), Index([("song" + "." + MP3, pathMp3)], MP3)) == {"song"}
  {
    PairedRoots();
    var flac := map["song" + "." + FLAC := pathFlac];
    var mp3 := map["song" + "." + MP3 := pathMp3];
    assert flac.Keys == {"song" + "." + FLAC} && mp3.Keys == {"song" + "." + MP3};
    assert Basenames(flac, mp3) == {"song"};
  }

  lemma PairedRoots()
    ensures Root("song" + "." + FLAC) == "song" && Root("song" + "." + MP3) == "song"
  {
    assert HasNonDot("song") by {
      assert "song"[0] != '.';
    }
    SplitKnownExt("", "song", FLAC);
    SplitKnownExt("", "song", MP3);
    assert "" + "song" == "song";
  }

  lemma OneEntryIndex(base: string, fmt: string, path: string)
    requires fmt == FLAC || fmt == MP3
    requires forall i :: 0 <= i < |base| ==> 'a' <= base[i] <= 'z'
    ensures Index([(base + "." + fmt, path)], fmt) == map[base + "." + fmt := path]
  {
    var name := base + "." + fmt;
    assert Lower(name) == name;
    assert HasFormat(name, fmt);
    var entries := [(name, path)];
    assert entries[..0] == [];
    assert Index(entries[..0], fmt) == map[];
  }
}
