/**
 * The page script that renders the music library: a "Featured" section with at
 * most three tracks, and the other tracks as cards ordered by date, re-sorted when
 * the sort dropdown changes.  The DOM is reduced to the cards' text content.
 */
module LibraryView {

  /** A JavaScript value as the hand-edited `featured` property may hold it. */
  datatype JsValue = Undefined | Null | Bool(b: bool) | Number(n: int) | Text(s: string)

  /** JavaScript truthiness (NaN is not modelled). */
  predicate Truthy(v: JsValue) {
    match v
    case Undefined => false
    case Null => false
    case Bool(b) => b
    case Number(n) => n != 0
    case Text(s) => s != ""
  }

  /** One track object of the JSON document. */
  datatype Track = Track(
    title: string, movie: string, genre: string, desc: string, date: string,
    pathMp3: string, pathFlac: string, featured: JsValue)

  /** The content of one rendered card: its heading, its meta line and its audio source. */
  datatype Card = Card(heading: string, meta: string, src: string)

  const FEATURED_LIMIT: nat := 3
  const SEPARATOR: string := " | "

  // ---------------------------------------------------------------------------
  // Featured and normal tracks

  /** `Array.prototype.filter`. */
  function Filter<T>(s: seq<T>, p: T -> bool): (r: seq<T>)
    ensures |r| <= |s|
    ensures forall i :: 0 <= i < |r| ==> p(r[i])
  {
    if s == [] then [] else (if p(s[0]) then [s[0]] else []) + Filter(s[1..], p)
  }

  /** A single element is kept exactly when it satisfies the predicate. */
  lemma FilterOne<T>(x: T, p: T -> bool)
    ensures Filter([x], p) == if p(x) then [x] else []
  {
    assert [x][1..] == [];
  }

  /** Filtering distributes over concatenation: the kept elements stay in input order. */
  lemma {:induction false} FilterAppend<T>(s: seq<T>, t: seq<T>, p: T -> bool)
    ensures Filter(s + t, p) == Filter(s, p) + Filter(t, p)
  {
    if s == [] {
      assert s + t == t;
    } else {
      var head := if p(s[0]) then [s[0]] else [];
      assert (s + t)[0] == s[0];
      assert (s + t)[1..] == s[1..] + t;
      assert Filter(s + t, p) == head + Filter(s[1..] + t, p);
      FilterAppend(s[1..], t, p);
      assert Filter(s, p) == head + Filter(s[1..], p);
    }
  }

  /** Filtering by a predicate every element satisfies keeps them all. */
  lemma {:induction false} FilterAll<T>(s: seq<T>, p: T -> bool)
    requires forall i :: 0 <= i < |s| ==> p(s[i])
    ensures Filter(s, p) == s
  {
    if s != [] {
      FilterAll(s[1..], p);
      assert s == [s[0]] + s[1..];
    }
  }

  /** Filtering by a predicate no element satisfies keeps none. */
  lemma {:induction false} FilterNone<T>(s: seq<T>, p: T -> bool)
    requires forall i :: 0 <= i < |s| ==> !p(s[i])
    ensures Filter(s, p) == []
  {
    if s != [] {
      FilterNone(s[1..], p);
    }
  }

  predicate IsFeatured(t: Track) {
    Truthy(t.featured)
  }

  predicate IsNormal(t: Track) {
    !Truthy(t.featured)
  }

  /** Filtering by featured and by not featured splits the tracks between the two. */
  lemma {:induction false} FilterSplit(s: seq<Track>)
    ensures multiset(Filter(s, IsFeatured)) + multiset(Filter(s, IsNormal)) == multiset(s)
  {
    if s != [] {
      FilterSplit(s[1..]);
      assert Filter(s, IsFeatured) == (if IsFeatured(s[0]) then [s[0]] else []) + Filter(s[1..], IsFeatured);
      assert Filter(s, IsNormal) == (if IsNormal(s[0]) then [s[0]] else []) + Filter(s[1..], IsNormal);
      assert s == [s[0]] + s[1..];
    }
  }

  /** `data.filter(track => track.featured).slice(0, 3)`. */
  function FeaturedTracks(data: seq<Track>): seq<Track> {
    var all := Filter(data, IsFeatured);
    if |all| <= FEATURED_LIMIT then all else all[..FEATURED_LIMIT]
  }

  /** `data.filter(track => !track.featured)`. */
  function NormalTracks(data: seq<Track>): seq<Track> {
    Filter(data, IsNormal)
  }

  /** The featured list is the first min(3, n) of the n truthy-featured tracks, in input order. */
  lemma SelectionBound(data: seq<Track>)
    ensures var all := Filter(data, IsFeatured);
      var featured := FeaturedTracks(data);
      && |featured| == (if |all| < FEATURED_LIMIT then |all| else FEATURED_LIMIT)
      && featured == all[..|featured|]
  {
  }

  /** Featured tracks are truthy-featured, normal tracks falsy-featured. */
  lemma SelectionLists(data: seq<Track>)
    ensures forall i :: 0 <= i < |FeaturedTracks(data)| ==> IsFeatured(FeaturedTracks(data)[i])
    ensures forall i :: 0 <= i < |NormalTracks(data)| ==> !IsFeatured(NormalTracks(data)[i])
  {
    var all := Filter(data, IsFeatured);
    assert forall i :: 0 <= i < |FeaturedTracks(data)| ==> FeaturedTracks(data)[i] == all[i];
  }

  /**
   * Every track is in exactly one of the featured list, the normal list, or the
   * featured tracks beyond the third, which are shown nowhere.
   */
  lemma SelectionPartition(data: seq<Track>)
    ensures var all := Filter(data, IsFeatured);
      var featured := FeaturedTracks(data);
      multiset(featured) + multiset(NormalTracks(data)) + multiset(all[|featured|..]) == multiset(data)
  {
    var all := Filter(data, IsFeatured);
    var featured := FeaturedTracks(data);
    FilterSplit(data);
    SelectionBound(data);
    SplitParts(all, |featured|, NormalTracks(data), data);
  }

  /** Cutting the first list of a split into a prefix and a rest keeps the split. */
  lemma SplitParts<T>(first: seq<T>, n: nat, other: seq<T>, whole: seq<T>)
    requires n <= |first| && multiset(first) + multiset(other) == multiset(whole)
    ensures multiset(first[..n]) + multiset(other) + multiset(first[n..]) == multiset(whole)
  {
    assert first == first[..n] + first[n..];
  }

  /** A non-empty string counts as featured, even "false". */
  lemma FalseStringIsFeatured(t: Track)
    requires t.featured == Text("false")
    ensures IsFeatured(t) && FeaturedTracks([t]) == [t] && NormalTracks([t]) == []
  {
    assert [t][1..] == [];
  }

  // ---------------------------------------------------------------------------
  // Card content

  /** The heading: `title (movie)` when there is a movie, else the bare title. */
  function Heading(t: Track): (h: string)
    ensures |t.title| <= |h|
    ensures h[..|t.title|] == t.title
    ensures t.movie == "" ==> h == t.title
    ensures t.movie != "" ==> |h| == |t.title| + |t.movie| + 3 && h[|t.title| + 2..|h| - 1] == t.movie
    ensures t.movie != "" ==> h[|t.title|..|t.title| + 2] == " (" && h[|h| - 1] == ')'
  {
    if t.movie != "" then t.title + " (" + t.movie + ")" else t.title
  }

  /** `parts.join(sep)`. */
  function Join(parts: seq<string>, sep: string): string {
    if parts == [] then ""
    else if |parts| == 1 then parts[0]
    else parts[0] + sep + Join(parts[1..], sep)
  }

  /** `parts.filter(Boolean)` on strings. */
  function NonEmpty(parts: seq<string>): (r: seq<string>)
    ensures forall i :: 0 <= i < |r| ==> r[i] != ""
  {
    if parts == [] then [] else (if parts[0] != "" then [parts[0]] else []) + NonEmpty(parts[1..])
  }

  /** The meta line: genre first, desc and date pushed when truthy, falsy parts dropped, joined. */
  function Meta(t: Track): string {
    var parts := [t.genre] + (if t.desc != "" then [t.desc] else []) + (if t.date != "" then [t.date] else []);
    Join(NonEmpty(parts), SEPARATOR)
  }

  lemma JoinNonEmpty(parts: seq<string>, sep: string)
    requires forall i :: 0 <= i < |parts| ==> parts[i] != ""
    ensures Join(parts, sep) == "" <==> parts == []
  {
  }

  lemma NonEmptyOne(x: string)
    ensures NonEmpty([x]) == if x != "" then [x] else []
  {
    assert [x][1..] == [];
  }

  lemma NonEmptyPair(a: string, b: string)
    ensures NonEmpty([a, b]) == NonEmpty([a]) + NonEmpty([b])
  {
    assert [a, b][1..] == [b];
    NonEmptyOne(a);
  }

  lemma NonEmptyTriple(a: string, b: string, c: string)
    ensures NonEmpty([a, b, c]) == NonEmpty([a]) + NonEmpty([b]) + NonEmpty([c])
  {
    assert [a, b, c][1..] == [b, c];
    NonEmptyPair(b, c);
    NonEmptyOne(a);
  }

  /** Pushing desc and date only when truthy, then filtering, is filtering all three. */
  lemma MetaParts(t: Track)
    ensures Meta(t) == Join(NonEmpty([t.genre, t.desc, t.date]), SEPARATOR)
  {
    NonEmptyTriple(t.genre, t.desc, t.date);
    NonEmptyOne(t.desc);
    NonEmptyOne(t.date);
    if t.desc != "" && t.date != "" {
      assert [t.genre] + [t.desc] + [t.date] == [t.genre, t.desc, t.date];
    } else if t.desc != "" {
      assert [t.genre] + [t.desc] + [] == [t.genre, t.desc];
      NonEmptyPair(t.genre, t.desc);
    } else if t.date != "" {
      assert [t.genre] + [] + [t.date] == [t.genre, t.date];
      NonEmptyPair(t.genre, t.date);
    } else {
      assert [t.genre] + [] + [] == [t.genre];
    }
  }

  /** The meta line is empty exactly when genre, desc and date all are. */
  lemma MetaEmpty(t: Track)
    ensures Meta(t) == "" <==> t.genre == "" && t.desc == "" && t.date == ""
  {
    MetaParts(t);
    NonEmptyTriple(t.genre, t.desc, t.date);
    NonEmptyOne(t.genre);
    NonEmptyOne(t.desc);
    NonEmptyOne(t.date);
    JoinNonEmpty(NonEmpty([t.genre, t.desc, t.date]), SEPARATOR);
  }

  /** With all three present the meta line is `genre | desc | date`. */
  lemma MetaFull(t: Track)
    requires t.genre != "" && t.desc != "" && t.date != ""
    ensures Meta(t) == t.genre + SEPARATOR + t.desc + SEPARATOR + t.date
  {
    MetaParts(t);
    NonEmptyTriple(t.genre, t.desc, t.date);
    NonEmptyOne(t.genre);
    NonEmptyOne(t.desc);
    NonEmptyOne(t.date);
    var parts := [t.genre, t.desc, t.date];
    assert NonEmpty(parts) == parts;
    assert parts[1..] == [t.desc, t.date];
    assert parts[1..][1..] == [t.date];
    assert Join(parts[1..], SEPARATOR) == t.desc + SEPARATOR + t.date;
  }

  /** `track.path_mp3 || track.path_flac`: the MP3 copy when there is one. */
  function Src(t: Track): (s: string)
    ensures t.pathMp3 != "" ==> s == t.pathMp3
    ensures t.pathMp3 == "" ==> s == t.pathFlac
    ensures s == "" <==> t.pathMp3 == "" && t.pathFlac == ""
  {
    if t.pathMp3 != "" then t.pathMp3 else t.pathFlac
  }

  function CardOf(t: Track): Card {
    Card(Heading(t), Meta(t), Src(t))
  }

  /** The `forEach` that appends one card per track to a container. */
  method MakeCards(tracks: seq<Track>) returns (cards: seq<Card>)
    ensures |cards| == |tracks|
    ensures forall i :: 0 <= i < |tracks| ==> cards[i] == CardOf(tracks[i])
  {
    cards := [];
    for i := 0 to |tracks|
      invariant |cards| == i
      invariant forall j :: 0 <= j < i ==> cards[j] == CardOf(tracks[j])
    {
      cards := cards + [CardOf(tracks[i])];
    }
  }

  // ---------------------------------------------------------------------------
  // Ordering by date

  /** Inserts x before the first element whose key is not smaller. */
  function Insert(x: Track, s: seq<Track>, key: Track -> int): (r: seq<Track>)
    ensures multiset(r) == multiset(s) + multiset{x}
  {
    if s == [] then [x]
    else if key(s[0]) < key(x) then (assert s == [s[0]] + s[1..]; [s[0]] + Insert(x, s[1..], key))
    else [x] + s
  }

  /** A stable sort by ascending key, as `sort` with the comparator `(a, b) => key(a) - key(b)`. */
  function SortBy(s: seq<Track>, key: Track -> int): (r: seq<Track>)
    ensures multiset(r) == multiset(s)
  {
    if s == [] then [] else (assert s == [s[0]] + s[1..]; Insert(s[0], SortBy(s[1..], key), key))
  }

  ghost predicate SortedBy(s: seq<Track>, key: Track -> int) {
    forall i, j :: 0 <= i < j < |s| ==> key(s[i]) <= key(s[j])
  }

  lemma {:induction false} InsertLowerBound(x: Track, s: seq<Track>, key: Track -> int, lo: int)
    requires lo <= key(x) && forall i :: 0 <= i < |s| ==> lo <= key(s[i])
    ensures forall j :: 0 <= j < |Insert(x, s, key)| ==> lo <= key(Insert(x, s, key)[j])
    decreases |s|
  {
    if s != [] && key(s[0]) < key(x) {
      InsertLowerBound(x, s[1..], key, lo);
    }
  }

  lemma {:induction false} InsertSorted(x: Track, s: seq<Track>, key: Track -> int)
    requires SortedBy(s, key)
    ensures SortedBy(Insert(x, s, key), key)
    decreases |s|
  {
    if s != [] && key(s[0]) < key(x) {
      InsertSorted(x, s[1..], key);
      InsertLowerBound(x, s[1..], key, key(s[0]));
    }
  }

  /** The sort yields an ordered permutation of its input. */
  lemma {:induction false} SortBySorted(s: seq<Track>, key: Track -> int)
    ensures SortedBy(SortBy(s, key), key) && multiset(SortBy(s, key)) == multiset(s)
    decreases |s|
  {
    if s != [] {
      SortBySorted(s[1..], key);
      InsertSorted(s[0], SortBy(s[1..], key), key);
    }
  }

  /** Sorting an already ordered list leaves it as it is, so choosing the same order twice changes nothing. */
  lemma {:induction false} SortBySortedInput(s: seq<Track>, key: Track -> int)
    requires SortedBy(s, key)
    ensures SortBy(s, key) == s
    decreases |s|
  {
    if s != [] {
      SortBySortedInput(s[1..], key);
      assert SortBy(s, key) == Insert(s[0], s[1..], key);
      if |s| > 1 {
        assert key(s[0]) <= key(s[1]);
      }
    }
  }

  /** The tracks whose key is c: the ties a comparator returning 0 cannot separate. */
  function HasKey(key: Track -> int, c: int): Track -> bool {
    (t: Track) => key(t) == c
  }

  /** Inserting x passes only smaller keys, so among the tracks with x's key, x comes first. */
  lemma {:induction false} InsertTies(x: Track, s: seq<Track>, key: Track -> int, c: int)
    ensures Filter(Insert(x, s, key), HasKey(key, c))
      == (if key(x) == c then [x] else []) + Filter(s, HasKey(key, c))
    decreases |s|
  {
    var p := HasKey(key, c);
    FilterOne(x, p);
    if s == [] {
      assert Insert(x, s, key) == [x];
    } else if key(s[0]) < key(x) {
      InsertTies(x, s[1..], key, c);
      PassTie(x, s, key, c);
    } else {
      FilterAppend([x], s, p);
    }
  }

  /** The step of InsertTies where x passes s[0], whose key is smaller. */
  lemma PassTie(x: Track, s: seq<Track>, key: Track -> int, c: int)
    requires s != [] && key(s[0]) < key(x)
    requires Filter(Insert(x, s[1..], key), HasKey(key, c))
      == (if key(x) == c then [x] else []) + Filter(s[1..], HasKey(key, c))
    ensures Filter(Insert(x, s, key), HasKey(key, c))
      == (if key(x) == c then [x] else []) + Filter(s, HasKey(key, c))
  {
    var h := if key(x) == c then [x] else [];
    assert Insert(x, s, key) == [s[0]] + Insert(x, s[1..], key);
    assert s == [s[0]] + s[1..];
    FilterPast(s[0], Insert(x, s[1..], key), s[1..], h, HasKey(key, c));
  }

  /** Putting y, which p drops or which follows an empty front, before both sides keeps an equation between filters. */
  lemma FilterPast<T>(y: T, r: seq<T>, t: seq<T>, h: seq<T>, p: T -> bool)
    requires Filter(r, p) == h + Filter(t, p)
    requires h == [] || !p(y)
    ensures Filter([y] + r, p) == h + Filter([y] + t, p)
  {
    FilterAppend([y], r, p);
    FilterAppend([y], t, p);
    FilterOne(y, p);
    SwapFront(h, Filter([y], p), Filter(t, p));
  }

  /** Two fronts of which one is empty can be swapped. */
  lemma SwapFront<T>(h: seq<T>, f: seq<T>, rest: seq<T>)
    requires h == [] || f == []
    ensures f + (h + rest) == h + (f + rest)
  {
    if h == [] {
      assert h + rest == rest;
    } else {
      assert f + (h + rest) == h + rest;
    }
  }

  /** The sort is stable: the tracks with any one key keep their input order. */
  lemma {:induction false} SortByStable(s: seq<Track>, key: Track -> int, c: int)
    ensures Filter(SortBy(s, key), HasKey(key, c)) == Filter(s, HasKey(key, c))
    decreases |s|
  {
    if s != [] {
      var p := HasKey(key, c);
      SortByStable(s[1..], key, c);
      InsertTies(s[0], SortBy(s[1..], key), key, c);
      FilterOne(s[0], p);
      assert s == [s[0]] + s[1..];
      FilterAppend([s[0]], s[1..], p);
    }
  }

  /** `(a, b) => new Date(b.date) - new Date(a.date)`: the most recent first. */
  function Newest(stamp: string -> int): Track -> int {
    (t: Track) => -stamp(t.date)
  }

  /** `(a, b) => new Date(a.date) - new Date(b.date)`: the oldest first. */
  function Oldest(stamp: string -> int): Track -> int {
    (t: Track) => stamp(t.date)
  }

  /** "recent" orders by non-increasing date, "oldest" by non-decreasing date, both permutations. */
  lemma DateOrders(s: seq<Track>, stamp: string -> int)
    ensures var r := SortBy(s, Newest(stamp));
      multiset(r) == multiset(s) && forall i, j :: 0 <= i < j < |r| ==> stamp(r[i].date) >= stamp(r[j].date)
    ensures var r := SortBy(s, Oldest(stamp));
      multiset(r) == multiset(s) && forall i, j :: 0 <= i < j < |r| ==> stamp(r[i].date) <= stamp(r[j].date)
  {
    SortBySorted(s, Newest(stamp));
    SortBySorted(s, Oldest(stamp));
  }

  // ---------------------------------------------------------------------------
  // The page

  /** The rendered library and the list the dropdown re-sorts. */
  class Library {
    /** The date parser, as a total order key (`new Date(date)` in milliseconds). */
    const stamp: string -> int
    /** Whether the "Featured" heading and its container were appended. */
    var hasFeatured: bool
    var featuredCards: seq<Card>
    /** `normalTracks`, sorted in place by the handlers. */
    var normal: seq<Track>
    /** The cards inside the all-tracks container. */
    var allTracks: seq<Card>
    /** The normal tracks as loaded. */
    ghost const loaded: seq<Track>

    /** The list is always a permutation of the loaded normal tracks, rendered one card per track. */
    ghost predicate Valid()
      reads this
    {
      && multiset(normal) == multiset(loaded)
      && |allTracks| == |normal|
      && forall i :: 0 <= i < |normal| ==> allTracks[i] == CardOf(normal[i])
    }

    /** The `then` callback: split, render the featured section, sort by most recent, render. */
    constructor (data: seq<Track>, stamp: string -> int)
      ensures Valid()
      ensures this.stamp == stamp && loaded == NormalTracks(data)
      ensures hasFeatured == (FeaturedTracks(data) != [])
      ensures |featuredCards| == |FeaturedTracks(data)|
      ensures forall i :: 0 <= i < |featuredCards| ==> featuredCards[i] == CardOf(FeaturedTracks(data)[i])
      ensures normal == SortBy(NormalTracks(data), Newest(stamp))
    {
      var featured := FeaturedTracks(data);
      var tracks := NormalTracks(data);
      this.stamp := stamp;
      loaded := tracks;
      hasFeatured := false;
      featuredCards := [];
      normal := SortBy(tracks, Newest(stamp));
      allTracks := [];
      new;
      Render(featured);
    }

    /** The first render: the featured section, then the all-tracks container. */
    method Render(featured: seq<Track>)
      requires !hasFeatured && featuredCards == [] && multiset(normal) == multiset(loaded)
      modifies this`hasFeatured, this`featuredCards, this`allTracks
      ensures Valid()
      ensures hasFeatured == (featured != [])
      ensures |featuredCards| == |featured|
      ensures forall i :: 0 <= i < |featured| ==> featuredCards[i] == CardOf(featured[i])
    {
      RenderFeatured(featured);
      RenderTracks();
    }

    /** The featured section: a heading and one card per featured track, only when there is one. */
    method RenderFeatured(featured: seq<Track>)
      requires !hasFeatured && featuredCards == []
      modifies this`hasFeatured, this`featuredCards
      ensures hasFeatured == (featured != [])
      ensures |featuredCards| == |featured|
      ensures forall i :: 0 <= i < |featured| ==> featuredCards[i] == CardOf(featured[i])
    {
      if |featured| > 0 {
        hasFeatured := true;
        featuredCards := MakeCards(featured);
      }
    }

    /** `renderTracks(normalTracks)`: clears the container and appends one card per track. */
    method RenderTracks()
      requires multiset(normal) == multiset(loaded)
      modifies this`allTracks
      ensures Valid()
    {
      allTracks := [];
      var cards := MakeCards(normal);
      allTracks := allTracks + cards;
    }

    /** The dropdown's change handler. */
    method OnSortChange(value: string)
      requires Valid()
      modifies this`normal, this`allTracks
      ensures Valid()
      ensures value == "recent" ==> normal == SortBy(old(normal), Newest(stamp))
      ensures value == "oldest" ==> normal == SortBy(old(normal), Oldest(stamp))
      ensures value != "recent" && value != "oldest" ==> normal == old(normal)
    {
      if value == "recent" {
        normal := SortBy(normal, Newest(stamp));
      } else if value == "oldest" {
        normal := SortBy(normal, Oldest(stamp));
      }
      RenderTracks();
    }
  }
}
