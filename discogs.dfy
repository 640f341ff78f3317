/** Field assignment of the Discogs music scraper: `parseAndAssignArtist`
    and `parseAndAssignAlbum` write the fields of an artist or an album from
    the captures of the page's regular expressions.

    The regular expressions are not modelled: each pattern's capture is an
    input, `None` when the pattern did not match. For the patterns applied
    repeatedly (discography rows, genre and style links) the input is the
    sequence of their matches, in page order. `UniversalMusicScraper::shouldLoad`
    is not modelled either: `load` is the set of details for which it holds. */
module Discogs {
  import opened Optional
  import opened DiscogsTrim

  /** `MusicScraperInfo`, the details a music scraper can load
      (`ArtistName` is the album's `MusicScraperInfo::Artist`). */
  datatype MusicScraperInfo =
    | Name | Biography | Discography
    | ArtistName | Title | Genres | Styles | Year

  /** `DiscographyAlbum`: one row of an artist's discography. */
  datatype DiscographyAlbum = DiscographyAlbum(title: string, year: string)

  /** The captures of one discography table row: the title link and the
      year cell. */
  datatype RowCaptures = RowCaptures(title: Option<string>, year: Option<string>)

  /** The captures of an artist page: name heading, profile text, and the
      rows of the discography table (`None` when there is no table). */
  datatype ArtistCaptures = ArtistCaptures(
    name: Option<string>,
    biography: Option<string>,
    discography: Option<seq<RowCaptures>>)

  /** The captures of an album page: artist, title, the genre and style
      links (`None` when their block is missing), and the year link. */
  datatype AlbumCaptures = AlbumCaptures(
    artist: Option<string>,
    title: Option<string>,
    genres: Option<seq<string>>,
    styles: Option<seq<string>>,
    year: Option<string>)

  /** The fields of `Artist` that the Discogs scraper writes. */
  class Artist {
    var name: string
    var biography: string
    var discography: seq<DiscographyAlbum>

    constructor (name: string, biography: string, discography: seq<DiscographyAlbum>)
      ensures this.name == name && this.biography == biography
      ensures this.discography == discography
    {
      this.name := name;
      this.biography := biography;
      this.discography := discography;
    }
  }

  /** The fields of `Album` that the Discogs scraper writes. */
  class Album {
    var artist: string
    var title: string
    var genres: seq<string>
    var styles: seq<string>
    var year: int

    constructor (artist: string, title: string, genres: seq<string>,
                 styles: seq<string>, year: int)
      ensures this.artist == artist && this.title == title
      ensures this.genres == genres && this.styles == styles && this.year == year
    {
      this.artist := artist;
      this.title := title;
      this.genres := genres;
      this.styles := styles;
      this.year := year;
    }
  }

  // ---------------------------------------------------------------------
  // Specification functions

  /** The trimmed capture, or the empty string when the pattern did not
      match (the default of a `DiscographyAlbum` field). */
  function TrimmedOrEmpty(capture: Option<string>): (r: string)
    ensures capture.None? ==> r == []
    ensures capture.Some? ==> r == Trim(capture.value)
    ensures NoSpaceAtEdges(r) && NoAdjacentSpaces(r)
  {
    match capture
    case None => []
    case Some(c) => TrimProperties(c); Trim(c)
  }

  /** The discography entry built from one table row. */
  function RowAlbum(row: RowCaptures): (a: DiscographyAlbum)
    ensures row.title.None? ==> a.title == []
    ensures row.title.Some? ==> a.title == Trim(row.title.value)
    ensures row.year.None? ==> a.year == []
    ensures row.year.Some? ==> a.year == Trim(row.year.value)
  {
    DiscographyAlbum(TrimmedOrEmpty(row.title), TrimmedOrEmpty(row.year))
  }

  /** A row is kept when it has a title or a year. */
  predicate Kept(a: DiscographyAlbum): (b: bool)
    ensures !b <==> a == DiscographyAlbum([], [])
  {
    a.title != [] || a.year != []
  }

  function Last<T>(s: seq<T>): T
    requires s != []
  {
    s[|s| - 1]
  }

  function DropLast<T>(s: seq<T>): seq<T>
    requires s != []
  {
    s[..|s| - 1]
  }

  /** The entries appended for the table rows `rows`, in table order. */
  function DiscographyOf(rows: seq<RowCaptures>): (r: seq<DiscographyAlbum>)
    ensures |r| <= |rows|
  {
    if rows == [] then []
    else
      var a := RowAlbum(Last(rows));
      DiscographyOf(DropLast(rows)) + (if Kept(a) then [a] else [])
  }

  /** Every capture trimmed, in the same order. */
  function TrimAll(captures: seq<string>): (r: seq<string>)
    ensures |r| == |captures|
  {
    if captures == [] then []
    else TrimAll(DropLast(captures)) + [Trim(Last(captures))]
  }

  /** `QString::toInt` on a trimmed string: an optional sign and decimal
      digits giving a 32-bit value, and 0 for anything else. */
  function ToInt(s: string): (r: int)
    ensures -0x8000_0000 <= r < 0x8000_0000
  {
    var negative := |s| > 0 && s[0] == '-';
    var digits := if |s| > 0 && (s[0] == '-' || s[0] == '+') then s[1..] else s;
    if digits == [] || !AllDigits(digits) then 0
    else
      var n: int := DigitsValue(digits);
      var v := if negative then -n else n;
      if -0x8000_0000 <= v < 0x8000_0000 then v else 0
  }

  predicate AllDigits(s: string)
  {
    forall i :: 0 <= i < |s| ==> '0' <= s[i] <= '9'
  }

  /** The decimal value of a digit string. */
  function DigitsValue(s: string): nat
    requires AllDigits(s)
  {
    if s == [] then 0
    else DigitsValue(DropLast(s)) * 10 + (Last(s) as int - '0' as int)
  }

  function Pow10(k: nat): (p: nat)
    ensures p >= 1
  {
    if k == 0 then 1 else 10 * Pow10(k - 1)
  }

  // ---------------------------------------------------------------------
  // Properties

  lemma {:induction false} DiscographyStep(rows: seq<RowCaptures>, i: nat)
    requires i < |rows|
    ensures DiscographyOf(rows[..i + 1]) ==
      DiscographyOf(rows[..i]) + (if Kept(RowAlbum(rows[i])) then [RowAlbum(rows[i])] else [])
  {
    assert DropLast(rows[..i + 1]) == rows[..i];
  }

  lemma {:induction false} TrimAllStep(captures: seq<string>, i: nat)
    requires i < |captures|
    ensures TrimAll(captures[..i + 1]) == TrimAll(captures[..i]) + [Trim(captures[i])]
  {
    assert DropLast(captures[..i + 1]) == captures[..i];
  }

  /** The `k`-th appended genre or style is the `k`-th capture, trimmed. */
  lemma {:induction false} TrimAllAt(captures: seq<string>, k: nat)
    requires k < |captures|
    ensures |TrimAll(captures)| == |captures| && TrimAll(captures)[k] == Trim(captures[k])
  {
    if k < |captures| - 1 {
      TrimAllAt(DropLast(captures), k);
    }
  }

  /** A sign followed by decimal digits converts to their value, negated
      for `-`, whenever that value fits in 32 bits. */
  lemma {:induction false} ToIntDigits(sign: string, digits: string)
    requires sign == [] || sign == "-" || sign == "+"
    requires digits != [] && AllDigits(digits)
    requires DigitsValue(digits) < 0x8000_0000 || (sign == "-" && DigitsValue(digits) == 0x8000_0000)
    ensures ToInt(sign + digits) == (if sign == "-" then -(DigitsValue(digits) as int) else DigitsValue(digits))
  {
    var s := sign + digits;
    if sign == [] {
      assert s == digits;
    } else {
      assert s[0] == sign[0] && s[1..] == digits;
    }
  }

  /** A digit string of length `k` has a value below `10^k`; a year of
      four digits is below 10000. */
  lemma {:induction false} DigitsValueBound(s: string)
    requires AllDigits(s)
    ensures DigitsValue(s) < Pow10(|s|)
  {
    if s != [] {
      DigitsValueBound(DropLast(s));
    }
  }

  /** A value beyond the 32-bit range converts to 0. */
  lemma {:induction false} ToIntOverflow(sign: string, digits: string)
    requires sign == [] || sign == "-" || sign == "+"
    requires digits != [] && AllDigits(digits)
    requires DigitsValue(digits) > 0x8000_0000 || (sign != "-" && DigitsValue(digits) == 0x8000_0000)
    ensures ToInt(sign + digits) == 0
  {
    var s := sign + digits;
    if sign == [] {
      assert s == digits;
    } else {
      assert s[0] == sign[0] && s[1..] == digits;
    }
  }

  /** Text that is not an optional sign followed by digits converts to 0. */
  lemma {:induction false} ToIntRejects(s: string, k: nat)
    requires k < |s| && !('0' <= s[k] <= '9')
    requires k > 0 || (s[0] != '-' && s[0] != '+')
    ensures ToInt(s) == 0
  {
  }

  /** Every discography entry has a title or a year, and neither has
      whitespace at its ends. */
  lemma {:induction false} DiscographyEntries(rows: seq<RowCaptures>, k: nat)
    requires k < |DiscographyOf(rows)|
    ensures Kept(DiscographyOf(rows)[k])
    ensures NoSpaceAtEdges(DiscographyOf(rows)[k].title)
    ensures NoSpaceAtEdges(DiscographyOf(rows)[k].year)
  {
    var front := DiscographyOf(DropLast(rows));
    if k < |front| {
      DiscographyEntries(DropLast(rows), k);
    }
  }

  /** Discography rows are appended in table order: the entries for two
      consecutive parts of the table are those of the first part followed
      by those of the second. */
  lemma {:induction false} DiscographyAppend(a: seq<RowCaptures>, b: seq<RowCaptures>)
    ensures DiscographyOf(a + b) == DiscographyOf(a) + DiscographyOf(b)
    decreases |b|
  {
    if b == [] {
      assert a + b == a;
    } else {
      assert DropLast(a + b) == a + DropLast(b);
      assert Last(a + b) == Last(b);
      DiscographyAppend(a, DropLast(b));
      var x := RowAlbum(Last(b));
      ConcatAssoc(DiscographyOf(a), DiscographyOf(DropLast(b)), if Kept(x) then [x] else []);
    }
  }

  /** An entry is in the discography exactly when some row produced it and
      that row has a title or a year. */
  lemma {:induction false} DiscographyMember(rows: seq<RowCaptures>, a: DiscographyAlbum)
    ensures a in DiscographyOf(rows) <==> Kept(a) && exists row :: row in rows && RowAlbum(row) == a
  {
    if rows != [] {
      DiscographyMember(DropLast(rows), a);
      assert rows == DropLast(rows) + [Last(rows)];
      if row :| row in rows && RowAlbum(row) == a {
        if row != Last(rows) {
          assert row in DropLast(rows);
        }
      }
    }
  }

  /** A row with neither title nor year is dropped; any other row adds
      exactly its entry. */
  lemma {:induction false} SingleRow(row: RowCaptures)
    ensures DiscographyOf([row]) == (if Kept(RowAlbum(row)) then [RowAlbum(row)] else [])
  {
  }

  // ---------------------------------------------------------------------
  // Field assignment

  /** `parseAndAssignArtist`: name and biography are overwritten with the
      trimmed capture only when requested and matched; the kept rows of the
      discography table are appended in table order when requested. */
  method ParseAndAssignArtist(page: ArtistCaptures, artist: Artist, load: set<MusicScraperInfo>)
    modifies artist
    ensures artist.name ==
      (if Name in load && page.name.Some? then Trim(page.name.value) else old(artist.name))
    ensures artist.biography ==
      (if Biography in load && page.biography.Some? then Trim(page.biography.value)
       else old(artist.biography))
    ensures artist.discography ==
      (if Discography in load && page.discography.Some?
       then old(artist.discography) + DiscographyOf(page.discography.value)
       else old(artist.discography))
  {
    if Name in load {
      if page.name.Some? {
        artist.name := Trim(page.name.value);
      }
    }

    if Biography in load {
      if page.biography.Some? {
        artist.biography := Trim(page.biography.value);
      }
    }

    if Discography in load {
      if page.discography.Some? {
        artist.discography := AppendDiscography(artist.discography, page.discography.value);
      }
    }
  }

  /** The discography loop of `parseAndAssignArtist`: one entry per table
      row, built from the row's trimmed title and year captures, appended
      only when it has a title or a year. */
  method AppendDiscography(list: seq<DiscographyAlbum>, rows: seq<RowCaptures>)
    returns (r: seq<DiscographyAlbum>)
    ensures r == list + DiscographyOf(rows)
  {
    r := list;
    var i := 0;
    while i < |rows|
      invariant 0 <= i <= |rows|
      invariant r == list + DiscographyOf(rows[..i])
    {
      var a := DiscographyAlbum([], []);
      if rows[i].title.Some? {
        a := a.(title := Trim(rows[i].title.value));
      }
      if rows[i].year.Some? {
        a := a.(year := Trim(rows[i].year.value));
      }
      DiscographyStep(rows, i);
      if a.title != [] || a.year != [] {
        ConcatAssoc(list, DiscographyOf(rows[..i]), [a]);
        r := r + [a];
      }
      i := i + 1;
    }
    assert rows[..|rows|] == rows;
  }

  /** Appends every capture, trimmed, in match order (`addGenre` or
      `addStyle` in a loop). */
  method AppendTrimmed(list: seq<string>, captures: seq<string>) returns (r: seq<string>)
    ensures r == list + TrimAll(captures)
  {
    r := list;
    var i := 0;
    while i < |captures|
      invariant 0 <= i <= |captures|
      invariant r == list + TrimAll(captures[..i])
    {
      TrimAllStep(captures, i);
      ConcatAssoc(list, TrimAll(captures[..i]), [Trim(captures[i])]);
      r := r + [Trim(captures[i])];
      i := i + 1;
    }
    assert captures[..|captures|] == captures;
  }

  /** `parseAndAssignAlbum`: artist, title and year are overwritten only
      when requested and matched; genres and styles are appended, trimmed,
      in match order, only when requested. */
  method ParseAndAssignAlbum(page: AlbumCaptures, album: Album, load: set<MusicScraperInfo>)
    modifies album
    ensures album.artist ==
      (if ArtistName in load && page.artist.Some? then Trim(page.artist.value) else old(album.artist))
    ensures album.title ==
      (if Title in load && page.title.Some? then Trim(page.title.value) else old(album.title))
    ensures album.genres ==
      (if Genres in load && page.genres.Some? then old(album.genres) + TrimAll(page.genres.value)
       else old(album.genres))
    ensures album.styles ==
      (if Styles in load && page.styles.Some? then old(album.styles) + TrimAll(page.styles.value)
       else old(album.styles))
    ensures album.year ==
      (if Year in load && page.year.Some? then ToInt(Trim(page.year.value)) else old(album.year))
  {
    if ArtistName in load {
      if page.artist.Some? {
        album.artist := Trim(page.artist.value);
      }
    }

    if Title in load {
      if page.title.Some? {
        album.title := Trim(page.title.value);
      }
    }

    if Genres in load {
      if page.genres.Some? {
        album.genres := AppendTrimmed(album.genres, page.genres.value);
      }
    }

    if Styles in load {
      if page.styles.Some? {
        album.styles := AppendTrimmed(album.styles, page.styles.value);
      }
    }

    if Year in load {
      if page.year.Some? {
        var text := Trim(page.year.value);
        var year := ToInt(text);
        album.year := year;
      }
    }
  }
}
