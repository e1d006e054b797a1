/**
 * The artist loader, `load_artists`: a first pass that shapes each CSV row into an
 * `artist_data` entry and collects the set of genre names, the `Genres` inserts in
 * sorted order with the ids the database hands back, the batched `Artists` inserts, and
 * the `ArtistGenres` pairs.
 *
 * A row arrives with its columns already parsed: an empty `followers` or `popularity`
 * column is `None`, and a `genres` column that is empty or that `ast.literal_eval`
 * rejects is `None`. The database is reduced to the id it assigns to the k-th `Genres`
 * insert, `lastRowId(k)`.
 */
module ArtistLoader {
  import opened Wrappers
  import opened PyStr
  import LexOrder
  import Batching

  /** One row of `artists.csv`, parsed. */
  datatype ArtistRow = ArtistRow(
    id: string,
    name: string,
    followers: Option<real>,
    popularity: Option<int>,
    genres: Option<seq<string>>)

  /** One entry of `artist_data`. */
  datatype ArtistRecord = ArtistRecord(
    artistId: string,
    name: string,
    followers: int,
    popularity: int,
    genres: seq<string>)

  /** The parameters of one `Artists` insert. */
  datatype ArtistInsert = ArtistInsert(artistId: string, name: string, followers: int, popularity: int)

  /** An `ArtistGenres` pair. */
  datatype ArtistGenre = ArtistGenre(artistId: string, genreId: int)

  /** The width of the `name` column. */
  const NameWidth: nat := 200

  /** The number of artists inserted between two commits. */
  const ArtistBatchSize: nat := 1000

  /** The genre list of a row: the parsed list, or `[]` when the column is empty or unparsable. */
  function GenresOf(row: ArtistRow): seq<string> {
    row.genres.GetOr([])
  }

  /** The `artist_data` entry for one row. */
  function ShapeArtist(row: ArtistRow): ArtistRecord {
    ArtistRecord(
      artistId := row.id,
      name := row.name,
      followers := if row.followers.Some? then TruncToInt(row.followers.value) else 0,
      popularity := row.popularity.GetOr(0),
      genres := GenresOf(row))
  }

  /**
   * A missing follower count or popularity becomes 0; a present follower count is
   * truncated toward zero, so it keeps its sign and never grows in size; the name and
   * the genre list are kept as read.
   */
  lemma ShapedArtist(row: ArtistRow)
    ensures row.followers.None? ==> ShapeArtist(row).followers == 0
    ensures row.followers.Some? ==> ShapeArtist(row).followers == TruncToInt(row.followers.value)
    ensures row.followers.Some? && row.followers.value >= 0.0 ==>
      0.0 <= ShapeArtist(row).followers as real <= row.followers.value
    ensures row.followers.Some? && row.followers.value <= 0.0 ==>
      row.followers.value <= ShapeArtist(row).followers as real <= 0.0
    ensures ShapeArtist(row).popularity == if row.popularity.None? then 0 else row.popularity.value
    ensures ShapeArtist(row).artistId == row.id && ShapeArtist(row).name == row.name
    ensures ShapeArtist(row).genres == (if row.genres.None? then [] else row.genres.value)
  {
  }

  /** The genre names a list contributes: its stripped, non-blank entries. */
  function Kept(genres: seq<string>): set<string> {
    set g | g in StrippedNonBlank(genres)
  }

  /** One more list entry adds its stripped form exactly when it is not blank. */
  lemma KeptNext(genres: seq<string>, j: nat)
    requires j < |genres|
    ensures Kept(genres[..j + 1]) == Kept(genres[..j]) + (if NonBlank(genres[j]) then {Strip(genres[j])} else {})
  {
    assert genres[..j + 1] == genres[..j] + [genres[j]];
    StrippedNonBlankAppend(genres[..j], [genres[j]]);
    assert StrippedNonBlank([genres[j]]) == if NonBlank(genres[j]) then [Strip(genres[j])] else [];
  }

  /**
   * A list contributes exactly the stripped forms of its non-blank entries; none of them
   * is empty or carries surrounding white space.
   */
  lemma KeptMembers(genres: seq<string>)
    ensures forall g :: g in Kept(genres) <==> exists x <- genres :: NonBlank(x) && Strip(x) == g
    ensures forall g <- Kept(genres) :: g != "" && Strip(g) == g
  {
    StrippedNonBlankMembers(genres);
  }

  /** `genre_set` after the first pass over `rows`. */
  function GenreSet(rows: seq<ArtistRow>): set<string> {
    if rows == [] then {} else GenreSet(rows[..|rows| - 1]) + Kept(GenresOf(rows[|rows| - 1]))
  }

  /**
   * A genre is in the genre set of `rows` exactly when some row's list contributes it,
   * so (with `KeptMembers`) the set holds exactly the stripped non-blank genres of all
   * rows, and a blank or white-space-only genre never enters it.
   */
  lemma {:induction false} GenreSetHas(rows: seq<ArtistRow>, g: string)
    ensures g in GenreSet(rows) <==> exists i :: 0 <= i < |rows| && g in Kept(GenresOf(rows[i]))
  {
    if rows != [] {
      var n := |rows| - 1;
      GenreSetHas(rows[..n], g);
      assert forall i :: 0 <= i < n ==> rows[..n][i] == rows[i];
    }
  }

  /**
   * The first pass of `load_artists`: one `artist_data` entry per row, in order, and the
   * stripped non-blank genres of all rows collected in `genre_set`.
   */
  method ReadArtists(rows: seq<ArtistRow>) returns (genreSet: set<string>, artistData: seq<ArtistRecord>)
    ensures genreSet == GenreSet(rows)
    ensures |artistData| == |rows|
    ensures forall i :: 0 <= i < |rows| ==> artistData[i] == ShapeArtist(rows[i])
  {
    genreSet := {};
    artistData := [];
    var i := 0;
    while i < |rows|
      invariant 0 <= i <= |rows|
      invariant genreSet == GenreSet(rows[..i])
      invariant |artistData| == i
      invariant forall k :: 0 <= k < i ==> artistData[k] == ShapeArtist(rows[k])
    {
      var row := rows[i];
      var genresList := GenresOf(row);
      var j := 0;
      while j < |genresList|
        invariant 0 <= j <= |genresList|
        invariant genreSet == GenreSet(rows[..i]) + Kept(genresList[..j])
      {
        var genre := genresList[j];
        KeptNext(genresList, j);
        if genre != "" && Strip(genre) != "" {
          genreSet := genreSet + {Strip(genre)};
        }
        j := j + 1;
      }
      assert genresList[..j] == genresList;
      artistData := artistData + [ShapeArtist(row)];
      assert rows[..i + 1][..i] == rows[..i];
      i := i + 1;
    }
    assert rows[..i] == rows;
  }

  /**
   * The `Genres` inserts: every genre of the set once, in increasing order, each mapped
   * in `genre_map` to the id the database assigned to its insert. Distinct ids from the
   * database give distinct genres distinct ids.
   */
  method InsertGenres(genreSet: set<string>, lastRowId: nat -> int)
    returns (insertedGenres: seq<string>, genreMap: map<string, int>)
    ensures LexOrder.StrictlySorted(insertedGenres)
    ensures forall g :: g in insertedGenres <==> g in genreSet
    ensures |insertedGenres| == |genreSet|
    ensures genreMap.Keys == genreSet
    ensures forall k :: 0 <= k < |insertedGenres| ==> genreMap[insertedGenres[k]] == lastRowId(k)
    ensures (forall a: nat, b: nat :: a != b ==> lastRowId(a) != lastRowId(b)) ==>
      forall g, h :: g in genreMap && h in genreMap && g != h ==> genreMap[g] != genreMap[h]
  {
    insertedGenres := LexOrder.Sorted(genreSet);
    LexOrder.StrictlySortedDistinct(insertedGenres);
    genreMap := map[];
    var k := 0;
    while k < |insertedGenres|
      invariant 0 <= k <= |insertedGenres|
      invariant genreMap.Keys == set g | g in insertedGenres[..k]
      invariant forall m :: 0 <= m < k ==> genreMap[insertedGenres[m]] == lastRowId(m)
    {
      var genre := insertedGenres[k];
      genreMap := genreMap[genre := lastRowId(k)];
      assert insertedGenres[..k + 1] == insertedGenres[..k] + [genre];
      k := k + 1;
    }
    assert insertedGenres[..k] == insertedGenres;
    if forall a: nat, b: nat :: a != b ==> lastRowId(a) != lastRowId(b) {
      forall g, h | g in genreMap && h in genreMap && g != h ensures genreMap[g] != genreMap[h] {
        var a :| 0 <= a < |insertedGenres| && insertedGenres[a] == g;
        var b :| 0 <= b < |insertedGenres| && insertedGenres[b] == h;
        assert lastRowId(a) != lastRowId(b);
      }
    }
  }

  /** The parameters of the `Artists` insert for one entry: the name cut to the column width. */
  function ArtistParams(artist: ArtistRecord): (p: ArtistInsert)
    ensures |p.name| <= NameWidth && p.name <= artist.name
    ensures |artist.name| <= NameWidth ==> p.name == artist.name
    ensures p.artistId == artist.artistId
    ensures p.followers == artist.followers && p.popularity == artist.popularity
  {
    ArtistInsert(artist.artistId, Truncate(artist.name, NameWidth), artist.followers, artist.popularity)
  }

  /**
   * The `Artists` inserts, 1000 to a commit: one per entry of `artist_data`, in order,
   * each with a name of at most 200 characters.
   */
  method InsertArtists(artistData: seq<ArtistRecord>) returns (executed: seq<ArtistInsert>)
    ensures |executed| == |artistData|
    ensures forall k :: 0 <= k < |artistData| ==> executed[k] == ArtistParams(artistData[k])
    ensures forall p <- executed :: |p.name| <= NameWidth
  {
    executed := Batching.ExecuteInBatches(artistData, ArtistBatchSize, ArtistParams);
  }

  /**
   * The `ArtistGenres` pairs of one artist: for each genre entry, in list order, the
   * genre's id when it is not blank and its stripped form is in `genre_map`.
   */
  function GenreLinks(artistId: string, genres: seq<string>, genreMap: map<string, int>): seq<ArtistGenre> {
    if genres == [] then []
    else
      (if NonBlank(genres[0]) && Strip(genres[0]) in genreMap
       then [ArtistGenre(artistId, genreMap[Strip(genres[0])])] else [])
      + GenreLinks(artistId, genres[1..], genreMap)
  }

  lemma {:induction false} GenreLinksAppend(artistId: string, a: seq<string>, b: seq<string>, genreMap: map<string, int>)
    ensures GenreLinks(artistId, a + b, genreMap) == GenreLinks(artistId, a, genreMap) + GenreLinks(artistId, b, genreMap)
  {
    if a == [] {
      assert a + b == b;
    } else {
      assert (a + b)[0] == a[0] && (a + b)[1..] == a[1..] + b;
      GenreLinksAppend(artistId, a[1..], b, genreMap);
    }
  }

  /** The `ArtistGenres` pairs of all entries, entry after entry. */
  function AllGenreLinks(artists: seq<ArtistRecord>, genreMap: map<string, int>): seq<ArtistGenre> {
    if artists == [] then []
    else GenreLinks(artists[0].artistId, artists[0].genres, genreMap) + AllGenreLinks(artists[1..], genreMap)
  }

  lemma {:induction false} AllGenreLinksAppend(a: seq<ArtistRecord>, b: seq<ArtistRecord>, genreMap: map<string, int>)
    ensures AllGenreLinks(a + b, genreMap) == AllGenreLinks(a, genreMap) + AllGenreLinks(b, genreMap)
  {
    if a == [] {
      assert a + b == b;
    } else {
      assert (a + b)[0] == a[0] && (a + b)[1..] == a[1..] + b;
      AllGenreLinksAppend(a[1..], b, genreMap);
    }
  }

  /**
   * The inner loop of the last pass over one artist's genre list: a pair for each genre
   * that is not blank and whose stripped form is in `genre_map`, and `ag_count` raised
   * by one for each.
   */
  method AppendGenreLinks(artistGenres: seq<ArtistGenre>, agCount: nat, artist: ArtistRecord, genreMap: map<string, int>)
    returns (extended: seq<ArtistGenre>, count: nat)
    requires agCount == |artistGenres|
    ensures extended == artistGenres + GenreLinks(artist.artistId, artist.genres, genreMap)
    ensures count == |extended|
  {
    extended, count := artistGenres, agCount;
    var j := 0;
    while j < |artist.genres|
      invariant 0 <= j <= |artist.genres|
      invariant extended == artistGenres + GenreLinks(artist.artistId, artist.genres[..j], genreMap)
      invariant count == |extended|
    {
      var genre := artist.genres[j];
      ghost var done := GenreLinks(artist.artistId, artist.genres[..j], genreMap);
      assert artist.genres[..j + 1] == artist.genres[..j] + [genre];
      GenreLinksAppend(artist.artistId, artist.genres[..j], [genre], genreMap);
      if genre != "" && Strip(genre) != "" && Strip(genre) in genreMap {
        var pair := ArtistGenre(artist.artistId, genreMap[Strip(genre)]);
        assert (artistGenres + done) + [pair] == artistGenres + (done + [pair]);
        extended := extended + [pair];
        count := count + 1;
      } else {
        assert done + [] == done;
      }
      j := j + 1;
    }
    assert artist.genres[..j] == artist.genres;
  }

  /**
   * The last pass of `load_artists`: the pairs handed to `cur.execute`, in order, and
   * `ag_count`, one per pair.
   */
  method LinkGenres(artistData: seq<ArtistRecord>, genreMap: map<string, int>)
    returns (artistGenres: seq<ArtistGenre>, agCount: nat)
    ensures artistGenres == AllGenreLinks(artistData, genreMap)
    ensures agCount == |artistGenres|
  {
    artistGenres := [];
    agCount := 0;
    var i := 0;
    while i < |artistData|
      invariant 0 <= i <= |artistData|
      invariant artistGenres == AllGenreLinks(artistData[..i], genreMap)
      invariant agCount == |artistGenres|
    {
      var artist := artistData[i];
      artistGenres, agCount := AppendGenreLinks(artistGenres, agCount, artist, genreMap);
      AllGenreLinksAppend(artistData[..i], [artist], genreMap);
      assert artistData[..i + 1] == artistData[..i] + [artist];
      i := i + 1;
    }
    assert artistData[..i] == artistData;
  }

  /** The pairs `(artist_id, genre_map[g])` for genre names all present in the map. */
  function IdsOf(artistId: string, names: seq<string>, genreMap: map<string, int>): seq<ArtistGenre>
    requires forall g <- names :: g in genreMap
  {
    seq(|names|, k requires 0 <= k < |names| => ArtistGenre(artistId, genreMap[names[k]]))
  }

  /**
   * When `genre_map` covers every stripped non-blank genre of a list, the membership test
   * drops nothing: each non-blank genre yields its pair, in list order.
   */
  lemma {:induction false} NoGenreDropped(artistId: string, genres: seq<string>, genreMap: map<string, int>)
    requires Kept(genres) <= genreMap.Keys
    ensures GenreLinks(artistId, genres, genreMap) == IdsOf(artistId, StrippedNonBlank(genres), genreMap)
  {
    if genres != [] {
      var rest := StrippedNonBlank(genres[1..]);
      assert Kept(genres[1..]) <= Kept(genres);
      NoGenreDropped(artistId, genres[1..], genreMap);
      if NonBlank(genres[0]) {
        assert Strip(genres[0]) in Kept(genres);
        assert StrippedNonBlank(genres) == [Strip(genres[0])] + rest;
      } else {
        assert StrippedNonBlank(genres) == rest;
      }
    }
  }

  /** Every genre entry of every artist is covered by the genre set of all rows. */
  predicate Covers(artists: seq<ArtistRecord>, genreMap: map<string, int>) {
    forall i :: 0 <= i < |artists| ==> Kept(artists[i].genres) <= genreMap.Keys
  }

  /** The pairs of all entries when the map covers their genres: one per non-blank genre. */
  function AllIds(artists: seq<ArtistRecord>, genreMap: map<string, int>): seq<ArtistGenre>
    requires Covers(artists, genreMap)
  {
    if artists == [] then []
    else IdsOf(artists[0].artistId, StrippedNonBlank(artists[0].genres), genreMap) + AllIds(artists[1..], genreMap)
  }

  lemma {:induction false} AllNoGenreDropped(artists: seq<ArtistRecord>, genreMap: map<string, int>)
    requires Covers(artists, genreMap)
    ensures AllGenreLinks(artists, genreMap) == AllIds(artists, genreMap)
  {
    if artists != [] {
      NoGenreDropped(artists[0].artistId, artists[0].genres, genreMap);
      assert Covers(artists[1..], genreMap) by {
        forall i | 0 <= i < |artists| - 1 ensures Kept(artists[1..][i].genres) <= genreMap.Keys {
          assert artists[1..][i] == artists[i + 1];
        }
      }
      AllNoGenreDropped(artists[1..], genreMap);
    }
  }

  /** Each row's kept genres lie in the genre set of all rows. */
  lemma {:induction false} GenreSetCovers(rows: seq<ArtistRow>, i: nat)
    requires i < |rows|
    ensures Kept(GenresOf(rows[i])) <= GenreSet(rows)
  {
    if i < |rows| - 1 {
      assert rows[..|rows| - 1][i] == rows[i];
      GenreSetCovers(rows[..|rows| - 1], i);
    }
  }

  /**
   * The whole of `load_artists`: the genre map's keys are exactly the genre set, every
   * artist is inserted once with its name cut to 200 characters, and since the map
   * covers every genre, each artist's non-blank genres all become `ArtistGenres` pairs,
   * in order.
   */
  method LoadArtists(rows: seq<ArtistRow>, lastRowId: nat -> int)
    returns (artistData: seq<ArtistRecord>, insertedGenres: seq<string>, genreMap: map<string, int>,
             artistInserts: seq<ArtistInsert>, artistGenres: seq<ArtistGenre>, agCount: nat)
    ensures |artistData| == |rows| && forall i :: 0 <= i < |rows| ==> artistData[i] == ShapeArtist(rows[i])
    ensures genreMap.Keys == GenreSet(rows)
    ensures LexOrder.StrictlySorted(insertedGenres) && forall g :: g in insertedGenres <==> g in genreMap
    ensures forall k :: 0 <= k < |insertedGenres| ==> genreMap[insertedGenres[k]] == lastRowId(k)
    ensures (forall a: nat, b: nat :: a != b ==> lastRowId(a) != lastRowId(b)) ==>
      forall g, h :: g in genreMap && h in genreMap && g != h ==> genreMap[g] != genreMap[h]
    ensures |artistInserts| == |rows|
    ensures forall i :: 0 <= i < |rows| ==> artistInserts[i] == ArtistParams(artistData[i])
    ensures Covers(artistData, genreMap) && artistGenres == AllIds(artistData, genreMap)
    ensures agCount == |artistGenres|
  {
    var genreSet;
    genreSet, artistData := ReadArtists(rows);
    insertedGenres, genreMap := InsertGenres(genreSet, lastRowId);
    artistInserts := InsertArtists(artistData);
    artistGenres, agCount := LinkGenres(artistData, genreMap);
    forall i | 0 <= i < |artistData| ensures Kept(artistData[i].genres) <= genreMap.Keys {
      GenreSetCovers(rows, i);
    }
    AllNoGenreDropped(artistData, genreMap);
  }
}
