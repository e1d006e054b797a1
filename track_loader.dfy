/**
 * The track loader: the feature normalisers and the first pass of `load_tracks`, which
 * turns each CSV row into a `Tracks` record and a list of `TrackArtists` pairs.
 *
 * CSV reading and the `float()`, `int()` and `ast.literal_eval` conversions are taken as
 * done: a row arrives with its columns already parsed, and an empty column as `None`.
 */
module TrackLoader {
  import opened Wrappers
  import opened PyStr
  import Batching

  /** `max(0.0, min(1.0, x))`. */
  function Clamp01(x: real): (r: real)
    ensures 0.0 <= r <= 1.0
    ensures 0.0 <= x <= 1.0 ==> r == x
    ensures x <= 0.0 ==> r == 0.0
    ensures 1.0 <= x ==> r == 1.0
  {
    var m := if x < 1.0 then x else 1.0;
    if m > 0.0 then m else 0.0
  }

  /** Clamping keeps the order of its arguments. */
  lemma Clamp01Monotone(x: real, y: real)
    requires x <= y
    ensures Clamp01(x) <= Clamp01(y)
  {
  }

  /**
   * Loudness in dB: missing stays missing; otherwise -60 dB maps to 0, 0 dB to 1,
   * linearly in between, and anything outside to the nearer end.
   */
  function NormalizeLoudness(loudness: Option<real>): (r: Option<real>)
    ensures r.None? <==> loudness.None?
    ensures r.Some? ==> 0.0 <= r.value <= 1.0
    ensures r.Some? && loudness.value <= -60.0 ==> r.value == 0.0
    ensures r.Some? && 0.0 <= loudness.value ==> r.value == 1.0
    ensures r.Some? && -60.0 <= loudness.value <= 0.0 ==> r.value * 60.0 == loudness.value + 60.0
  {
    match loudness
    case None => None
    case Some(db) => Some(Clamp01((db + 60.0) / 60.0))
  }

  /**
   * Tempo in BPM: missing stays missing; otherwise 60 BPM maps to 0, 200 BPM to 1,
   * linearly in between, and anything outside to the nearer end.
   */
  function NormalizeTempo(tempo: Option<real>): (r: Option<real>)
    ensures r.None? <==> tempo.None?
    ensures r.Some? ==> 0.0 <= r.value <= 1.0
    ensures r.Some? && tempo.value <= 60.0 ==> r.value == 0.0
    ensures r.Some? && 200.0 <= tempo.value ==> r.value == 1.0
    ensures r.Some? && 60.0 <= tempo.value <= 200.0 ==> r.value * 140.0 == tempo.value - 60.0
  {
    match tempo
    case None => None
    case Some(bpm) => Some(Clamp01((bpm - 60.0) / 140.0))
  }

  /**
   * Time signature: missing stays missing; otherwise the value is truncated toward zero,
   * 3 maps to 0, 7 to 1, linearly in between, and anything outside to the nearer end.
   */
  function NormalizeTimeSignature(ts: Option<real>): (r: Option<real>)
    ensures r.None? <==> ts.None?
    ensures r.Some? ==> 0.0 <= r.value <= 1.0
    ensures r.Some? && TruncToInt(ts.value) <= 3 ==> r.value == 0.0
    ensures r.Some? && 7 <= TruncToInt(ts.value) ==> r.value == 1.0
    ensures r.Some? && 3 <= TruncToInt(ts.value) <= 7 ==> r.value * 4.0 == (TruncToInt(ts.value) - 3) as real
  {
    match ts
    case None => None
    case Some(v) => Some(Clamp01((TruncToInt(v) - 3) as real / 4.0))
  }

  /**
   * Key: missing stays missing; otherwise the truncated key divided by 11, NOT clamped:
   * keys 0 to 11 land in [0, 1], 0 on 0 and 11 on 1, and keys outside land outside.
   */
  function NormalizeKey(key: Option<real>): (r: Option<real>)
    ensures r.None? <==> key.None?
    ensures r.Some? ==> r.value * 11.0 == TruncToInt(key.value) as real
    ensures r.Some? && 0 <= TruncToInt(key.value) <= 11 ==> 0.0 <= r.value <= 1.0
    ensures r.Some? && TruncToInt(key.value) > 11 ==> r.value > 1.0
    ensures r.Some? && TruncToInt(key.value) < 0 ==> r.value < 0.0
  {
    match key
    case None => None
    case Some(v) => Some(TruncToInt(v) as real / 11.0)
  }

  /** The clamped normalisers never decrease when their input grows. */
  lemma NormalizersMonotone(x: real, y: real)
    requires x <= y
    ensures NormalizeLoudness(Some(x)).value <= NormalizeLoudness(Some(y)).value
    ensures NormalizeTempo(Some(x)).value <= NormalizeTempo(Some(y)).value
    ensures NormalizeTimeSignature(Some(x)).value <= NormalizeTimeSignature(Some(y)).value
  {
    Clamp01Monotone((x + 60.0) / 60.0, (y + 60.0) / 60.0);
    Clamp01Monotone((x - 60.0) / 140.0, (y - 60.0) / 140.0);
    TruncMonotone(x, y);
    Clamp01Monotone((TruncToInt(x) - 3) as real / 4.0, (TruncToInt(y) - 3) as real / 4.0);
  }

  /** A CSV row of `tracks.csv`, each column parsed, `None` where the column is empty. */
  datatype TrackRow = TrackRow(
    id: string,
    name: string,
    popularity: Option<int>,
    durationMs: Option<real>,
    explicit: Option<int>,
    // `None`: an empty column, or a list literal that `ast.literal_eval` rejects
    idArtists: Option<seq<string>>,
    danceability: Option<real>,
    energy: Option<real>,
    key: Option<real>,
    loudness: Option<real>,
    mode: Option<real>,
    speechiness: Option<real>,
    acousticness: Option<real>,
    instrumentalness: Option<real>,
    liveness: Option<real>,
    valence: Option<real>,
    tempo: Option<real>,
    timeSignature: Option<real>)

  /** The `Tracks` record built for one row (the release date is not part of this model). */
  datatype TrackRecord = TrackRecord(
    trackId: string,
    title: string,
    durationMs: Option<int>,
    explicit: bool,
    keySignature: Option<int>,
    mode: Option<int>,
    danceability: Option<real>,
    energy: Option<real>,
    loudness: Option<real>,
    speechiness: Option<real>,
    acousticness: Option<real>,
    instrumentalness: Option<real>,
    liveness: Option<real>,
    valence: Option<real>,
    tempo: Option<real>,
    timeSignature: Option<real>,
    popularity: int)

  /** A `TrackArtists` pair. */
  datatype TrackArtist = TrackArtist(trackId: string, artistId: string)

  /** The width of the `title` column. */
  const TitleWidth: nat := 300

  /** The number of tracks inserted between two commits. */
  const TrackBatchSize: nat := 1000

  /** The number of track-artist pairs inserted between two commits. */
  const TrackArtistBatchSize: nat := 5000

  /** `int(float(x)) if x else None`. */
  function TruncOpt(x: Option<real>): (r: Option<int>)
    ensures r.None? <==> x.None?
  {
    match x
    case None => None
    case Some(v) => Some(TruncToInt(v))
  }

  /** The three normalised columns stay in [0, 1]. */
  predicate NormalizedInRange(t: TrackRecord) {
    (t.loudness.Some? ==> 0.0 <= t.loudness.value <= 1.0)
    && (t.tempo.Some? ==> 0.0 <= t.tempo.value <= 1.0)
    && (t.timeSignature.Some? ==> 0.0 <= t.timeSignature.value <= 1.0)
  }

  /** The `track_data` entry for one row. */
  function ShapeTrack(row: TrackRow): (t: TrackRecord)
    ensures t.trackId == row.id
  {
    TrackRecord(
      trackId := row.id,
      title := Truncate(row.name, TitleWidth),
      durationMs := TruncOpt(row.durationMs),
      explicit := row.explicit.Some? && row.explicit.value != 0,
      keySignature := TruncOpt(row.key),
      mode := TruncOpt(row.mode),
      danceability := row.danceability,
      energy := row.energy,
      loudness := NormalizeLoudness(row.loudness),
      speechiness := row.speechiness,
      acousticness := row.acousticness,
      instrumentalness := row.instrumentalness,
      liveness := row.liveness,
      valence := row.valence,
      tempo := NormalizeTempo(row.tempo),
      timeSignature := NormalizeTimeSignature(row.timeSignature),
      popularity := row.popularity.GetOr(0))
  }

  /** The artist ids of a row: the parsed list, or `[]` when the column is empty or unparsable. */
  function ArtistIds(row: TrackRow): seq<string> {
    row.idArtists.GetOr([])
  }

  /** The pairs `(track_id, id)` for a list of artist ids. */
  function PairWith(trackId: string, ids: seq<string>): seq<TrackArtist> {
    seq(|ids|, k requires 0 <= k < |ids| => TrackArtist(trackId, ids[k]))
  }

  /** The `TrackArtists` pairs of one row: its stripped, non-blank artist ids, in list order. */
  function RowLinks(row: TrackRow): seq<TrackArtist> {
    PairWith(row.id, StrippedNonBlank(ArtistIds(row)))
  }

  /** The `TrackArtists` pairs of all rows, row after row. */
  function AllLinks(rows: seq<TrackRow>): seq<TrackArtist> {
    if rows == [] then [] else RowLinks(rows[0]) + AllLinks(rows[1..])
  }

  lemma {:induction false} AllLinksAppend(a: seq<TrackRow>, b: seq<TrackRow>)
    ensures AllLinks(a + b) == AllLinks(a) + AllLinks(b)
  {
    if a == [] {
      assert a + b == b;
    } else {
      assert (a + b)[0] == a[0] && (a + b)[1..] == a[1..] + b;
      AllLinksAppend(a[1..], b);
    }
  }

  /** One more artist id adds its pair exactly when it is not blank. */
  lemma PairWithNext(trackId: string, ids: seq<string>, j: nat)
    requires j < |ids|
    ensures PairWith(trackId, StrippedNonBlank(ids[..j + 1]))
      == PairWith(trackId, StrippedNonBlank(ids[..j]))
         + (if NonBlank(ids[j]) then [TrackArtist(trackId, Strip(ids[j]))] else [])
  {
    assert ids[..j + 1] == ids[..j] + [ids[j]];
    StrippedNonBlankAppend(ids[..j], [ids[j]]);
    assert StrippedNonBlank([ids[j]]) == if NonBlank(ids[j]) then [Strip(ids[j])] else [];
  }

  /**
   * The inner loop of `load_tracks` over one row's artist ids: a pair for each id that
   * is not blank, stripped, appended in list order.
   */
  method AppendRowLinks(trackArtistsData: seq<TrackArtist>, trackId: string, idArtistsList: seq<string>)
    returns (extended: seq<TrackArtist>)
    ensures extended == trackArtistsData + PairWith(trackId, StrippedNonBlank(idArtistsList))
  {
    extended := trackArtistsData;
    var j := 0;
    while j < |idArtistsList|
      invariant 0 <= j <= |idArtistsList|
      invariant extended == trackArtistsData + PairWith(trackId, StrippedNonBlank(idArtistsList[..j]))
    {
      var artistId := idArtistsList[j];
      PairWithNext(trackId, idArtistsList, j);
      ghost var done := PairWith(trackId, StrippedNonBlank(idArtistsList[..j]));
      if artistId != "" && Strip(artistId) != "" {
        var pair := TrackArtist(trackId, Strip(artistId));
        assert (trackArtistsData + done) + [pair] == trackArtistsData + (done + [pair]);
        extended := extended + [pair];
      } else {
        assert done + [] == done;
      }
      j := j + 1;
    }
    assert idArtistsList[..j] == idArtistsList;
  }

  /**
   * The first pass of `load_tracks`: one record per row, in order, and the row's
   * non-blank artist ids, stripped, as pairs with the row's track id.
   */
  method ReadTracks(rows: seq<TrackRow>) returns (trackData: seq<TrackRecord>, trackArtistsData: seq<TrackArtist>)
    ensures |trackData| == |rows|
    ensures forall i :: 0 <= i < |rows| ==> trackData[i] == ShapeTrack(rows[i])
    ensures trackArtistsData == AllLinks(rows)
  {
    trackData := [];
    trackArtistsData := [];
    var i := 0;
    while i < |rows|
      invariant 0 <= i <= |rows|
      invariant |trackData| == i
      invariant forall k :: 0 <= k < i ==> trackData[k] == ShapeTrack(rows[k])
      invariant trackArtistsData == AllLinks(rows[..i])
    {
      var row := rows[i];
      trackData := trackData + [ShapeTrack(row)];
      trackArtistsData := AppendRowLinks(trackArtistsData, row.id, ArtistIds(row));
      AllLinksAppend(rows[..i], [row]);
      assert rows[..i + 1] == rows[..i] + [row];
      i := i + 1;
    }
    assert rows[..i] == rows;
  }

  /**
   * What the record of a row holds: the title cut to the column width (kept whole when
   * it fits), missing popularity and explicit flag defaulted to 0 and false, and the
   * normalised columns inside [0, 1], missing exactly when the raw column is.
   */
  lemma ShapedTrack(row: TrackRow)
    ensures var t := ShapeTrack(row);
      |t.title| <= TitleWidth && t.title <= row.name
      && (|row.name| <= TitleWidth ==> t.title == row.name)
      && (row.popularity.None? ==> t.popularity == 0)
      && (row.explicit.None? ==> !t.explicit)
      && NormalizedInRange(t)
      && (t.loudness.None? <==> row.loudness.None?)
      && (t.tempo.None? <==> row.tempo.None?)
      && (t.timeSignature.None? <==> row.timeSignature.None?)
  {
  }

  /**
   * The pairs of a row are one per artist id that is not blank, stored stripped, in
   * list order, all carrying the row's track id; no pair has a blank or padded id.
   */
  lemma RowLinksExact(row: TrackRow)
    ensures var ids := StrippedNonBlank(ArtistIds(row));
      |RowLinks(row)| == |ids|
      && (forall k :: 0 <= k < |ids| ==> RowLinks(row)[k] == TrackArtist(row.id, ids[k]))
    ensures forall p <- RowLinks(row) :: p.trackId == row.id && p.artistId != "" && Strip(p.artistId) == p.artistId
    ensures forall a :: TrackArtist(row.id, a) in RowLinks(row) <==>
      exists x <- ArtistIds(row) :: NonBlank(x) && Strip(x) == a
  {
    var ids := StrippedNonBlank(ArtistIds(row));
    StrippedNonBlankMembers(ArtistIds(row));
    forall a ensures TrackArtist(row.id, a) in RowLinks(row) <==> a in ids {
      if TrackArtist(row.id, a) in RowLinks(row) {
        var k :| 0 <= k < |ids| && RowLinks(row)[k] == TrackArtist(row.id, a);
      }
      if a in ids {
        var k :| 0 <= k < |ids| && ids[k] == a;
        assert RowLinks(row)[k] == TrackArtist(row.id, a);
      }
    }
    forall p <- RowLinks(row) ensures p.trackId == row.id && p.artistId != "" && Strip(p.artistId) == p.artistId {
      var k :| 0 <= k < |ids| && RowLinks(row)[k] == p;
      assert ids[k] in ids;
    }
  }

  /**
   * The whole of `load_tracks`: the `Tracks` inserts, 1000 to a commit, one per row in
   * order, each with a title of at most 300 characters and its normalised features in
   * [0, 1]; then the `TrackArtists` inserts, 5000 to a commit, one per non-blank artist
   * id of each row, in order.
   */
  method LoadTracks(rows: seq<TrackRow>) returns (trackInserts: seq<TrackRecord>, trackArtistInserts: seq<TrackArtist>)
    ensures |trackInserts| == |rows|
    ensures forall i :: 0 <= i < |rows| ==> trackInserts[i] == ShapeTrack(rows[i])
    ensures forall t <- trackInserts :: |t.title| <= TitleWidth && NormalizedInRange(t)
    ensures trackArtistInserts == AllLinks(rows)
  {
    var trackData, trackArtistsData := ReadTracks(rows);
    trackInserts := Batching.ExecuteInBatches(trackData, TrackBatchSize, (t: TrackRecord) => t);
    trackArtistInserts := Batching.ExecuteInBatches(trackArtistsData, TrackArtistBatchSize, (p: TrackArtist) => p);
    assert trackArtistInserts == trackArtistsData;
    forall t <- trackInserts ensures |t.title| <= TitleWidth && NormalizedInRange(t) {
      var i :| 0 <= i < |rows| && trackInserts[i] == t;
      ShapedTrack(rows[i]);
    }
  }
}
