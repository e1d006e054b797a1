# Music dashboard: schema splitter and CSV loaders, in Dafny

This project models the data-preparation core of a music-dashboard database:

- **The schema statement splitter** of `setup_db.py`. It reads `schema.sql` line by line and:
  - drops lines whose stripped form starts with `--`;
  - cuts everything from the first `--` of the remaining lines;
  - accumulates the comment-free text in `current`;
  - closes a statement, stripped and emitted unless blank, at every line whose comment-free part holds a `;`.
- **The track loader** of `generate_load_data/load_tracks.py`. It has:
  - the four feature normalisers (`normalize_loudness`, `normalize_tempo`, `normalize_time_signature`, `normalize_key`);
  - the shaping of each CSV row into a `Tracks` record (title cut to 300 characters, defaults for missing columns);
  - the `TrackArtists` pairs built from each row's stripped, non-blank artist ids;
  - the two batched insert loops.
- **The artist loader** of `generate_load_data/load_artists.py`. It has:
  - the first pass that shapes `artist_data` and collects `genre_set`;
  - the `Genres` inserts in sorted order, filling `genre_map` with the ids the database returns;
  - the batched `Artists` inserts with names cut to 200 characters;
  - the `ArtistGenres` pairs.

Files:

| file | module | what it holds |
|---|---|---|
| `wrappers.dfy` | `Wrappers` | `Option`, the model of a column that may be missing |
| `py_str.dfy` | `PyStr` | The Python string operations the scripts use (see below) |
| `lex_order.dfy` | `LexOrder` | Python's string order, and `sorted()` of a set of strings |
| `batches.dfy` | `Batching` | The `for i in range(0, len(data), size): batch = data[i:i + size]` insert loop |
| `schema_split.dfy` | `SchemaSplit` | The splitter loop, and the properties of the statements it emits |
| `track_loader.dfy` | `TrackLoader` | The track loader |
| `artist_loader.dfy` | `ArtistLoader` | The artist loader |

`PyStr` covers these Python string operations:

- `str.isspace`, over Python's whitespace set;
- `strip`;
- `split('\n')`;
- `startswith`;
- `re.sub(r'--.*$', '', line)` on a single line;
- slicing to a width;
- `int(float(x))`, which truncates toward zero.

The splitter loop is the method `SchemaSplit.SplitStatements`. It works on the lines of the text, in the source's order. It is proved equal to `Statements`, which is a fold of one loop step over the classified lines. The properties are proved about that fold.

The loaders' loops are methods over sequences, sets and maps:

- `ReadTracks`;
- `ReadArtists`;
- `InsertGenres`;
- `LinkGenres`;
- `ExecuteInBatches`.

`ReadTracks`, `ReadArtists`, `LinkGenres` and the two inner-loop methods are proved equal to recursive specification functions. `ExecuteInBatches`, `InsertGenres`, `LexOrder.Least` and `LexOrder.Sorted` are proved against quantified contracts that state their results element by element. The inner loops over a row's artist-id list and over an artist's genre list are separate methods: `AppendRowLinks` and `AppendGenreLinks`.

**The database.** `cur.lastrowid` after the k-th `Genres` insert is a supplied function `lastRowId`. The inserts are the sequence of parameter tuples handed to `cur.execute`.

**Normalisation.** Loudness, tempo and time signature are clamped to [0, 1] (load_tracks.py:16, 27, 37). The key is divided by 11 and not clamped (load_tracks.py:64).

## Model

| member | source | states |
|---|---|---|
| SchemaSplit.SplitStatements | setup_db.py:21-35 | The loop's statement list is exactly `Statements(schema)`, and every statement it emits is well formed: non-empty, stripped at both ends, free of `--`, containing `;`, with all its `;` on its last line |
| SchemaSplit.KindOf | setup_db.py:24-28 | A line is classified as a comment line exactly when its stripped form starts with `--`. Otherwise its kept text is a prefix of the line |
| SchemaSplit.CommentLineContributesNothing | setup_db.py:24-26 | A whole-line comment at any position changes nothing: the same statements and the same pending text as without that line |
| SchemaSplit.NoTerminatorOnlyAccumulates | setup_db.py:28-31 | Lines without a `;` outside their comment emit nothing. They only append their comment-free text, each followed by a newline, to `current` |
| SchemaSplit.StatementOfBlock | setup_db.py:29-35 | A statement is the stripped comment-free text since the previous terminator, up to and including the terminator line. It is emitted only if non-blank, and `current` is reset |
| SchemaSplit.TrailingTextDropped | setup_db.py:29-35 | Lines after the last terminator never reach the statement list: `current` is discarded when the loop ends |
| SchemaSplit.StatementsInSourceOrder | setup_db.py:23-35 | The statements of an earlier stretch of lines precede those of a later stretch. The later stretch continues from the text the earlier one left pending |
| SchemaSplit.OneStatementPerTerminator | setup_db.py:29-35 | The number of statements equals the number of lines whose comment-free part holds a `;`: such a line always closes a non-blank statement, so `if stmt:` never skips one, and a `;` inside a comment closes nothing |
| SchemaSplit.StatementsWellFormed | setup_db.py:28-35 | Every emitted statement is non-empty, stripped, has no `--`, contains `;`, and has no newline after any `;` |
| SchemaSplit.ClosedStatement | setup_db.py:29-34 | Closing a statement on a `;` line after `;`-free, `--`-free pending text yields a well-formed statement |
| SchemaSplit.ClosedSemicolonsOnLastLine | setup_db.py:29-35 | When the pending text has no `;`, all `;` of the closed statement lie on its last line |
| SchemaSplit.ClosedHasSemicolon | setup_db.py:31-32 | A statement closed by a `;` line still contains that `;` after stripping |
| SchemaSplit.AccumulateNoDashDash | setup_db.py:28-29 | Appending a cut line and a newline to pending text creates no `--` across the junction |
| SchemaSplit.RunGood | setup_db.py:23-35 | The loop keeps its invariant: emitted statements well formed, pending text free of `;` and `--`, ending in a newline when non-empty |
| SchemaSplit.RunAppend | setup_db.py:23-35 | Running the loop over two stretches of lines is running it over the first, then over the second from the resulting state |
| SchemaSplit.RunExtends | setup_db.py:23-35 | The loop only appends to `statements`. It never changes or removes a statement already emitted |
| PyStr.CutComment | setup_db.py:28 | The cut line is a prefix of the line and contains no `--` |
| PyStr.CutAtFirstDashes | setup_db.py:28 | A line is left unchanged exactly when it has no `--`. Otherwise the removed part starts with `--`, so the cut is at the first `--` |
| PyStr.SplitLines | setup_db.py:23 | `split('\n')` yields at least one piece, and no piece contains a newline |
| PyStr.JoinSplitLines | setup_db.py:23 | Joining the pieces with newlines gives back the text |
| PyStr.SplitJoinLines | setup_db.py:23 | Splitting newline-free pieces joined with newlines gives back the pieces |
| PyStr.Strip | setup_db.py:32 | The result is no longer than the input and has no white space at either end |
| PyStr.StripSlice | setup_db.py:32 | The result is a contiguous slice of the input, and only white space lies before and after it |
| PyStr.StripEmptyIffBlank | setup_db.py:33 | The stripped text is empty exactly when every character is white space |
| PyStr.StripIdempotent | setup_db.py:32 | Stripping twice is stripping once |
| PyStr.Truncate | generate_load_data/load_tracks.py:110 | The cut text has at most n characters, is a prefix of the input, and equals the input when it already fits |
| PyStr.TruncToInt | generate_load_data/load_tracks.py:34 | `int(float(x))` truncates toward zero: it lies within 1 of x on x's side of zero |
| PyStr.TruncMonotone | generate_load_data/load_tracks.py:34-37 | Truncation toward zero is monotone |
| PyStr.StrippedNonBlankMembers | generate_load_data/load_tracks.py:134-139 | The kept ids are exactly the stripped forms of the non-blank entries. None of them is empty or has surrounding white space |
| PyStr.StrippedNonBlankAppend | generate_load_data/load_tracks.py:134-139 | Filtering a concatenation concatenates the filtered parts, so list order is kept |
| TrackLoader.Clamp01 | generate_load_data/load_tracks.py:16 | `max(0.0, min(1.0, x))` lies in [0, 1], is x inside [0, 1], and is the nearest endpoint outside |
| TrackLoader.Clamp01Monotone | generate_load_data/load_tracks.py:16 | The clamp is monotone |
| TrackLoader.NormalizeLoudness | generate_load_data/load_tracks.py:8-16 | None exactly for a missing value. Otherwise in [0, 1]: 0 at or below -60 dB, 1 at or above 0 dB, linear in between |
| TrackLoader.NormalizeTempo | generate_load_data/load_tracks.py:19-27 | None exactly for a missing value. Otherwise in [0, 1]: 0 at or below 60 BPM, 1 at or above 200 BPM, linear in between |
| TrackLoader.NormalizeTimeSignature | generate_load_data/load_tracks.py:30-37 | None exactly for a missing value. Otherwise the value is first truncated toward zero, and the result lies in [0, 1]: 0 for 3 or less, 1 for 7 or more, linear in between |
| TrackLoader.NormalizeKey | generate_load_data/load_tracks.py:58-64 | None exactly for a missing value. Otherwise the truncated key divided by 11, unclamped: keys 0..11 land in [0, 1], keys above 11 above 1, negative keys below 0 |
| TrackLoader.NormalizersMonotone | generate_load_data/load_tracks.py:8-37 | The three clamped normalisers are monotone non-decreasing |
| TrackLoader.TruncOpt | generate_load_data/load_tracks.py:81 | `int(float(x)) if x else None` is None exactly when the column is missing |
| TrackLoader.ShapedTrack | generate_load_data/load_tracks.py:78-131 | A record's title has at most 300 characters, is a prefix of the name, and is the whole name when that fits. Missing popularity is 0, missing explicit is false, the normalised columns lie in [0, 1], and each is None exactly when its column is missing |
| TrackLoader.RowLinksExact | generate_load_data/load_tracks.py:134-139 | A row's pairs are exactly its stripped non-blank artist ids, in list order, all carrying the row's track id. An id is linked exactly when some non-blank entry strips to it |
| TrackLoader.AppendRowLinks | generate_load_data/load_tracks.py:134-139 | The inner loop appends exactly the pairs of the row's stripped non-blank ids, in list order |
| TrackLoader.ReadTracks | generate_load_data/load_tracks.py:72-139 | The first pass yields one record per row, in row order, each the row's shaped record, and all rows' pairs, row after row |
| TrackLoader.AllLinksAppend | generate_load_data/load_tracks.py:77-139 | The pairs of a concatenation of rows are the pairs of each part, in order |
| TrackLoader.LoadTracks | generate_load_data/load_tracks.py:68-223 | Every row is inserted once, in order, with a title of at most 300 characters and normalised columns in [0, 1], and the `TrackArtists` inserts are all rows' pairs in order |
| Batching.ExecuteInBatches | generate_load_data/load_tracks.py:159-163 | The batched loop executes one insert per element, every element exactly once, in list order |
| LexOrder.LessIrreflexive | generate_load_data/load_artists.py:51 | No string sorts before itself |
| LexOrder.LessTransitive | generate_load_data/load_artists.py:51 | Python's string order is transitive |
| LexOrder.LessTotal | generate_load_data/load_artists.py:51 | Two strings differ exactly when one sorts before the other, and never both |
| LexOrder.Least | generate_load_data/load_artists.py:51 | The result is in the set and sorts before every other member |
| LexOrder.Sorted | generate_load_data/load_artists.py:51 | `sorted(set)` lists every member of the set once, in strictly increasing order |
| LexOrder.SortedUnique | generate_load_data/load_artists.py:51 | Two strictly sorted lists with the same members are equal, so `Sorted` returns Python's `sorted()` list |
| LexOrder.StrictlySortedDistinct | generate_load_data/load_artists.py:51-54 | A strictly sorted list holds no string twice, so no genre is inserted twice |
| ArtistLoader.ShapedArtist | generate_load_data/load_artists.py:18-41 | Missing followers and popularity become 0. Present followers are `int(float(x))`, truncated toward zero. The id, the name and the parsed genre list are kept as read, and an empty or unparsable genre column becomes `[]` |
| ArtistLoader.KeptMembers | generate_load_data/load_artists.py:31-33 | A genre list contributes exactly the stripped forms of its non-blank entries. None is empty or has surrounding white space |
| ArtistLoader.GenreSetHas | generate_load_data/load_artists.py:31-33 | A genre is in the genre set exactly when some row's list contributes it |
| ArtistLoader.ReadArtists | generate_load_data/load_artists.py:12-41 | The first pass yields one shaped entry per row, in order, and `genre_set` equal to the genre set of all rows |
| ArtistLoader.InsertGenres | generate_load_data/load_artists.py:48-54 | The set's genres are inserted once each, in strictly increasing order. `genre_map` has exactly the set as keys and maps the k-th inserted genre to the k-th returned id. Distinct returned ids give distinct genres distinct ids |
| ArtistLoader.ArtistParams | generate_load_data/load_artists.py:72-78 | The inserted name has at most 200 characters, is a prefix of the name, and is the whole name when that fits. The other columns are passed unchanged |
| ArtistLoader.InsertArtists | generate_load_data/load_artists.py:66-78 | Every artist is inserted once, in order, 1000 to a batch, with a name of at most 200 characters |
| ArtistLoader.GenreLinksAppend | generate_load_data/load_artists.py:99-106 | The pairs of a concatenated genre list are the pairs of each part, in order |
| ArtistLoader.AppendGenreLinks | generate_load_data/load_artists.py:99-106 | The inner loop appends exactly the artist's pairs and raises `ag_count` by one per pair |
| ArtistLoader.LinkGenres | generate_load_data/load_artists.py:97-109 | The last pass yields all artists' pairs, artist after artist, and `ag_count` equals their number |
| ArtistLoader.AllGenreLinksAppend | generate_load_data/load_artists.py:98-106 | The pairs of concatenated artist lists are the pairs of each part, in order |
| ArtistLoader.NoGenreDropped | generate_load_data/load_artists.py:100-105 | When `genre_map` covers a list's genres, the membership test drops nothing: each non-blank genre yields the pair with the id of its stripped form, in list order |
| ArtistLoader.AllNoGenreDropped | generate_load_data/load_artists.py:98-106 | The same holds for all artists together |
| ArtistLoader.GenreSetCovers | generate_load_data/load_artists.py:31-33 | Every row's kept genres lie in the genre set of all rows |
| ArtistLoader.LoadArtists | generate_load_data/load_artists.py:7-116 | `genre_map`'s keys are exactly the genre set, and genres are inserted in strictly increasing order. Every artist is inserted once, in order, with its name cut to 200 characters. Because the map covers every genre, each artist's non-blank genres all become `ArtistGenres` pairs, in list order |

## Left out

- Database effects are not modelled. The project holds no `cur.execute` outcome, `conn.commit`, `rollback` or connection handling, and does not model the swallowing of `IntegrityError` and `mysql.connector.Error`. An insert is modelled as the parameter tuple handed to `cur.execute`.
- `cur.lastrowid` is a supplied function from insert index to id. Its injectivity is a hypothesis of the `InsertGenres` clause about distinct ids.
- ArtistLoader.LinkGenres: `ag_count` counts every pair handed to `cur.execute`. The source does not count an insert the database rejects with `IntegrityError`, and that outcome is database state.
- ArtistLoader.AppendGenreLinks: the same gap. It raises `ag_count` for every pair handed to `cur.execute`, including one the database would reject.
- ArtistLoader.LoadArtists: the same gap. Its `agCount` equals the number of `ArtistGenres` pairs handed to `cur.execute`, while the source's `ag_count` (load_artists.py:106) leaves out inserts that raise `IntegrityError` (load_artists.py:107-109).
- LoadTracks: `inserted_count` and `ta_count` are not modelled. They count only the inserts the database accepts.
- The statement-execution loop of `setup_db.py` (lines 37-50) is not modelled. It is database I/O.
- The commits are left out. The track, track-artist and artist loops commit after every batch (load_tracks.py:191, 219; load_artists.py:84). The artist-genre loop commits after an artist only when `ag_count` is then a positive multiple of 10000 (load_artists.py:111-112), plus once at the end. Commits decide what is durable, not which inserts are executed.
- All `print`s are left out: the progress lines, the summary counts and the per-duplicate warnings. They have no effect on the data.
- CSV reading and the `float()`, `int()` and `ast.literal_eval` conversions are taken as done. A row arrives parsed, and a missing or empty column is `None`. An unparsable list literal is `None` as well, which the loaders turn into `[]`.
  - List elements are assumed to be strings. A truthy non-string element (such as `5`) makes `.strip()` raise. A falsy one (`None`, `0`) is skipped like a blank string, which the model covers as `""`.
  - A malformed number would make the source raise. The model has no such path.
- Floats are modelled as `real`, so IEEE rounding is not modelled.
- `parse_release_date` and the `release_date` column are not modelled. They are a wrapper over `datetime.strptime`, whose behaviour is not part of this model.
- `TrackRecord` has no release-date field.
- `normalize_key`'s result (`key_normalized`, load_tracks.py:95) is computed but never stored. `Tracks.key_signature` receives the truncated raw key. `NormalizeKey` is modelled on its own, and `ShapeTrack` stores the truncated key as the source does.
- Strings are sequences of code points. No encoding or normalisation is modelled.
- The splitter does not recognise SQL quoting, and neither does the model. A `--` inside a quoted literal starts a comment, and a `;` inside a quoted literal closes a statement.
- `re.sub(r'--.*$', '', line)` is modelled as cutting at the first `--`. This is exact because a line produced by `split('\n')` holds no newline.
- `generate_fake_users.py`, `load_fake_users.py`, `db_config.py` and the Flask application are not part of this model.
