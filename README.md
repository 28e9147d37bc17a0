# Song-play ETL: a verified model

This project models the transform-and-load core of a small batch ETL job. The job
reads two families of JSON records:

- song files, which describe songs and their artists;
- log files, which describe user listening events.

It loads them into five tables: `artists`, `songs`, `users`, `time` and
`songplays`. The database is a value `Schema.Db`, made of five maps from primary
key to row. The cursor (`Load.Cursor`) is a class that holds that value, the last
committed value and the rows a SELECT left to fetch.

Modules:

- `Wrappers`: `Option` and `Result`.
- `Frame`: the data-frame operation `drop_duplicates`. It keeps, in order, the
  first row of every group of equal rows.
- `Calendar`: the fields the datetime accessors derive from a millisecond epoch
  timestamp. These are the proleptic Gregorian date, the hour, the weekday with
  Monday = 0, and the ISO week.
- `Schema`: the tables, keys and `REFERENCES` constraints, and the INSERT
  statements with their `ON CONFLICT` policies:
  - DO NOTHING on artists, songs, time and songplays;
  - `SET level = EXCLUDED.level` on users.

  It also holds the song lookup join and the create/drop statement lists.
- `Transform`: the pure steps of the two file processors. These are the
  projections, the NextSong filter, the removal of repeated rows, the time rows,
  the user rows and the songplay rows.
- `Load`: the imperative steps. These are `chunk_and_execute`, the two file
  processors (including the per-row lookup-and-insert loop), the commits and the
  run that chains them.

A statement that fails (a foreign-key violation) leaves the database as it was
before that statement. The error then propagates, and nothing after it runs.
Given a well-formed database, the model proves that no statement of the run fails.

The model follows these behaviours of the code:

- Songplay loop frame: `etl.py:72` reassigns `df` to the result of
  `drop_duplicates`. The loop at `etl.py:117` therefore runs over the filtered,
  deduplicated frame.
- Songplay ids: the id is the index label that `reset_index` gave the
  concatenated table (`etl.py:68`). Filtering keeps these labels, so ids increase
  but may skip values.
- Lookup matches: the code takes whatever `fetchone` returns (`etl.py:121-126`),
  so any match is used. When several songs match, the model picks one of them
  without saying which.
- Conflicts come before foreign keys: a row whose primary key is already stored
  is dropped by its `ON CONFLICT` clause (`sql_queries.py:83-114`). Its
  `REFERENCES` constraints (`sql_queries.py:31-32`, `sql_queries.py:53`) are
  checked only for a row that is actually inserted.

## Model

| member | source | states |
|---|---|---|
| Frame.DropDuplicates | etl.py:39-45 | the kept rows are rows of the input, no key occurs twice among them, and they carry exactly the keys of the input |
| Frame.DropDuplicatesKeepsFirst | etl.py:45 | every kept row is the first input row with its key, and kept rows come in the order of those first occurrences |
| Frame.DropDuplicatesKeepsOrder | etl.py:72 | removing repeated rows preserves any order that held among the input rows |
| Frame.DropDuplicatesCount | etl.py:50 | the output has exactly one row per distinct key of the input |
| Frame.DropDuplicateRows | etl.py:39-50 | comparing whole rows, the output holds exactly the input's rows, each once, as many as the input has distinct rows, first occurrences in order |
| Calendar.CivilFromDays | etl.py:91-94 | the day number maps to a valid date, with day in 1..31, whose day number is the input |
| Calendar.CivilRoundTrip | etl.py:91-94 | every valid date converts to a day number and back to itself |
| Calendar.Weekday | etl.py:95 | the weekday lies in 0..6 |
| Calendar.WeekdayCycle | etl.py:95 | consecutive days have consecutive weekdays with period 7; 1970-01-05 (a Monday) is 0 and 1970-01-11 (a Sunday) is 6 |
| Calendar.IsoWeek | etl.py:92 | the week of the year lies in 1..53 |
| Calendar.IsoWeekOfThursday | etl.py:92 | a Thursday's ISO week is the number of whole weeks from January 1st, plus one; week 1 holds the year's first Thursday |
| Calendar.HourOf | etl.py:90 | the hour lies in 0..23 |
| Calendar.TimestampRoundTrip | etl.py:74 | a timestamp lies within the hour and date derived from it |
| Schema.InsertArtist | sql_queries.py:103-107 | the artist_id becomes present; stored artists never change; a new artist_id stores the row as given; no other table changes |
| Schema.InsertSong | sql_queries.py:97-101 | fails with a foreign-key violation on artist_id exactly when the song_id is new and its artist_id is not stored (the REFERENCES at sql_queries.py:53); otherwise the song_id becomes present, stored songs never change, a new song_id stores the row as given, and no other table changes |
| Schema.UpsertUser | sql_queries.py:90-94 | the user_id becomes present with the submitted level; other users keep their rows; a new user_id stores the row as given; no other table changes |
| Schema.InsertTime | sql_queries.py:110-114 | the start_time becomes present; stored time rows never change; a new start_time stores the row as given; no other table changes |
| Schema.InsertSongplay | sql_queries.py:83-87 | fails with a foreign-key violation exactly when the songplay_id is new and a non-NULL song_id or artist_id is not stored (the REFERENCES at sql_queries.py:31-32); otherwise the songplay_id becomes present, stored songplays never change, a new id stores the row as given, and no other table changes |
| Schema.Insert | sql_queries.py:83-114 | parameters for another table are a mismatch; on its own table a statement fails only with a foreign-key violation, only on songs or songplays, and only for a key not yet stored; a success leaves the row's key present |
| Schema.InsertAll | etl.py:19 | `executemany` runs the rows in order and stops at the first failure: its error is a mismatch or a foreign-key violation, and a load with no error was sent only rows of its own table |
| Schema.InsertAllAppend | etl.py:19 | loading `a + b` equals loading `a` and then, only if no statement failed, loading `b` |
| Schema.ConflictIsNoOp | sql_queries.py:83-114 | on every table but users, inserting a row whose key exists changes nothing and raises no error |
| Schema.InsertFrame | sql_queries.py:83-114 | a successful insert changes only its own table, makes the row's key present and removes no key |
| Schema.NewKeyAddsRow | sql_queries.py:83-114 | a row with a new key, once accepted, is stored under its key as given, and nothing else changes |
| Schema.UpsertOverwritesOnlyLevel | sql_queries.py:90-94 | for an existing user_id, only `level` is overwritten and names and gender keep their stored values; a new user_id stores the row as given |
| Schema.InsertIdempotent | sql_queries.py:83-114 | running the same INSERT twice has the effect of running it once, on every table |
| Schema.InsertPreservesWellFormed | sql_queries.py:25-66 | a successful insert keeps rows stored under their primary keys and keeps every non-NULL foreign key resolved |
| Schema.InsertAllPreservesWellFormed | sql_queries.py:25-66 | a whole load, failed or not, keeps keys and foreign keys intact |
| Schema.InsertAllPresentIsNoOp | sql_queries.py:83-114 | on a DO NOTHING table, a load whose keys are all present changes nothing |
| Schema.InsertAllKeysPresent | sql_queries.py:83-114 | after a load with no error, every submitted row's key is present |
| Schema.LoadTwiceIsLoadOnce | sql_queries.py:83-114 | re-running a successful load on a DO NOTHING table leaves the state of the first run |
| Schema.StoreFirstKeepsFirst | sql_queries.py:97-114 | under DO NOTHING, stored rows never change and each new key holds the first row submitted with it |
| Schema.LoadArtists | sql_queries.py:103-107 | loading artist rows never fails and keeps the first row submitted per new artist_id |
| Schema.LoadSongs | sql_queries.py:97-101 | loading song rows whose artists are stored never fails and keeps the first row submitted per new song_id |
| Schema.LoadTime | sql_queries.py:110-114 | loading time rows never fails and keeps the first row submitted per new start_time |
| Schema.LoadSongplays | sql_queries.py:83-87 | loading songplay rows whose references resolve never fails and keeps the first row submitted per new songplay_id |
| Schema.LoadUsers | sql_queries.py:90-94 | loading user rows never fails and touches only the users table, as the upsert fold describes |
| Schema.UpsertUsersLevelIsLast | sql_queries.py:90-94 | after a user load, each user_id keeps the names and gender it was first stored with, and its level is that of the last row submitted for it |
| Schema.UpsertUsersIdempotent | sql_queries.py:90-94 | upserting the same user rows twice has the effect of upserting them once |
| Schema.LoadUsersTwiceIsLoadOnce | sql_queries.py:90-94 | re-running a user load leaves the state of the first run |
| Schema.SongSelectSound | sql_queries.py:118-122 | every returned pair names a stored song and its own stored artist, and title, artist name and duration all match |
| Schema.SongSelectComplete | sql_queries.py:118-122 | every stored song whose artist is stored and that matches all three predicates is returned |
| Schema.LookupIdsSatisfyReferences | sql_queries.py:31-32 | a songplay whose ids are both NULL, or both from one returned pair, satisfies both REFERENCES constraints |
| Schema.SongSelect | sql_queries.py:118-122 | the join of songs with their artist on artist_id, filtered on title, artist name and duration; its result is stated exactly by SongSelectSound and SongSelectComplete |
| Schema.ExecuteDdl | sql_queries.py:126-140 | a CREATE that succeeds adds its table and a DROP that succeeds removes it; a CREATE fails only for a missing table and a DROP only for an existing one; a statement that succeeds keeps every referenced table present |
| Schema.ExecuteDdls | sql_queries.py:126-140 | a statement list that succeeds keeps every referenced table present |
| Schema.QueryListsRespectReferences | sql_queries.py:126-140 | the create list puts every referenced table before the tables referencing it, and the drop list puts referencing tables first |
| Schema.CreateListSucceeds | sql_queries.py:126-132 | from no tables, the create list succeeds and creates all five |
| Schema.DropListSucceeds | sql_queries.py:134-140 | from any set of tables, the drop list succeeds and leaves none |
| Schema.DropOrderMatters | sql_queries.py:134-140 | dropping artists before songs fails while songs exists |
| Transform.ArtistDataIsDistinctProjection | etl.py:39-45 | the artist rows are exactly the distinct five-column projections, one row each, in first-occurrence order; the count equals the number of distinct projections |
| Transform.SongDataIsDistinctProjection | etl.py:50 | the song rows are exactly the distinct five-column projections, one row each, in first-occurrence order; the count equals the number of distinct projections |
| Transform.OneArtistTwoSongs | etl.py:39-50 | two records of one artist with different songs give one artist row and two song rows |
| Transform.ArtistData | etl.py:39-45 | the artist columns of the song records with repeated rows removed; ArtistDataIsDistinctProjection states its contents |
| Transform.SongData | etl.py:50 | the song columns of the song records with repeated rows removed; SongDataIsDistinctProjection states its contents |
| Transform.LogFrame | etl.py:64-72 | the concatenated records, filtered to NextSong and with repeated records removed; LogFrameSoundAndComplete states its contents and order |
| Transform.NextSongRows | etl.py:71 | a row is kept if and only if it is in the frame and its page is "NextSong"; index order is preserved |
| Transform.LogFrameEntryIsFirst | etl.py:71-72 | every row of the log frame is a NextSong record under the index of its first occurrence |
| Transform.LogFrameSoundAndComplete | etl.py:64-72 | the log frame holds only NextSong records, each under the index of its first occurrence, with no record twice, indices strictly increasing, and every NextSong record represented |
| Transform.LogFrameEmptyIffNoNextSong | etl.py:64-72 | the log frame is empty exactly when no record is a NextSong event |
| Transform.TimeOf | etl.py:74-97 | a time row keeps its timestamp as start_time; hour 0..23, day 1..31, week 1..53, month 1..12, weekday 0..6 |
| Transform.TimeOfLocatesTimestamp | etl.py:74-97 | the row's year, month and day form a valid date, and the timestamp lies within that hour of that date; the weekday is that date's weekday |
| Transform.TimeData | etl.py:87-98 | exactly one time row per frame row, with no deduplication by timestamp; each row has its row's timestamp and fields in range |
| Transform.UserDataIsDistinctProjection | etl.py:102-110 | the user rows are exactly the distinct five-column projections of the frame, in first-occurrence order |
| Transform.LevelChangeGivesTwoRows | etl.py:102-113 | two rows of one user differing only in level give two user rows in frame order; after loading them, the later level is stored |
| Transform.UserData | etl.py:102-110 | the user columns of the log frame with repeated rows removed; UserDataIsDistinctProjection states its contents |
| Transform.SongplayOf | etl.py:120-139 | song_id and artist_id are both set, from the fetched pair, or both NULL; the id is the row's index label; start_time is the row's timestamp |
| Transform.SongplayData | etl.py:117-139 | one songplay per frame row: its id is the row's index label, its start_time the row's raw timestamp, and user, level and session come from the row; song_id and artist_id are both set, from the fetched pair, exactly when the lookup fetched one, and both NULL otherwise |
| Transform.SongplayIdsFollowFrame | etl.py:117-130 | each songplay id is an index into the concatenated records that points at the row's own record, and ids strictly increase in iteration order |
| Load.ChunksRoundTrip | etl.py:17-18 | concatenating the chunks in order gives back the data |
| Load.ChunkSizes | etl.py:17-18 | every chunk is non-empty and at most `chunksize` long, and all but the last are exactly `chunksize` long |
| Load.Chunks | etl.py:17-18 | the slices `data[i:i+size]` for `i` stepping by `size`; ChunksRoundTrip and ChunkSizes state that they cover the data in order with the right sizes |
| Load.ChunkingIsTransparent | etl.py:17-19 | loading chunk by chunk gives the same state and error as loading all rows one by one |
| Load.Cursor.Execute | etl.py:141 | on success, the state is the insert's result and no error is raised; on failure, the state is unchanged and the error is returned |
| Load.Cursor.ExecuteMany | etl.py:19 | the state and error are those of inserting the rows one at a time, stopping at the first failure |
| Load.Cursor.ExecuteSelect | etl.py:120 | the fetchable rows become the lookup's result on the current state |
| Load.Cursor.FetchOne | etl.py:121-126 | returns nothing exactly when no row is left, and otherwise one of the rows, which is consumed |
| Load.Cursor.Commit | etl.py:166 | the committed state becomes the transaction's state |
| Load.ChunkAndExecute | etl.py:8-19 | for a positive chunk size, the state and error equal a row-by-row load, and on success the chunks sent are the chunks of the data; a negative size sends nothing |
| Load.SongArtistsStored | etl.py:47-51 | every song row's artist_id is stored by the artist load that precedes it |
| Load.SongLoad | etl.py:38-51 | loading the song files changes only artists and songs; ProcessSongFiles shows the processor reaches it |
| Load.ProcessSongFiles | etl.py:31-51 | no statement fails; artists and songs each keep the first row per new key from the deduplicated projections, and the other tables are unchanged |
| Load.SongLoadIdempotent | etl.py:31-51 | processing the same song files twice leaves the state of one run |
| Load.InsertSongplays | etl.py:117-141 | one lookup, fetch and insert per frame row: each fetch is empty exactly when the lookup on the pre-loop state is, and otherwise one of its pairs; no insert fails; only songplays change, keeping the first row per new id |
| Load.SongplayStep | etl.py:120-141 | one turn of the songplay loop succeeds and extends the stored songplays by that row under DO NOTHING |
| Load.LogLoad | etl.py:70-141 | loading the log files leaves artists and songs unchanged; ProcessLogFiles shows the processor reaches it |
| Load.ProcessLogFiles | etl.py:64-141 | raises the `.dt` accessor error (`etl.py:74`, `etl.py:90`), with the database unchanged, exactly when the log frame is empty; otherwise no statement fails, time keeps the first row per new timestamp, users are upserted from the user rows, and songplays are loaded from the log frame with the fetch results |
| Load.LogLoadIdempotent | etl.py:64-141 | processing the same log files twice leaves the state of one run, whatever the second run's lookups fetch |
| Load.Pipeline | etl.py:170-180 | the log phase keeps the artists and songs exactly as the song phase stored them |
| Load.PipelineIdempotent | etl.py:177-178 | running the whole load twice over the same files leaves the state of one run |
| Load.Run | etl.py:170-180 | the song files are processed and committed; the log files then raise exactly when the log frame is empty, leaving the song phase committed, and are otherwise committed too, with the committed state the pipeline's result; the lookups see the loaded songs and artists |

## Left out

- Walking the data directories and reading JSON lines (`etl.py:33-36`, `etl.py:65-68`, `etl.py:154-158`): the model starts from the concatenated records, each with its index label.
- Opening and closing the connection, and the progress messages (`etl.py:162-180`): these are I/O.
- Floating-point and numeric columns: latitude, longitude, duration, length and registration are an opaque type with equality. The lookup compares them for plain equality.
- `songs.duration` is declared `int` (`sql_queries.py:55`), so the database rounds a fractional duration on insert, and the lookup then compares the rounded value with the log's `length`. This is not modelled.
- The `pd.to_numeric` conversion of `userId` (`etl.py:109`) is not modelled: user ids stay strings. A conversion that fails, or that makes two spellings equal, is not captured.
- Column types, `NOT NULL` constraints and the `serial` default (`sql_queries.py:25-79`) are not modelled. Only primary keys and `REFERENCES` constraints are.
- `Schema.Insert` reports a row of the wrong table as `ParameterMismatch`, standing in for the driver's arity and type errors. The processors never produce one.
- Transactions: a failing statement leaves the database as before that statement and stops the run. The cursor keeps the committed state separately, and `Run` commits after each processor. The rollback of the uncommitted statements is not modelled.
- Load.Cursor.FetchOne: which row `fetchone` returns when several match depends on the database's row order. The model only promises that it returns one of them.
- Load.Run: on a well-formed database no statement fails, so the database-error paths of `Run` and the processors are never taken. The one error the model raises is that of an empty log frame: `Series.apply` on an empty column returns it with its integer type, and the `.dt` accessors at `etl.py:90-96` then raise AttributeError. The model names it `NotDatetimeLike`.
- Reading no files at all: `pd.concat` of an empty list (`etl.py:36`, `etl.py:68`) raises ValueError. The model starts from the records, so this case is not modelled. No log files means no records, so the model raises `NotDatetimeLike` instead; both stop before any statement of that phase.
- Transform.TimeOf: accepts every integer timestamp. `pd.Timestamp(x, unit='ms')` (`etl.py:74`) raises OutOfBoundsDatetime outside about 1677-09-21 to 2262-04-11, and that error path is not modelled; `Calendar` likewise accepts every day number.
- Load.ChunkAndExecute: requires a non-zero chunk size. With a step of 0, `range` (`etl.py:17`) raises ValueError, which is not modelled; every call passes 1000.
