/**
 * The loading side of the pipeline: a cursor over the database, the chunked bulk
 * insert, the two file processors and the run that chains them.
 */
module Load {
  import opened Wrappers
  import opened Frame
  import opened Schema
  import opened Transform

  /** The chunk size both processors pass to the chunked insert. */
  const ChunkSize: nat := 1000

  // ---------------------------------------------------------------------------
  // Chunking

  /** `data[i:i+size]` for `i` in `range(0, len(data), size)`. */
  function Chunks<T>(data: seq<T>, size: nat): seq<seq<T>>
    requires size > 0
    decreases |data|
  {
    if data == [] then []
    else if |data| <= size then [data]
    else [data[..size]] + Chunks(data[size..], size)
  }

  function Flatten<T>(chunks: seq<seq<T>>): seq<T>
  {
    if chunks == [] then [] else chunks[0] + Flatten(chunks[1..])
  }

  /** The chunks put back together give the data again. */
  lemma {:induction false} ChunksRoundTrip<T>(data: seq<T>, size: nat)
    requires size > 0
    ensures Flatten(Chunks(data, size)) == data
    decreases |data|
  {
    if |data| > size {
      ChunksRoundTrip(data[size..], size);
      assert ([data[..size]] + Chunks(data[size..], size))[1..] == Chunks(data[size..], size);
      assert data[..size] + data[size..] == data;
    } else if data != [] {
      assert [data][1..] == [];
    }
  }

  /** Every chunk is non-empty and at most `size` long, and every chunk but the last is exactly `size` long. */
  lemma {:induction false} ChunkSizes<T>(data: seq<T>, size: nat)
    requires size > 0
    ensures forall k :: 0 <= k < |Chunks(data, size)| ==> 0 < |Chunks(data, size)[k]| <= size
    ensures forall k :: 0 <= k < |Chunks(data, size)| - 1 ==> |Chunks(data, size)[k]| == size
    decreases |data|
  {
    if |data| > size {
      var rest := Chunks(data[size..], size);
      ChunkSizes(data[size..], size);
      assert Chunks(data, size) == [data[..size]] + rest;
    }
  }

  /** The chunk starting at `i`, and the chunks after it. */
  lemma ChunksFrom<T>(data: seq<T>, i: nat, size: nat)
    requires size > 0 && i < |data|
    ensures var end := if i + size < |data| then i + size else |data|;
      Chunks(data[i..], size) == [data[i..end]] + Chunks(data[end..], size)
  {
    var end := if i + size < |data| then i + size else |data|;
    if |data[i..]| > size {
      assert data[i..][..size] == data[i..end];
      assert data[i..][size..] == data[end..];
    } else {
      assert data[i..] == data[i..end] && data[end..] == [];
    }
  }

  /** Runs the INSERT of `query` over each chunk in turn, unless the load already failed. */
  function ThenChunks(done: (Db, Option<DbError>), query: Table, chunks: seq<seq<Row>>): (Db, Option<DbError>)
    decreases |chunks|
  {
    if chunks == [] then done else ThenChunks(Then(done, query, chunks[0]), query, chunks[1..])
  }

  lemma {:induction false} ThenChunksFlatten(done: (Db, Option<DbError>), query: Table, chunks: seq<seq<Row>>)
    ensures ThenChunks(done, query, chunks) == Then(done, query, Flatten(chunks))
    decreases |chunks|
  {
    if chunks == [] {
      if done.1.None? {
        assert InsertAll(done.0, query, []) == (done.0, None);
      }
    } else {
      ThenChunksFlatten(Then(done, query, chunks[0]), query, chunks[1..]);
      if done.1.None? {
        InsertAllAppend(done.0, query, chunks[0], Flatten(chunks[1..]));
      }
    }
  }

  /** Sending the data chunk by chunk has the effect of sending it all in one go. */
  lemma ChunkingIsTransparent(db: Db, query: Table, data: seq<Row>, size: nat)
    requires size > 0
    ensures ThenChunks((db, None), query, Chunks(data, size)) == InsertAll(db, query, data)
  {
    ChunksRoundTrip(data, size);
    ThenChunksFlatten((db, None), query, Chunks(data, size));
  }

  // ---------------------------------------------------------------------------
  // The cursor

  /**
   * A database cursor: the state its transaction sees, the state last committed, and
   * the rows the last SELECT left to fetch.
   */
  class Cursor {
    var db: Db
    var committed: Db
    var results: set<(string, string)>

    ghost predicate Valid()
      reads this
    {
      WellFormed(db) && WellFormed(committed)
    }

    constructor (initial: Db)
      requires WellFormed(initial)
      ensures Valid() && db == initial && committed == initial && results == {}
    {
      db := initial;
      committed := initial;
      results := {};
    }

    /** `cursor.execute` of an INSERT: the new state, or the error and the state unchanged. */
    method Execute(query: Table, row: Row) returns (err: Option<DbError>)
      requires Valid()
      modifies `db
      ensures Valid()
      ensures Insert(old(db), query, row).Success? ==> err == None && db == Insert(old(db), query, row).value
      ensures Insert(old(db), query, row).Failure? ==> err == Some(Insert(old(db), query, row).error) && db == old(db)
    {
      var r := Insert(db, query, row);
      if r.Success? {
        InsertPreservesWellFormed(db, query, row);
        db := r.value;
        err := None;
      } else {
        err := Some(r.error);
      }
    }

    /** `cursor.executemany`: the INSERT once per row, raising at the first failure. */
    method ExecuteMany(query: Table, rows: seq<Row>) returns (err: Option<DbError>)
      requires Valid()
      modifies `db
      ensures Valid()
      ensures (db, err) == InsertAll(old(db), query, rows)
    {
      var i := 0;
      err := None;
      while i < |rows|
        invariant 0 <= i <= |rows|
        invariant Valid()
        invariant InsertAll(old(db), query, rows[..i]) == (db, None) && err == None
      {
        LoadExtends(old(db), query, rows, i, i + 1);
        assert rows[i..i + 1] == [rows[i]];
        InsertAllSingle(db, query, rows[i]);
        ghost var before := db;
        err := Execute(query, rows[i]);
        if err.Some? {
          assert InsertAll(old(db), query, rows[..i + 1]) == (before, err);
          LoadStops(old(db), query, rows, i + 1);
          assert db == before;
          return;
        }
        i := i + 1;
      }
      assert rows[..i] == rows;
    }

    /** `cursor.execute` of the song lookup: its result rows become fetchable. */
    method ExecuteSelect(title: string, artistName: string, length: Number)
      modifies `results
      ensures results == SongSelect(db, title, artistName, length)
    {
      results := SongSelect(db, title, artistName, length);
    }

    /** `cursor.fetchone`: no row when none is left, otherwise one of them, which is consumed. */
    method FetchOne() returns (row: Option<(string, string)>)
      modifies `results
      ensures FetchedFrom(row, old(results))
      ensures row.Some? ==> results == old(results) - {row.value}
      ensures row.None? ==> results == {}
    {
      if results == {} {
        row := None;
      } else {
        var r :| r in results;
        row := Some(r);
        results := results - {r};
      }
    }

    /** `connection.commit`: the transaction's state becomes the committed state. */
    method Commit()
      requires Valid()
      modifies `committed
      ensures Valid() && committed == db
    {
      committed := db;
    }
  }

  // ---------------------------------------------------------------------------
  // chunk_and_execute

  /**
   * Sends `data` in chunks of `chunksize` rows, one `executemany` per chunk. A
   * negative size gives an empty range and sends nothing; a zero size is refused by
   * `range`. The ghost `batches` are the chunks sent.
   */
  method ChunkAndExecute(cur: Cursor, query: Table, data: seq<Row>, chunksize: int)
    returns (err: Option<DbError>, ghost batches: seq<seq<Row>>)
    requires cur.Valid()
    requires chunksize != 0
    modifies cur`db
    ensures cur.Valid()
    ensures chunksize < 0 ==> err == None && cur.db == old(cur.db) && batches == []
    ensures chunksize > 0 ==> (cur.db, err) == InsertAll(old(cur.db), query, data)
    ensures chunksize > 0 && err == None ==> batches == Chunks(data, chunksize)
  {
    err := None;
    batches := [];
    if chunksize < 0 {
      return;
    }
    ghost var db0 := cur.db;
    var i := 0;
    while i < |data|
      invariant 0 <= i <= |data|
      invariant cur.Valid()
      invariant InsertAll(db0, query, data[..i]) == (cur.db, None) && err == None
      invariant batches + Chunks(data[i..], chunksize) == Chunks(data, chunksize)
    {
      var end := if i + chunksize < |data| then i + chunksize else |data|;
      var chunk := data[i..end];
      ChunksFrom(data, i, chunksize);
      assert (batches + [chunk]) + Chunks(data[end..], chunksize) == Chunks(data, chunksize);
      LoadExtends(db0, query, data, i, end);
      err := cur.ExecuteMany(query, chunk);
      batches := batches + [chunk];
      if err.Some? {
        LoadStops(db0, query, data, end);
        return;
      }
      i := end;
    }
    assert data[..i] == data;
    assert batches + [] == batches;
  }

  // ---------------------------------------------------------------------------
  // process_song_files

  /** The database after the song files are loaded. */
  function SongLoad(db: Db, records: seq<SongRecord>): (r: Db)
    ensures r.users == db.users && r.time == db.time && r.songplays == db.songplays
  {
    db.(artists := StoreFirst(db.artists, ArtistData(records), ArtistKey),
        songs := StoreFirst(db.songs, SongData(records), SongKey))
  }

  /** Every song row names an artist the artist load stored. */
  lemma SongArtistsStored(db: Db, records: seq<SongRecord>)
    ensures forall i :: 0 <= i < |SongData(records)| ==>
      SongData(records)[i].artistId in StoreFirst(db.artists, ArtistData(records), ArtistKey)
  {
    ArtistDataIsDistinctProjection(records);
    SongDataIsDistinctProjection(records);
    StoreFirstKeepsFirst(db.artists, ArtistData(records), ArtistKey);
    forall i | 0 <= i < |SongData(records)|
      ensures SongData(records)[i].artistId in KeySet(ArtistData(records), ArtistKey)
    {
      var j :| 0 <= j < |records| && SongOf(records[j]) == SongData(records)[i];
      var a := ArtistOf(records[j]);
      assert a in ArtistData(records);
      var k :| 0 <= k < |ArtistData(records)| && ArtistData(records)[k] == a;
      assert ArtistKey(ArtistData(records)[k]) == SongData(records)[i].artistId;
    }
  }

  /** Loading the song files a second time changes nothing. */
  lemma SongLoadIdempotent(db: Db, records: seq<SongRecord>)
    ensures SongLoad(SongLoad(db, records), records) == SongLoad(db, records)
  {
    var once := SongLoad(db, records);
    StoreFirstKeepsFirst(db.artists, ArtistData(records), ArtistKey);
    StoreFirstKeepsFirst(db.songs, SongData(records), SongKey);
    StoreFirstPresentIsNoOp(once.artists, ArtistData(records), ArtistKey);
    StoreFirstPresentIsNoOp(once.songs, SongData(records), SongKey);
  }

  /** The artist rows, then the song rows, each in chunks of 1000; no statement fails. */
  method ProcessSongFiles(cur: Cursor, records: seq<SongRecord>) returns (err: Option<DbError>)
    requires cur.Valid()
    modifies cur`db
    ensures cur.Valid()
    ensures err == None && cur.db == SongLoad(old(cur.db), records)
  {
    var artistData := ArtistData(records);
    LoadArtists(cur.db, artistData);
    ghost var batches;
    err, batches := ChunkAndExecute(cur, Artists, ArtistRows(artistData), ChunkSize);
    assert err == None;
    var songData := SongData(records);
    SongArtistsStored(old(cur.db), records);
    LoadSongs(cur.db, songData);
    err, batches := ChunkAndExecute(cur, Songs, SongRows(songData), ChunkSize);
  }

  // ---------------------------------------------------------------------------
  // process_log_files

  /** The database after the log files are loaded, given each songplay's fetch result. */
  function LogLoad(db: Db, records: seq<LogRecord>, fetched: seq<Option<(string, string)>>): (r: Db)
    requires |fetched| == |LogFrame(records)|
    ensures r.artists == db.artists && r.songs == db.songs
  {
    var frame := LogFrame(records);
    db.(time := StoreFirst(db.time, TimeData(frame), TimeKey),
        users := UpsertUsers(db.users, UserData(frame)),
        songplays := StoreFirst(db.songplays, SongplayData(frame, fetched), SongplayKey))
  }

  /**
   * One songplay per frame row: look the song up, fetch one match if any, and insert
   * the songplay with the fetched ids or NULLs. The ghost `fetched` records what
   * each fetch returned; the lookup tables never change, so no insert fails.
   */
  method InsertSongplays(cur: Cursor, frame: seq<Entry>) returns (ghost fetched: seq<Option<(string, string)>>)
    requires cur.Valid()
    modifies cur`db, cur`results
    ensures cur.Valid()
    ensures |fetched| == |frame|
    ensures forall k :: 0 <= k < |frame| ==>
      FetchedFrom(fetched[k], SongSelect(old(cur.db), frame[k].rec.song, frame[k].rec.artist, frame[k].rec.length))
    ensures cur.db == old(cur.db).(songplays := StoreFirst(old(cur.db).songplays, SongplayData(frame, fetched), SongplayKey))
  {
    ghost var db0 := cur.db;
    fetched := [];
    var i := 0;
    while i < |frame|
      invariant 0 <= i <= |frame|
      invariant cur.Valid()
      invariant |fetched| == i
      invariant forall k :: 0 <= k < i ==>
        FetchedFrom(fetched[k], SongSelect(db0, frame[k].rec.song, frame[k].rec.artist, frame[k].rec.length))
      invariant cur.db == db0.(songplays := StoreFirst(db0.songplays, SongplayData(frame[..i], fetched), SongplayKey))
    {
      var e := frame[i];
      SongSelectReadsLookupTables(db0, cur.db, e.rec.song, e.rec.artist, e.rec.length);
      cur.ExecuteSelect(e.rec.song, e.rec.artist, e.rec.length);
      var row := cur.FetchOne();
      var p := SongplayOf(e, row);
      SongplayStep(db0, frame, i, fetched, row, cur.db);
      var err := cur.Execute(Songplays, SongplayRow(p));
      assert err == None;
      fetched := fetched + [row];
      i := i + 1;
    }
    assert frame[..i] == frame;
  }

  /** One turn of the songplay loop: the insert succeeds and extends the stored rows by one. */
  lemma SongplayStep(db0: Db, frame: seq<Entry>, i: nat, fetched: seq<Option<(string, string)>>,
                     row: Option<(string, string)>, db: Db)
    requires WellFormed(db)
    requires i < |frame| && |fetched| == i
    requires db == db0.(songplays := StoreFirst(db0.songplays, SongplayData(frame[..i], fetched), SongplayKey))
    requires FetchedFrom(row, SongSelect(db, frame[i].rec.song, frame[i].rec.artist, frame[i].rec.length))
    ensures Insert(db, Songplays, SongplayRow(SongplayOf(frame[i], row))) ==
      Success(db0.(songplays := StoreFirst(db0.songplays, SongplayData(frame[..i + 1], fetched + [row]), SongplayKey)))
  {
    var e := frame[i];
    var p := SongplayOf(e, row);
    LookupIdsSatisfyReferences(db, e.rec.song, e.rec.artist, e.rec.length, p);
    SongplayDataSnoc(frame, i, fetched, row);
    StoreFirstSnoc(db0.songplays, SongplayData(frame[..i], fetched), p, SongplayKey);
  }

  /** What a file processor can raise. */
  datatype ProcessError =
    | Database(error: DbError)
      /** The `.dt` accessors applied to a timestamp column that is still integer. */
    | NotDatetimeLike

  /**
   * The NextSong frame without repeated rows; its time rows, then its user rows, each
   * in chunks of 1000; then one songplay per frame row. No statement fails. An
   * empty frame raises before any statement: converting an empty timestamp column
   * leaves it integer, and the datetime accessors then reject it.
   */
  method ProcessLogFiles(cur: Cursor, records: seq<LogRecord>)
    returns (err: Option<ProcessError>, ghost fetched: seq<Option<(string, string)>>)
    requires cur.Valid()
    modifies cur`db, cur`results
    ensures cur.Valid()
    ensures |fetched| == |LogFrame(records)|
    ensures forall k :: 0 <= k < |fetched| ==>
      var e := LogFrame(records)[k];
      FetchedFrom(fetched[k], SongSelect(old(cur.db), e.rec.song, e.rec.artist, e.rec.length))
    ensures err == None <==> LogFrame(records) != []
    ensures err.Some? ==> err.value == NotDatetimeLike && cur.db == old(cur.db)
    ensures err == None ==> cur.db == LogLoad(old(cur.db), records, fetched)
  {
    var frame := LogFrame(records);
    if frame == [] {
      return Some(NotDatetimeLike), [];
    }
    var timeData := TimeData(frame);
    LoadTime(cur.db, timeData);
    var dbErr: Option<DbError>;
    ghost var batches;
    dbErr, batches := ChunkAndExecute(cur, Time, TimeRows(timeData), ChunkSize);
    assert dbErr == None;
    var userData := UserData(frame);
    LoadUsers(cur.db, userData);
    dbErr, batches := ChunkAndExecute(cur, Users, UserRows(userData), ChunkSize);
    assert dbErr == None;
    fetched := InsertSongplays(cur, frame);
    err := None;
  }

  /** Loading the log files a second time changes nothing, whatever its lookups fetch. */
  lemma LogLoadIdempotent(db: Db, records: seq<LogRecord>, fetched: seq<Option<(string, string)>>,
                          again: seq<Option<(string, string)>>)
    requires |fetched| == |LogFrame(records)| && |again| == |LogFrame(records)|
    ensures LogLoad(LogLoad(db, records, fetched), records, again) == LogLoad(db, records, fetched)
  {
    var frame := LogFrame(records);
    var once := LogLoad(db, records, fetched);
    assert StoreFirst(once.time, TimeData(frame), TimeKey) == once.time by {
      StoreFirstKeepsFirst(db.time, TimeData(frame), TimeKey);
      StoreFirstPresentIsNoOp(once.time, TimeData(frame), TimeKey);
    }
    assert UpsertUsers(once.users, UserData(frame)) == once.users by {
      UpsertUsersIdempotent(db.users, UserData(frame));
    }
    var first, second := SongplayData(frame, fetched), SongplayData(frame, again);
    assert StoreFirst(once.songplays, second, SongplayKey) == once.songplays by {
      StoreFirstKeepsFirst(db.songplays, first, SongplayKey);
      SameIdsSameKeys(frame, fetched, again);
      StoreFirstPresentIsNoOp(once.songplays, second, SongplayKey);
    }
  }

  /** The songplay ids do not depend on what the lookups fetched. */
  lemma SameIdsSameKeys(frame: seq<Entry>, fetched: seq<Option<(string, string)>>, again: seq<Option<(string, string)>>)
    requires |fetched| == |frame| && |again| == |frame|
    ensures KeySet(SongplayData(frame, again), SongplayKey) == KeySet(SongplayData(frame, fetched), SongplayKey)
  {
    var first, second := SongplayData(frame, fetched), SongplayData(frame, again);
    assert forall k :: 0 <= k < |frame| ==> SongplayKey(second[k]) == SongplayKey(first[k]);
  }

  /** The database the whole run leaves: the song files, then the log files. */
  function Pipeline(db: Db, songRecords: seq<SongRecord>, logRecords: seq<LogRecord>,
                    fetched: seq<Option<(string, string)>>): (r: Db)
    requires |fetched| == |LogFrame(logRecords)|
    ensures r.artists == SongLoad(db, songRecords).artists && r.songs == SongLoad(db, songRecords).songs
  {
    LogLoad(SongLoad(db, songRecords), logRecords, fetched)
  }

  /** Running the whole load a second time over the same files changes nothing. */
  lemma PipelineIdempotent(db: Db, songRecords: seq<SongRecord>, logRecords: seq<LogRecord>,
                           fetched: seq<Option<(string, string)>>, again: seq<Option<(string, string)>>)
    requires |fetched| == |LogFrame(logRecords)| && |again| == |LogFrame(logRecords)|
    ensures Pipeline(Pipeline(db, songRecords, logRecords, fetched), songRecords, logRecords, again)
      == Pipeline(db, songRecords, logRecords, fetched)
  {
    var songs := SongLoad(db, songRecords);
    var once := LogLoad(songs, logRecords, fetched);
    SongLoadIdempotent(db, songRecords);
    assert SongLoad(once, songRecords) == LogLoad(SongLoad(songs, songRecords), logRecords, fetched);
    LogLoadIdempotent(songs, logRecords, fetched, again);
  }

  /**
   * `main`: the song files are processed and committed, then the log files are
   * processed and committed. Every statement succeeds, so the song phase is always
   * committed; the log phase is committed unless its frame is empty, which raises.
   */
  method Run(cur: Cursor, songRecords: seq<SongRecord>, logRecords: seq<LogRecord>)
    returns (err: Option<ProcessError>, ghost fetched: seq<Option<(string, string)>>)
    requires cur.Valid()
    modifies cur
    ensures cur.Valid()
    ensures |fetched| == |LogFrame(logRecords)|
    ensures forall k :: 0 <= k < |fetched| ==>
      var e := LogFrame(logRecords)[k];
      FetchedFrom(fetched[k], SongSelect(SongLoad(old(cur.db), songRecords), e.rec.song, e.rec.artist, e.rec.length))
    ensures err == None <==> LogFrame(logRecords) != []
    ensures err.Some? ==> err.value == NotDatetimeLike && cur.committed == cur.db == SongLoad(old(cur.db), songRecords)
    ensures err == None ==> cur.committed == cur.db == Pipeline(old(cur.db), songRecords, logRecords, fetched)
  {
    var songErr := ProcessSongFiles(cur, songRecords);
    assert songErr == None;
    ghost var songsLoaded := cur.db;
    assert songsLoaded == SongLoad(old(cur.db), songRecords);
    cur.Commit();
    err, fetched := ProcessLogFiles(cur, logRecords);
    if err == None {
      cur.Commit();
    }
  }
}
