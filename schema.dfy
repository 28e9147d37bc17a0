/**
 * The five tables of the star schema and the SQL statements run against them:
 * one INSERT per table with its ON CONFLICT policy, the song/artist lookup query,
 * and the ordered lists of CREATE and DROP statements. The database is a value:
 * each table is a map from primary key to row.
 */
module Schema {
  import opened Wrappers
  import opened Frame

  /** A floating-point column value (coordinates, durations); only ever compared for equality. */
  type Number(==, !new)

  datatype Table = Artists | Songs | Users | Time | Songplays

  datatype Artist = Artist(artistId: string, name: string, location: string, latitude: Number, longitude: Number)

  datatype Song = Song(songId: string, title: string, artistId: string, year: int, duration: Number)

  datatype User = User(userId: string, firstName: string, lastName: string, gender: string, level: string)

  /** A row of the time table; `startTime` is the timestamp in milliseconds since the epoch. */
  datatype TimeBucket = TimeBucket(startTime: int, hour: int, day: int, week: int, month: int, year: int, weekday: int)

  /** A songplay; `songId` and `artistId` are NULL when the lookup found nothing. */
  datatype Songplay = Songplay(
    songplayId: int, startTime: int, userId: string, level: string,
    songId: Option<string>, artistId: Option<string>,
    sessionId: int, location: string, userAgent: string)

  /** The parameters of one INSERT statement. */
  datatype Row =
    | ArtistRow(artist: Artist)
    | SongRow(song: Song)
    | UserRow(user: User)
    | TimeRow(bucket: TimeBucket)
    | SongplayRow(songplay: Songplay)

  function TableOf(row: Row): Table
  {
    match row
    case ArtistRow(_) => Artists
    case SongRow(_) => Songs
    case UserRow(_) => Users
    case TimeRow(_) => Time
    case SongplayRow(_) => Songplays
  }

  function ArtistKey(a: Artist): string { a.artistId }
  function SongKey(s: Song): string { s.songId }
  function UserKey(u: User): string { u.userId }
  function TimeKey(t: TimeBucket): int { t.startTime }
  function SongplayKey(p: Songplay): int { p.songplayId }

  datatype Db = Db(
    artists: map<string, Artist>,
    songs: map<string, Song>,
    users: map<string, User>,
    time: map<int, TimeBucket>,
    songplays: map<int, Songplay>)

  /** The database right after the tables are created: every table empty. */
  const EmptyDb: Db := Db(map[], map[], map[], map[], map[])

  datatype DbError =
    | ForeignKeyViolation(table: Table, column: string)
    | ParameterMismatch(query: Table)
    | UndefinedTable(table: Table)
    | DependentObjects(table: Table)

  /** Every row is stored under its own primary key. */
  ghost predicate Keyed(db: Db)
  {
    && (forall k :: k in db.artists ==> db.artists[k].artistId == k)
    && (forall k :: k in db.songs ==> db.songs[k].songId == k)
    && (forall k :: k in db.users ==> db.users[k].userId == k)
    && (forall k :: k in db.time ==> db.time[k].startTime == k)
    && (forall k :: k in db.songplays ==> db.songplays[k].songplayId == k)
  }

  /** The REFERENCES constraints: non-NULL foreign keys name existing rows. */
  ghost predicate Referential(db: Db)
  {
    && (forall k :: k in db.songs ==> db.songs[k].artistId in db.artists)
    && (forall k :: k in db.songplays && db.songplays[k].songId.Some? ==> db.songplays[k].songId.value in db.songs)
    && (forall k :: k in db.songplays && db.songplays[k].artistId.Some? ==> db.songplays[k].artistId.value in db.artists)
  }

  ghost predicate WellFormed(db: Db)
  {
    Keyed(db) && Referential(db)
  }

  /** Freshly created tables are well formed, so a load can start from them. */
  lemma EmptyDbWellFormed()
    ensures WellFormed(EmptyDb)
  {
  }

  // ---------------------------------------------------------------------------
  // The INSERT statements

  /** `INSERT INTO artists ... ON CONFLICT(artist_id) DO NOTHING`. */
  function InsertArtist(db: Db, a: Artist): (r: Db)
    ensures r.artists.Keys == db.artists.Keys + {a.artistId}
    ensures forall k :: k in db.artists ==> r.artists[k] == db.artists[k]
    ensures a.artistId !in db.artists ==> r.artists[a.artistId] == a
    ensures r.(artists := db.artists) == db
  {
    if a.artistId in db.artists then db
    else db.(artists := db.artists[a.artistId := a])
  }

  /** `INSERT INTO songs ... ON CONFLICT(song_id) DO NOTHING`; artist_id REFERENCES artists. */
  function InsertSong(db: Db, s: Song): (r: Result<Db, DbError>)
    ensures r.Failure? <==> s.songId !in db.songs && s.artistId !in db.artists
    ensures r.Failure? ==> r.error == ForeignKeyViolation(Songs, "artist_id")
    ensures r.Success? ==> r.value.songs.Keys == db.songs.Keys + {s.songId}
    ensures r.Success? ==> forall k :: k in db.songs ==> r.value.songs[k] == db.songs[k]
    ensures r.Success? && s.songId !in db.songs ==> r.value.songs[s.songId] == s
    ensures r.Success? ==> r.value.(songs := db.songs) == db
  {
    if s.songId in db.songs then Success(db)
    else if s.artistId !in db.artists then Failure(ForeignKeyViolation(Songs, "artist_id"))
    else Success(db.(songs := db.songs[s.songId := s]))
  }

  /** `INSERT INTO users ... ON CONFLICT(user_id) DO UPDATE SET level = EXCLUDED.level`. */
  function UpsertUser(db: Db, u: User): (r: Db)
    ensures r.users.Keys == db.users.Keys + {u.userId}
    ensures forall k :: k in db.users && k != u.userId ==> r.users[k] == db.users[k]
    ensures r.users[u.userId].level == u.level
    ensures u.userId !in db.users ==> r.users[u.userId] == u
    ensures r.(users := db.users) == db
  {
    if u.userId in db.users then db.(users := db.users[u.userId := db.users[u.userId].(level := u.level)])
    else db.(users := db.users[u.userId := u])
  }

  /** `INSERT INTO time ... ON CONFLICT(start_time) DO NOTHING`. */
  function InsertTime(db: Db, t: TimeBucket): (r: Db)
    ensures r.time.Keys == db.time.Keys + {t.startTime}
    ensures forall k :: k in db.time ==> r.time[k] == db.time[k]
    ensures t.startTime !in db.time ==> r.time[t.startTime] == t
    ensures r.(time := db.time) == db
  {
    if t.startTime in db.time then db
    else db.(time := db.time[t.startTime := t])
  }

  /**
   * `INSERT INTO songplays ... ON CONFLICT(songplay_id) DO NOTHING`; song_id REFERENCES
   * songs and artist_id REFERENCES artists, checked only for a row actually inserted.
   */
  function InsertSongplay(db: Db, p: Songplay): (r: Result<Db, DbError>)
    ensures r.Failure? <==>
      p.songplayId !in db.songplays &&
      ((p.songId.Some? && p.songId.value !in db.songs) || (p.artistId.Some? && p.artistId.value !in db.artists))
    ensures r.Failure? ==> r.error.ForeignKeyViolation? && r.error.table == Songplays
    ensures r.Success? ==> r.value.songplays.Keys == db.songplays.Keys + {p.songplayId}
    ensures r.Success? ==> forall k :: k in db.songplays ==> r.value.songplays[k] == db.songplays[k]
    ensures r.Success? && p.songplayId !in db.songplays ==> r.value.songplays[p.songplayId] == p
    ensures r.Success? ==> r.value.(songplays := db.songplays) == db
  {
    if p.songplayId in db.songplays then Success(db)
    else if p.songId.Some? && p.songId.value !in db.songs then Failure(ForeignKeyViolation(Songplays, "song_id"))
    else if p.artistId.Some? && p.artistId.value !in db.artists then Failure(ForeignKeyViolation(Songplays, "artist_id"))
    else Success(db.(songplays := db.songplays[p.songplayId := p]))
  }

  /** Runs the INSERT statement of table `query` with the parameters `row`. */
  function Insert(db: Db, query: Table, row: Row): (r: Result<Db, DbError>)
    ensures TableOf(row) != query ==> r == Failure(ParameterMismatch(query))
    ensures TableOf(row) == query && r.Failure? ==>
      (query == Songs || query == Songplays) && r.error.ForeignKeyViolation? && !KeyPresent(db, row)
    ensures r.Success? ==> KeyPresent(r.value, row)
  {
    if TableOf(row) != query then Failure(ParameterMismatch(query))
    else
      match row
      case ArtistRow(a) => Success(InsertArtist(db, a))
      case SongRow(s) => InsertSong(db, s)
      case UserRow(u) => Success(UpsertUser(db, u))
      case TimeRow(t) => Success(InsertTime(db, t))
      case SongplayRow(p) => InsertSongplay(db, p)
  }

  /**
   * Runs the INSERT of `query` once per row, in order, stopping at the first statement
   * that fails: the state reached and the error, if any.
   */
  function InsertAll(db: Db, query: Table, rows: seq<Row>): (r: (Db, Option<DbError>))
    ensures r.1.Some? ==> r.1.value == ParameterMismatch(query) || r.1.value.ForeignKeyViolation?
    ensures r.1.None? ==> forall i :: 0 <= i < |rows| ==> TableOf(rows[i]) == query
    decreases |rows|
  {
    if rows == [] then (db, None)
    else
      match Insert(db, query, rows[0])
      case Failure(e) => (db, Some(e))
      case Success(next) => InsertAll(next, query, rows[1..])
  }

  /** Continues a load with `rows` unless it already failed. */
  function Then(done: (Db, Option<DbError>), query: Table, rows: seq<Row>): (Db, Option<DbError>)
  {
    if done.1.Some? then done else InsertAll(done.0, query, rows)
  }

  /** Loading `a + b` is loading `a` and then, if that succeeded, `b`. */
  lemma {:induction false} InsertAllAppend(db: Db, query: Table, a: seq<Row>, b: seq<Row>)
    ensures InsertAll(db, query, a + b) == Then(InsertAll(db, query, a), query, b)
    decreases |a|
  {
    if a != [] {
      assert (a + b)[0] == a[0];
      assert (a + b)[1..] == a[1..] + b;
      match Insert(db, query, a[0])
      case Failure(_) =>
      case Success(next) => InsertAllAppend(next, query, a[1..], b);
    } else {
      assert a + b == b;
    }
  }

  /** A load of one row is that row's statement. */
  lemma InsertAllSingle(db: Db, query: Table, row: Row)
    ensures Insert(db, query, row).Success? ==> InsertAll(db, query, [row]) == (Insert(db, query, row).value, None)
    ensures Insert(db, query, row).Failure? ==> InsertAll(db, query, [row]) == (db, Some(Insert(db, query, row).error))
  {
    assert [row][1..] == [];
  }

  /** Extending a load that succeeded on `rows[..i]` by `rows[i..j]` continues from the state it reached. */
  lemma LoadExtends(db: Db, query: Table, rows: seq<Row>, i: nat, j: nat)
    requires i <= j <= |rows|
    requires InsertAll(db, query, rows[..i]).1 == None
    ensures InsertAll(db, query, rows[..j]) == InsertAll(InsertAll(db, query, rows[..i]).0, query, rows[i..j])
  {
    assert rows[..i] + rows[i..j] == rows[..j];
    InsertAllAppend(db, query, rows[..i], rows[i..j]);
  }

  /** A load that failed on `rows[..j]` ends there: the rest of the rows are never sent. */
  lemma LoadStops(db: Db, query: Table, rows: seq<Row>, j: nat)
    requires j <= |rows|
    requires InsertAll(db, query, rows[..j]).1.Some?
    ensures InsertAll(db, query, rows) == InsertAll(db, query, rows[..j])
  {
    assert rows[..j] + rows[j..] == rows;
    InsertAllAppend(db, query, rows[..j], rows[j..]);
  }

  function ArtistRows(s: seq<Artist>): seq<Row> { seq(|s|, i requires 0 <= i < |s| => ArtistRow(s[i])) }
  function SongRows(s: seq<Song>): seq<Row> { seq(|s|, i requires 0 <= i < |s| => SongRow(s[i])) }
  function UserRows(s: seq<User>): seq<Row> { seq(|s|, i requires 0 <= i < |s| => UserRow(s[i])) }
  function TimeRows(s: seq<TimeBucket>): seq<Row> { seq(|s|, i requires 0 <= i < |s| => TimeRow(s[i])) }
  function SongplayRows(s: seq<Songplay>): seq<Row> { seq(|s|, i requires 0 <= i < |s| => SongplayRow(s[i])) }

  // ---------------------------------------------------------------------------
  // Properties of single statements

  /** The primary key of `row` is already in its table. */
  ghost predicate KeyPresent(db: Db, row: Row)
  {
    match row
    case ArtistRow(a) => a.artistId in db.artists
    case SongRow(s) => s.songId in db.songs
    case UserRow(u) => u.userId in db.users
    case TimeRow(t) => t.startTime in db.time
    case SongplayRow(p) => p.songplayId in db.songplays
  }

  /** Every table but users ignores a conflicting insert: the database is unchanged and no error is raised. */
  lemma ConflictIsNoOp(db: Db, row: Row)
    requires TableOf(row) != Users && KeyPresent(db, row)
    ensures Insert(db, TableOf(row), row) == Success(db)
  {
  }

  /**
   * A successful insert changes only its own table, where the row's key is present
   * afterwards; no key present before disappears.
   */
  lemma InsertFrame(db: Db, query: Table, row: Row)
    requires Insert(db, query, row).Success?
    ensures var r := Insert(db, query, row).value;
      && TableOf(row) == query
      && KeyPresent(r, row)
      && (forall other :: KeyPresent(db, other) ==> KeyPresent(r, other))
      && (query != Artists ==> r.artists == db.artists)
      && (query != Songs ==> r.songs == db.songs)
      && (query != Users ==> r.users == db.users)
      && (query != Time ==> r.time == db.time)
      && (query != Songplays ==> r.songplays == db.songplays)
  {
  }

  /** A row whose key is new, once accepted, is stored under its key and nothing else changes. */
  lemma NewKeyAddsRow(db: Db, row: Row)
    requires !KeyPresent(db, row) && Insert(db, TableOf(row), row).Success?
    ensures Insert(db, TableOf(row), row).value ==
      match row
      case ArtistRow(a) => db.(artists := db.artists[a.artistId := a])
      case SongRow(s) => db.(songs := db.songs[s.songId := s])
      case UserRow(u) => db.(users := db.users[u.userId := u])
      case TimeRow(t) => db.(time := db.time[t.startTime := t])
      case SongplayRow(p) => db.(songplays := db.songplays[p.songplayId := p])
  {
  }

  /**
   * A user row whose key exists overwrites only `level`: the names and gender keep
   * their stored values. A new key stores the row as given.
   */
  lemma UpsertOverwritesOnlyLevel(db: Db, u: User)
    ensures var r := UpsertUser(db, u).users[u.userId];
      && r.level == u.level
      && (u.userId in db.users ==> r == db.users[u.userId].(level := u.level))
      && (u.userId !in db.users ==> r == u)
  {
  }

  /** Running the same INSERT twice has the effect of running it once. */
  lemma InsertIdempotent(db: Db, query: Table, row: Row)
    requires Insert(db, query, row).Success?
    ensures Insert(Insert(db, query, row).value, query, row) == Insert(db, query, row)
  {
    match row
    case UserRow(u) =>
      var once := UpsertUser(db, u);
      assert once.users[u.userId].level == u.level;
      assert once.users[u.userId].(level := u.level) == once.users[u.userId];
      assert once.users[u.userId := once.users[u.userId]] == once.users;
    case _ =>
  }

  /** Successful inserts keep the database keyed and its foreign keys resolved. */
  lemma InsertPreservesWellFormed(db: Db, query: Table, row: Row)
    requires WellFormed(db) && Insert(db, query, row).Success?
    ensures WellFormed(Insert(db, query, row).value)
  {
    match row
    case ArtistRow(a) => ArtistInsertWellFormed(db, a);
    case SongRow(s) => SongInsertWellFormed(db, s);
    case UserRow(u) => UserUpsertWellFormed(db, u);
    case TimeRow(t) => TimeInsertWellFormed(db, t);
    case SongplayRow(p) => SongplayInsertWellFormed(db, p);
  }

  lemma ArtistInsertWellFormed(db: Db, a: Artist)
    requires WellFormed(db)
    ensures WellFormed(InsertArtist(db, a))
  {
  }

  lemma SongInsertWellFormed(db: Db, s: Song)
    requires WellFormed(db) && InsertSong(db, s).Success?
    ensures WellFormed(InsertSong(db, s).value)
  {
  }

  lemma UserUpsertWellFormed(db: Db, u: User)
    requires WellFormed(db)
    ensures WellFormed(UpsertUser(db, u))
  {
  }

  lemma TimeInsertWellFormed(db: Db, t: TimeBucket)
    requires WellFormed(db)
    ensures WellFormed(InsertTime(db, t))
  {
  }

  lemma SongplayInsertWellFormed(db: Db, p: Songplay)
    requires WellFormed(db) && InsertSongplay(db, p).Success?
    ensures WellFormed(InsertSongplay(db, p).value)
  {
  }

  lemma {:induction false} InsertAllPreservesWellFormed(db: Db, query: Table, rows: seq<Row>)
    requires WellFormed(db)
    ensures WellFormed(InsertAll(db, query, rows).0)
    decreases |rows|
  {
    if rows != [] {
      match Insert(db, query, rows[0])
      case Failure(_) =>
      case Success(next) =>
        InsertPreservesWellFormed(db, query, rows[0]);
        InsertAllPreservesWellFormed(next, query, rows[1..]);
    }
  }

  // ---------------------------------------------------------------------------
  // Properties of whole loads

  /** Inserting rows whose keys are all present changes nothing, on every DO NOTHING table. */
  lemma {:induction false} InsertAllPresentIsNoOp(db: Db, query: Table, rows: seq<Row>)
    requires query != Users
    requires forall i :: 0 <= i < |rows| ==> TableOf(rows[i]) == query && KeyPresent(db, rows[i])
    ensures InsertAll(db, query, rows) == (db, None)
  {
    if rows != [] {
      ConflictIsNoOp(db, rows[0]);
      InsertAllPresentIsNoOp(db, query, rows[1..]);
    }
  }

  /** After a load that raised no error, the key of every row submitted is present. */
  lemma {:induction false} InsertAllKeysPresent(db: Db, query: Table, rows: seq<Row>)
    requires InsertAll(db, query, rows).1 == None
    ensures forall i :: 0 <= i < |rows| ==> TableOf(rows[i]) == query && KeyPresent(InsertAll(db, query, rows).0, rows[i])
    decreases |rows|
  {
    if rows != [] {
      var next := Insert(db, query, rows[0]).value;
      InsertFrame(db, query, rows[0]);
      InsertAllKeysPresent(next, query, rows[1..]);
      InsertAllKeepsKeys(next, query, rows[1..], rows[0]);
    }
  }

  /** Keys never disappear during a load. */
  lemma {:induction false} InsertAllKeepsKeys(db: Db, query: Table, rows: seq<Row>, row: Row)
    requires KeyPresent(db, row)
    ensures KeyPresent(InsertAll(db, query, rows).0, row)
    decreases |rows|
  {
    if rows != [] {
      match Insert(db, query, rows[0])
      case Failure(_) =>
      case Success(next) =>
        assert KeyPresent(next, row) by {
          InsertFrame(db, query, rows[0]);
        }
        InsertAllKeepsKeys(next, query, rows[1..], row);
    }
  }

  /**
   * Re-running a load that succeeded into a DO NOTHING table (every table but
   * users) leaves the database as the first run left it: the second run finds
   * every key present and ignores every row. The users table, whose conflict
   * clause updates the level, is covered by `LoadUsersTwiceIsLoadOnce`.
   */
  lemma LoadTwiceIsLoadOnce(db: Db, query: Table, rows: seq<Row>)
    requires query != Users
    requires InsertAll(db, query, rows).1 == None
    ensures InsertAll(InsertAll(db, query, rows).0, query, rows) == InsertAll(db, query, rows)
  {
    InsertAllKeysPresent(db, query, rows);
    InsertAllPresentIsNoOp(InsertAll(db, query, rows).0, query, rows);
  }

  // ---------------------------------------------------------------------------
  // DO NOTHING tables keep the first row submitted for each key

  /** The map reached by storing each of `vs`, in order, under its key unless that key is taken. */
  function StoreFirst<K, V>(m: map<K, V>, vs: seq<V>, key: V -> K): map<K, V>
    decreases |vs|
  {
    if vs == [] then m
    else
      var before := StoreFirst(m, vs[..|vs| - 1], key);
      var v := vs[|vs| - 1];
      if key(v) in before then before else before[key(v) := v]
  }

  /** Stored rows never change, and a new key holds the first row submitted with it. */
  lemma {:induction false} StoreFirstKeepsFirst<K, V>(m: map<K, V>, vs: seq<V>, key: V -> K)
    ensures StoreFirst(m, vs, key).Keys == m.Keys + KeySet(vs, key)
    ensures forall k :: k in m ==> StoreFirst(m, vs, key)[k] == m[k]
    ensures forall k :: k in KeySet(vs, key) && k !in m ==> StoreFirst(m, vs, key)[k] == vs[FirstIndex(vs, key, k)]
    decreases |vs|
  {
    if vs != [] {
      var init, v := vs[..|vs| - 1], vs[|vs| - 1];
      StoreFirstKeepsFirst(m, init, key);
      KeySetInit(vs, key);
      var r := StoreFirst(m, vs, key);
      forall k | k in KeySet(vs, key) && k !in m
        ensures r[k] == vs[FirstIndex(vs, key, k)]
      {
        if k in KeySet(init, key) {
          assert FirstIndex(vs, key, k) == FirstIndex(init, key, k);
        } else {
          assert FirstIndex(vs, key, k) == |vs| - 1;
        }
      }
    }
  }

  lemma RowsSnoc<T>(s: seq<T>, rows: seq<T> -> seq<Row>, row: T -> Row)
    requires forall t :: |rows(t)| == |t| && forall i :: 0 <= i < |t| ==> rows(t)[i] == row(t[i])
    requires s != []
    ensures rows(s) == rows(s[..|s| - 1]) + [row(s[|s| - 1])]
  {
    var init := s[..|s| - 1];
    assert |rows(init)| == |init|;
    forall i | 0 <= i < |s| ensures rows(s)[i] == (rows(init) + [row(s[|s| - 1])])[i] {
      if i < |init| { assert rows(init)[i] == row(init[i]); }
    }
  }

  /** Loading artist rows keeps the first row submitted for each new artist_id and never fails. */
  lemma {:induction false} LoadArtists(db: Db, s: seq<Artist>)
    ensures InsertAll(db, Artists, ArtistRows(s)) == (db.(artists := StoreFirst(db.artists, s, ArtistKey)), None)
    decreases |s|
  {
    if s == [] {
      assert ArtistRows(s) == [];
    } else {
      var init, last := s[..|s| - 1], s[|s| - 1];
      assert ArtistRows(s) == ArtistRows(init) + [ArtistRow(last)] by {
        RowsSnoc(s, ArtistRows, (a: Artist) => ArtistRow(a));
      }
      InsertAllAppend(db, Artists, ArtistRows(init), [ArtistRow(last)]);
      LoadArtists(db, init);
      var before := db.(artists := StoreFirst(db.artists, init, ArtistKey));
      assert InsertAll(before, Artists, [ArtistRow(last)]) == (before.(artists := StoreFirst(db.artists, s, ArtistKey)), None) by {
        assert [ArtistRow(last)][1..] == [];
      }
    }
  }

  /** Loading time rows keeps the first row submitted for each new start_time and never fails. */
  lemma {:induction false} LoadTime(db: Db, s: seq<TimeBucket>)
    ensures InsertAll(db, Time, TimeRows(s)) == (db.(time := StoreFirst(db.time, s, TimeKey)), None)
    decreases |s|
  {
    if s == [] {
      assert TimeRows(s) == [];
    } else {
      var init, last := s[..|s| - 1], s[|s| - 1];
      assert TimeRows(s) == TimeRows(init) + [TimeRow(last)] by {
        RowsSnoc(s, TimeRows, (t: TimeBucket) => TimeRow(t));
      }
      InsertAllAppend(db, Time, TimeRows(init), [TimeRow(last)]);
      LoadTime(db, init);
      var before := db.(time := StoreFirst(db.time, init, TimeKey));
      assert InsertAll(before, Time, [TimeRow(last)]) == (before.(time := StoreFirst(db.time, s, TimeKey)), None) by {
        assert [TimeRow(last)][1..] == [];
      }
    }
  }

  lemma StoreFirstSnoc<K, V>(m: map<K, V>, vs: seq<V>, v: V, key: V -> K)
    ensures StoreFirst(m, vs + [v], key) ==
      (var before := StoreFirst(m, vs, key); if key(v) in before then before else before[key(v) := v])
  {
    assert (vs + [v])[..|vs|] == vs;
  }

  /** Storing rows whose keys are all taken leaves the map as it was. */
  lemma StoreFirstPresentIsNoOp<K, V>(m: map<K, V>, vs: seq<V>, key: V -> K)
    requires KeySet(vs, key) <= m.Keys
    ensures StoreFirst(m, vs, key) == m
  {
    StoreFirstKeepsFirst(m, vs, key);
  }

  /**
   * Loading song rows whose artists are all stored keeps the first row submitted for
   * each new song_id and never fails.
   */
  lemma {:induction false} LoadSongs(db: Db, s: seq<Song>)
    requires forall i :: 0 <= i < |s| ==> s[i].artistId in db.artists
    ensures InsertAll(db, Songs, SongRows(s)) == (db.(songs := StoreFirst(db.songs, s, SongKey)), None)
    decreases |s|
  {
    if s == [] {
      assert SongRows(s) == [];
    } else {
      var init, last := s[..|s| - 1], s[|s| - 1];
      assert SongRows(s) == SongRows(init) + [SongRow(last)] by {
        RowsSnoc(s, SongRows, (x: Song) => SongRow(x));
      }
      InsertAllAppend(db, Songs, SongRows(init), [SongRow(last)]);
      LoadSongs(db, init);
      var before := db.(songs := StoreFirst(db.songs, init, SongKey));
      assert InsertAll(before, Songs, [SongRow(last)]) == (before.(songs := StoreFirst(db.songs, s, SongKey)), None) by {
        assert [SongRow(last)][1..] == [];
      }
    }
  }

  /** The non-NULL song_id and artist_id of `p` name stored rows. */
  predicate ReferencesResolve(db: Db, p: Songplay)
  {
    (p.songId.Some? ==> p.songId.value in db.songs) && (p.artistId.Some? ==> p.artistId.value in db.artists)
  }

  /**
   * Loading songplay rows whose references all resolve keeps the first row submitted
   * for each new songplay_id and never fails.
   */
  lemma {:induction false} LoadSongplays(db: Db, s: seq<Songplay>)
    requires forall i :: 0 <= i < |s| ==> ReferencesResolve(db, s[i])
    ensures InsertAll(db, Songplays, SongplayRows(s)) == (db.(songplays := StoreFirst(db.songplays, s, SongplayKey)), None)
    decreases |s|
  {
    if s == [] {
      assert SongplayRows(s) == [];
    } else {
      var init, last := s[..|s| - 1], s[|s| - 1];
      assert SongplayRows(s) == SongplayRows(init) + [SongplayRow(last)] by {
        RowsSnoc(s, SongplayRows, (x: Songplay) => SongplayRow(x));
      }
      InsertAllAppend(db, Songplays, SongplayRows(init), [SongplayRow(last)]);
      LoadSongplays(db, init);
      var before := db.(songplays := StoreFirst(db.songplays, init, SongplayKey));
      assert InsertAll(before, Songplays, [SongplayRow(last)]) == (before.(songplays := StoreFirst(db.songplays, s, SongplayKey)), None) by {
        assert [SongplayRow(last)][1..] == [];
      }
    }
  }

  // ---------------------------------------------------------------------------
  // The users table: level follows the last row submitted, the rest the first

  /** The users table reached by upserting each of `us` in order. */
  function UpsertUsers(users: map<string, User>, us: seq<User>): map<string, User>
    decreases |us|
  {
    if us == [] then users
    else
      var before := UpsertUsers(users, us[..|us| - 1]);
      var u := us[|us| - 1];
      if u.userId in before then before[u.userId := before[u.userId].(level := u.level)]
      else before[u.userId := u]
  }

  /** Loading user rows touches only the users table and never fails. */
  lemma {:induction false} LoadUsers(db: Db, us: seq<User>)
    ensures InsertAll(db, Users, UserRows(us)) == (db.(users := UpsertUsers(db.users, us)), None)
    decreases |us|
  {
    if us == [] {
      assert UserRows(us) == [];
    } else {
      var init, last := us[..|us| - 1], us[|us| - 1];
      assert UserRows(us) == UserRows(init) + [UserRow(last)] by {
        RowsSnoc(us, UserRows, (u: User) => UserRow(u));
      }
      InsertAllAppend(db, Users, UserRows(init), [UserRow(last)]);
      LoadUsers(db, init);
      var before := db.(users := UpsertUsers(db.users, init));
      assert InsertAll(before, Users, [UserRow(last)]) == (before.(users := UpsertUsers(db.users, us)), None) by {
        assert [UserRow(last)][1..] == [];
      }
    }
  }

  /** The user stored under `k` once `us` has been upserted into `users`. */
  ghost function UpsertedUser(users: map<string, User>, us: seq<User>, k: string): User
    requires k in users || k in KeySet(us, UserKey)
  {
    var first := if k in users then users[k] else us[FirstIndex(us, UserKey, k)];
    if k in KeySet(us, UserKey) then first.(level := us[LastIndex(us, UserKey, k)].level) else first
  }

  /**
   * After upserting `us`, a user_id keeps the names and gender it was first stored
   * with, and its level is the level of the last row submitted for it.
   */
  lemma {:induction false} UpsertUsersLevelIsLast(users: map<string, User>, us: seq<User>)
    ensures UpsertUsers(users, us).Keys == users.Keys + KeySet(us, UserKey)
    ensures forall k :: k in UpsertUsers(users, us) ==> UpsertUsers(users, us)[k] == UpsertedUser(users, us, k)
    decreases |us|
  {
    if us != [] {
      UpsertUsersLevelIsLast(users, us[..|us| - 1]);
      KeySetInit(us, UserKey);
      forall k | k in UpsertUsers(users, us) ensures UpsertUsers(users, us)[k] == UpsertedUser(users, us, k) {
        UpsertedUserStep(users, us, k);
      }
    }
  }

  /** How the stored user of key `k` changes when one more row is upserted. */
  lemma UpsertedUserStep(users: map<string, User>, us: seq<User>, k: string)
    requires us != []
    requires k in users || k in KeySet(us, UserKey)
    requires KeySet(us, UserKey) == KeySet(us[..|us| - 1], UserKey) + {us[|us| - 1].userId}
    requires UpsertUsers(users, us[..|us| - 1]).Keys == users.Keys + KeySet(us[..|us| - 1], UserKey)
    requires var before := UpsertUsers(users, us[..|us| - 1]);
      forall k :: k in before ==> before[k] == UpsertedUser(users, us[..|us| - 1], k)
    ensures UpsertUsers(users, us)[k] == UpsertedUser(users, us, k)
  {
    var init, last := us[..|us| - 1], us[|us| - 1];
    if k != last.userId {
      if k in KeySet(init, UserKey) {
        assert FirstIndex(us, UserKey, k) == FirstIndex(init, UserKey, k);
        assert LastIndex(us, UserKey, k) == LastIndex(init, UserKey, k);
      }
    } else {
      assert LastIndex(us, UserKey, k) == |us| - 1;
      if k in KeySet(init, UserKey) {
        assert FirstIndex(us, UserKey, k) == FirstIndex(init, UserKey, k);
      } else if k !in users {
        assert FirstIndex(us, UserKey, k) == |us| - 1;
      }
    }
  }

  /** Upserting the same user rows a second time changes nothing. */
  lemma UpsertUsersIdempotent(users: map<string, User>, us: seq<User>)
    ensures UpsertUsers(UpsertUsers(users, us), us) == UpsertUsers(users, us)
  {
    var once := UpsertUsers(users, us);
    var twice := UpsertUsers(once, us);
    UpsertUsersLevelIsLast(users, us);
    UpsertUsersLevelIsLast(once, us);
    forall k | k in twice ensures twice[k] == once[k] {
      if k in KeySet(us, UserKey) {
        assert once[k].level == us[LastIndex(us, UserKey, k)].level;
      }
    }
  }

  /** Re-running a user load leaves the database as the first run left it. */
  lemma LoadUsersTwiceIsLoadOnce(db: Db, us: seq<User>)
    ensures InsertAll(InsertAll(db, Users, UserRows(us)).0, Users, UserRows(us)) == InsertAll(db, Users, UserRows(us))
  {
    LoadUsers(db, us);
    LoadUsers(db.(users := UpsertUsers(db.users, us)), us);
    UpsertUsersIdempotent(db.users, us);
  }

  // ---------------------------------------------------------------------------
  // The song lookup

  /**
   * The lookup query: the (song_id, artist_id) pairs of the songs joined to the artist
   * row with the same artist_id, whose title, artist name and duration equal the
   * three parameters.
   */
  function SongSelect(db: Db, title: string, artistName: string, length: Number): set<(string, string)>
  {
    set s, a | s in db.songs.Values && a in db.artists.Values && a.artistId == s.artistId
               && s.title == title && a.name == artistName && s.duration == length
             :: (s.songId, s.artistId)
  }

  /**
   * Every pair returned names a stored song and a stored artist, the artist_id is the
   * song's own, and the three predicates hold.
   */
  lemma SongSelectSound(db: Db, title: string, artistName: string, length: Number)
    requires Keyed(db)
    ensures forall p :: p in SongSelect(db, title, artistName, length) ==>
      && p.0 in db.songs && p.1 in db.artists
      && db.songs[p.0].artistId == p.1
      && db.songs[p.0].title == title
      && db.artists[p.1].name == artistName
      && db.songs[p.0].duration == length
  {
    forall p | p in SongSelect(db, title, artistName, length)
      ensures p.0 in db.songs && p.1 in db.artists && db.songs[p.0].artistId == p.1
      ensures db.songs[p.0].title == title && db.artists[p.1].name == artistName && db.songs[p.0].duration == length
    {
      var s, a :| s in db.songs.Values && a in db.artists.Values && a.artistId == s.artistId
                  && s.title == title && a.name == artistName && s.duration == length
                  && p == (s.songId, s.artistId);
      var ks :| ks in db.songs && db.songs[ks] == s;
      var ka :| ka in db.artists && db.artists[ka] == a;
    }
  }

  /** Every stored song that matches, with its artist stored, is returned. */
  lemma SongSelectComplete(db: Db, title: string, artistName: string, length: Number)
    requires Keyed(db)
    ensures forall k ::
      (&& k in db.songs && db.songs[k].artistId in db.artists
       && db.songs[k].title == title && db.artists[db.songs[k].artistId].name == artistName
       && db.songs[k].duration == length)
      ==> (k, db.songs[k].artistId) in SongSelect(db, title, artistName, length)
  {
    forall k | k in db.songs && db.songs[k].artistId in db.artists
      && db.songs[k].title == title && db.artists[db.songs[k].artistId].name == artistName
      && db.songs[k].duration == length
      ensures (k, db.songs[k].artistId) in SongSelect(db, title, artistName, length)
    {
      var s := db.songs[k];
      var a := db.artists[s.artistId];
      assert s in db.songs.Values && a in db.artists.Values;
    }
  }

  /** The lookup reads only the songs and artists tables. */
  lemma SongSelectReadsLookupTables(db: Db, other: Db, title: string, artistName: string, length: Number)
    requires other.songs == db.songs && other.artists == db.artists
    ensures SongSelect(other, title, artistName, length) == SongSelect(db, title, artistName, length)
  {
  }

  /**
   * A songplay whose ids are both NULL, or both taken from one pair the lookup
   * returned, never violates a REFERENCES constraint.
   */
  lemma LookupIdsSatisfyReferences(db: Db, title: string, artistName: string, length: Number, p: Songplay)
    requires WellFormed(db)
    requires p.songId.Some? <==> p.artistId.Some?
    requires p.songId.Some? ==> (p.songId.value, p.artistId.value) in SongSelect(db, title, artistName, length)
    ensures InsertSongplay(db, p).Success?
  {
    SongSelectSound(db, title, artistName, length);
  }

  // ---------------------------------------------------------------------------
  // Creating and dropping the tables

  datatype Ddl = CreateTable(table: Table) | DropTable(table: Table)

  const AllTables: set<Table> := {Artists, Songs, Users, Time, Songplays}

  /** The tables a table's REFERENCES clauses name. */
  function References(t: Table): set<Table>
  {
    match t
    case Songs => {Artists}
    case Songplays => {Songs, Artists}
    case _ => {}
  }

  /** The CREATE statements, in the order they are run. */
  const CreateTableQueries: seq<Ddl> :=
    [CreateTable(Users), CreateTable(Time), CreateTable(Artists), CreateTable(Songs), CreateTable(Songplays)]

  /** The DROP statements, in the order they are run. */
  const DropTableQueries: seq<Ddl> :=
    [DropTable(Songplays), DropTable(Users), DropTable(Songs), DropTable(Artists), DropTable(Time)]

  /**
   * CREATE TABLE IF NOT EXISTS fails when a referenced table is missing; DROP TABLE
   * IF EXISTS fails while another table still references the one dropped.
   */
  function ExecuteDdl(schema: set<Table>, stmt: Ddl): (r: Result<set<Table>, DbError>)
    ensures r.Success? && stmt.CreateTable? ==> r.value == schema + {stmt.table}
    ensures r.Success? && stmt.DropTable? ==> r.value == schema - {stmt.table}
    ensures Closed(schema) && r.Success? ==> Closed(r.value)
    ensures r.Failure? ==> (stmt.table !in schema <==> stmt.CreateTable?)
  {
    match stmt
    case CreateTable(t) =>
      if t in schema then Success(schema)
      else if !(References(t) <= schema) then Failure(UndefinedTable(t))
      else Success(schema + {t})
    case DropTable(t) =>
      if t !in schema then Success(schema)
      else if exists u :: u in schema && t in References(u) then Failure(DependentObjects(t))
      else Success(schema - {t})
  }

  /** Runs the statements in order, stopping at the first that fails. */
  function ExecuteDdls(schema: set<Table>, stmts: seq<Ddl>): (r: Result<set<Table>, DbError>)
    ensures Closed(schema) && r.Success? ==> Closed(r.value)
    decreases |stmts|
  {
    if stmts == [] then Success(schema)
    else
      match ExecuteDdl(schema, stmts[0])
      case Failure(e) => Failure(e)
      case Success(next) => ExecuteDdls(next, stmts[1..])
  }

  /** Every table that exists has the tables it references. */
  ghost predicate Closed(schema: set<Table>)
  {
    forall t :: t in schema ==> References(t) <= schema
  }

  /**
   * The create list puts every referenced table before the tables referencing it; the
   * drop list puts referencing tables first.
   */
  lemma QueryListsRespectReferences()
    ensures forall i, j ::
      (0 <= i < |CreateTableQueries| && 0 <= j < |CreateTableQueries|
       && CreateTableQueries[j].table in References(CreateTableQueries[i].table)) ==> j < i
    ensures forall i, j ::
      (0 <= i < |DropTableQueries| && 0 <= j < |DropTableQueries|
       && DropTableQueries[j].table in References(DropTableQueries[i].table)) ==> i < j
  {
  }

  /** Only songs and songplays reference other tables. */
  lemma ReferencesCases(u: Table, t: Table)
    ensures t in References(u) <==> (u == Songs && t == Artists) || (u == Songplays && (t == Songs || t == Artists))
  {
    match u
    case Artists =>
    case Songs =>
    case Users =>
    case Time =>
    case Songplays =>
  }

  /** A table no existing table references can be dropped. */
  lemma DropUnreferenced(schema: set<Table>, t: Table)
    requires forall u :: u in schema ==> t !in References(u)
    ensures ExecuteDdl(schema, DropTable(t)) == Success(schema - {t})
  {
    if t !in schema {
      assert schema - {t} == schema;
    }
  }

  lemma ExecuteDdlsStep(schema: set<Table>, stmts: seq<Ddl>)
    requires stmts != [] && ExecuteDdl(schema, stmts[0]).Success?
    ensures ExecuteDdls(schema, stmts) == ExecuteDdls(ExecuteDdl(schema, stmts[0]).value, stmts[1..])
  {
  }

  /** From any set of existing tables the drop list succeeds and leaves no table. */
  lemma DropListSucceeds(schema: set<Table>)
    ensures ExecuteDdls(schema, DropTableQueries) == Success({})
  {
    var s1 := schema - {Songplays};
    var s2 := s1 - {Users};
    var s3 := s2 - {Songs};
    var s4 := s3 - {Artists};
    var s5 := s4 - {Time};
    forall u, t ensures t in References(u) <==> (u == Songs && t == Artists) || (u == Songplays && (t == Songs || t == Artists)) {
      ReferencesCases(u, t);
    }
    DropUnreferenced(schema, Songplays);
    DropUnreferenced(s1, Users);
    DropUnreferenced(s2, Songs);
    DropUnreferenced(s3, Artists);
    DropUnreferenced(s4, Time);
    var d := DropTableQueries;
    ExecuteDdlsStep(schema, d);
    ExecuteDdlsStep(s1, d[1..]);
    ExecuteDdlsStep(s2, d[2..]);
    ExecuteDdlsStep(s3, d[3..]);
    ExecuteDdlsStep(s4, d[4..]);
    assert d[1..][1..] == d[2..] && d[2..][1..] == d[3..] && d[3..][1..] == d[4..] && d[4..][1..] == [];
    forall t | t in s5 ensures false {
      match t
      case Artists =>
      case Songs =>
      case Users =>
      case Time =>
      case Songplays =>
    }
    assert s5 == {};
  }

  /** From no tables the create list succeeds and creates all five. */
  lemma CreateListSucceeds()
    ensures ExecuteDdls({}, CreateTableQueries) == Success(AllTables)
  {
    var s1: set<Table> := {Users};
    var s2 := s1 + {Time};
    var s3 := s2 + {Artists};
    var s4 := s3 + {Songs};
    var s5 := s4 + {Songplays};
    assert References(Users) == {} && References(Time) == {} && References(Artists) == {};
    assert ExecuteDdl({}, CreateTable(Users)) == Success({} + {Users});
    assert {} + {Users} == s1;
    assert ExecuteDdl(s1, CreateTable(Time)) == Success(s2);
    assert ExecuteDdl(s2, CreateTable(Artists)) == Success(s3);
    assert ExecuteDdl(s3, CreateTable(Songs)) == Success(s4);
    assert ExecuteDdl(s4, CreateTable(Songplays)) == Success(s5);
    var c := CreateTableQueries;
    ExecuteDdlsStep({}, c);
    ExecuteDdlsStep(s1, c[1..]);
    ExecuteDdlsStep(s2, c[2..]);
    ExecuteDdlsStep(s3, c[3..]);
    ExecuteDdlsStep(s4, c[4..]);
    assert c[1..][1..] == c[2..] && c[2..][1..] == c[3..] && c[3..][1..] == c[4..] && c[4..][1..] == [];
    assert s5 == AllTables;
  }

  /** The drop order matters: dropping artists while songs still exists fails. */
  lemma DropOrderMatters()
    ensures ExecuteDdls(AllTables, [DropTable(Artists), DropTable(Songs)]).Failure?
  {
    assert Songs in AllTables && Artists in References(Songs);
  }
}
