/**
 * The transformations of the two record families into table rows: the artist and
 * song projections of the song files, and the log pipeline (keep NextSong events,
 * drop repeated rows, derive time, user and songplay rows).
 */
module Transform {
  import opened Wrappers
  import opened Frame
  import opened Schema
  import Calendar

  /** One record of a song file. */
  datatype SongRecord = SongRecord(
    numSongs: int,
    artistId: string, artistLatitude: Number, artistLongitude: Number,
    artistLocation: string, artistName: string,
    songId: string, title: string, duration: Number, year: int)

  /** One record (one event) of a log file. */
  datatype LogRecord = LogRecord(
    artist: string, auth: string, firstName: string, gender: string, itemInSession: int,
    lastName: string, length: Number, level: string, location: string, httpMethod: string,
    page: string, registration: Number, sessionId: int, song: string, status: int,
    ts: int, userAgent: string, userId: string)

  /** A row of the concatenated log frame with its index label. */
  datatype Entry = Entry(index: nat, rec: LogRecord)

  function RecordOf(e: Entry): LogRecord { e.rec }

  lemma SingletonKeySet<T>(x: T)
    ensures KeySet([x], Identity) == {x}
  {
    KeySetSnoc([], x, Identity);
    assert [] + [x] == [x];
  }

  // ---------------------------------------------------------------------------
  // Song files

  function ArtistOf(r: SongRecord): Artist
  {
    Artist(r.artistId, r.artistName, r.artistLocation, r.artistLatitude, r.artistLongitude)
  }

  function SongOf(r: SongRecord): Song
  {
    Song(r.songId, r.title, r.artistId, r.year, r.duration)
  }

  function Project<R, T>(records: seq<R>, f: R -> T): (s: seq<T>)
    ensures |s| == |records| && forall i :: 0 <= i < |records| ==> s[i] == f(records[i])
  {
    seq(|records|, i requires 0 <= i < |records| => f(records[i]))
  }

  /** The artist rows: the five artist columns of every record, repeated rows dropped. */
  function ArtistData(records: seq<SongRecord>): seq<Artist>
  {
    DropDuplicates(Project(records, ArtistOf), Identity)
  }

  /** The song rows: the five song columns of every record, repeated rows dropped. */
  function SongData(records: seq<SongRecord>): seq<Song>
  {
    DropDuplicates(Project(records, SongOf), Identity)
  }

  /**
   * The artist rows are exactly the distinct projections of the records, one row per
   * distinct projection, in the order of their first occurrence.
   */
  lemma ArtistDataIsDistinctProjection(records: seq<SongRecord>)
    ensures forall a :: a in ArtistData(records) <==> exists i :: 0 <= i < |records| && ArtistOf(records[i]) == a
    ensures DistinctKeys(ArtistData(records), Identity)
    ensures |ArtistData(records)| == |set i | 0 <= i < |records| :: ArtistOf(records[i])|
    ensures FirstOccurrences(Project(records, ArtistOf), ArtistData(records), Identity)
    ensures InFirstOccurrenceOrder(Project(records, ArtistOf), ArtistData(records), Identity)
  {
    var p := Project(records, ArtistOf);
    DropDuplicateRows(p);
    assert (set x | x in p) == set i | 0 <= i < |records| :: ArtistOf(records[i]);
  }

  /**
   * The song rows are exactly the distinct projections of the records, one row per
   * distinct projection, in the order of their first occurrence.
   */
  lemma SongDataIsDistinctProjection(records: seq<SongRecord>)
    ensures forall s :: s in SongData(records) <==> exists i :: 0 <= i < |records| && SongOf(records[i]) == s
    ensures DistinctKeys(SongData(records), Identity)
    ensures |SongData(records)| == |set i | 0 <= i < |records| :: SongOf(records[i])|
    ensures FirstOccurrences(Project(records, SongOf), SongData(records), Identity)
    ensures InFirstOccurrenceOrder(Project(records, SongOf), SongData(records), Identity)
  {
    var p := Project(records, SongOf);
    DropDuplicateRows(p);
    assert (set x | x in p) == set i | 0 <= i < |records| :: SongOf(records[i]);
  }

  /** Two records of one artist with different songs give one artist row and two song rows. */
  lemma OneArtistTwoSongs(r1: SongRecord, r2: SongRecord)
    requires ArtistOf(r1) == ArtistOf(r2) && SongOf(r1) != SongOf(r2)
    ensures ArtistData([r1, r2]) == [ArtistOf(r1)]
    ensures SongData([r1, r2]) == [SongOf(r1), SongOf(r2)]
  {
    var pa := Project([r1, r2], ArtistOf);
    var ps := Project([r1, r2], SongOf);
    assert pa[..1] == [ArtistOf(r1)] && ps[..1] == [SongOf(r1)];
    SingletonKeySet(ArtistOf(r1));
    SingletonKeySet(SongOf(r1));
    assert pa[..1][..0] == [] && ps[..1][..0] == [];
  }

  // ---------------------------------------------------------------------------
  // Log files

  /** The concatenated log frame with a fresh index 0, 1, ... */
  function Concat(records: seq<LogRecord>): (f: seq<Entry>)
    ensures |f| == |records|
    ensures forall i :: 0 <= i < |f| ==> f[i] == Entry(i, records[i])
  {
    seq(|records|, i requires 0 <= i < |records| => Entry(i, records[i]))
  }

  predicate IsNextSong(r: LogRecord)
  {
    r.page == "NextSong"
  }

  /** The rows whose `page` is "NextSong", in their original order. */
  function NextSongRows(frame: seq<Entry>): (r: seq<Entry>)
    ensures forall e :: e in r <==> e in frame && IsNextSong(e.rec)
    ensures Ordered(frame, IndexBefore) ==> Ordered(r, IndexBefore)
    decreases |frame|
  {
    if frame == [] then []
    else
      var init, last := frame[..|frame| - 1], frame[|frame| - 1];
      var r := NextSongRows(init);
      assert forall e :: e in frame <==> e in init || e == last by {
        assert frame == init + [last];
      }
      assert Ordered(frame, IndexBefore) ==> Ordered(init, IndexBefore) by {
        if Ordered(frame, IndexBefore) {
          forall i, j | 0 <= i < j < |init| ensures IndexBefore(init[i], init[j]) {
            assert init[i] == frame[i] && init[j] == frame[j];
          }
        }
      }
      if IsNextSong(last.rec) then
        assert Ordered(frame, IndexBefore) ==> Ordered(r + [last], IndexBefore) by {
          if Ordered(frame, IndexBefore) {
            forall i | 0 <= i < |r| ensures IndexBefore(r[i], last) {
              var k :| 0 <= k < |init| && init[k] == r[i];
              assert frame[k] == init[k];
            }
          }
        }
        r + [last]
      else r
  }

  predicate IndexBefore(a: Entry, b: Entry)
  {
    a.index < b.index
  }

  /**
   * The frame the log pipeline works on after the NextSong filter and the removal of
   * repeated rows; every later step, the songplay loop included, iterates this frame.
   */
  function LogFrame(records: seq<LogRecord>): seq<Entry>
  {
    DropDuplicates(NextSongRows(Concat(records)), RecordOf)
  }

  /** The filtered concatenated frame: NextSong entries, in index order, labelled by position. */
  lemma NextSongFrame(records: seq<LogRecord>)
    ensures forall e :: e in NextSongRows(Concat(records)) ==>
      e.index < |records| && records[e.index] == e.rec && IsNextSong(e.rec)
    ensures Ordered(NextSongRows(Concat(records)), IndexBefore)
    ensures forall i :: 0 <= i < |records| && IsNextSong(records[i]) ==> Entry(i, records[i]) in NextSongRows(Concat(records))
  {
    var c := Concat(records);
    assert Ordered(c, IndexBefore);
    forall i | 0 <= i < |records| && IsNextSong(records[i])
      ensures Entry(i, records[i]) in NextSongRows(c)
    {
      assert c[i] == Entry(i, records[i]);
    }
  }

  /** A kept log entry carries the index label of the first occurrence of its record. */
  lemma LogFrameEntryIsFirst(records: seq<LogRecord>, e: Entry)
    requires e in LogFrame(records)
    ensures e.index < |records| && records[e.index] == e.rec && IsNextSong(e.rec)
    ensures forall j :: 0 <= j < e.index ==> records[j] != e.rec
  {
    var n := NextSongRows(Concat(records));
    NextSongFrame(records);
    DropDuplicatesKeepsFirst(n, RecordOf);
    var f := LogFrame(records);
    var p :| 0 <= p < |f| && f[p] == e;
    var q := FirstIndex(n, RecordOf, e.rec);
    assert n[q] == e;
    forall m | 0 <= m < |n| && n[m].rec == e.rec ensures n[m].index >= e.index {
      assert m >= q;
      if m > q {
        assert IndexBefore(n[q], n[m]);
      }
    }
    forall j | 0 <= j < e.index ensures records[j] != e.rec {
      var ej := Entry(j, records[j]);
      assert records[j] == e.rec ==> ej in n;
    }
  }

  /**
   * The log frame holds only NextSong events, each under the index label of its first
   * occurrence in the concatenated records; no row value occurs twice; index labels
   * strictly increase; and every NextSong record is represented.
   */
  lemma LogFrameSoundAndComplete(records: seq<LogRecord>)
    ensures forall e :: e in LogFrame(records) ==>
      && e.index < |records| && records[e.index] == e.rec
      && IsNextSong(e.rec)
      && forall j :: 0 <= j < e.index ==> records[j] != e.rec
    ensures DistinctKeys(LogFrame(records), RecordOf)
    ensures Ordered(LogFrame(records), IndexBefore)
    ensures forall i :: 0 <= i < |records| && IsNextSong(records[i]) ==> records[i] in KeySet(LogFrame(records), RecordOf)
  {
    var n := NextSongRows(Concat(records));
    var f := LogFrame(records);
    NextSongFrame(records);
    DropDuplicatesKeepsOrder(n, RecordOf, IndexBefore);
    forall e | e in f
      ensures e.index < |records| && records[e.index] == e.rec && IsNextSong(e.rec)
      ensures forall j :: 0 <= j < e.index ==> records[j] != e.rec
    {
      LogFrameEntryIsFirst(records, e);
    }
    forall i | 0 <= i < |records| && IsNextSong(records[i])
      ensures records[i] in KeySet(f, RecordOf)
    {
      var m :| 0 <= m < |n| && n[m] == Entry(i, records[i]);
      assert RecordOf(n[m]) in KeySet(n, RecordOf);
    }
  }

  /** The log frame is empty exactly when no record is a NextSong event. */
  lemma LogFrameEmptyIffNoNextSong(records: seq<LogRecord>)
    ensures LogFrame(records) == [] <==> forall i :: 0 <= i < |records| ==> !IsNextSong(records[i])
  {
    LogFrameSoundAndComplete(records);
    if LogFrame(records) != [] {
      var e := LogFrame(records)[0];
      assert e in LogFrame(records);
    }
  }

  /** The time row of a timestamp in milliseconds. */
  function TimeOf(ts: int): (t: TimeBucket)
    ensures t.startTime == ts
    ensures 0 <= t.hour <= 23 && 1 <= t.day <= 31 && 1 <= t.week <= 53
    ensures 1 <= t.month <= 12 && 0 <= t.weekday <= 6
  {
    var days := Calendar.DayOf(ts);
    var date := Calendar.CivilFromDays(days);
    TimeBucket(ts, Calendar.HourOf(ts), date.day, Calendar.IsoWeek(days), date.month, date.year, Calendar.Weekday(days))
  }

  /** The date and hour of a time row locate its timestamp: it falls in that hour of that day. */
  lemma TimeOfLocatesTimestamp(ts: int)
    ensures var t := TimeOf(ts);
      && Calendar.ValidDate(Calendar.Date(t.year, t.month, t.day))
      && Calendar.DaysFromCivil(Calendar.Date(t.year, t.month, t.day)) * Calendar.MsPerDay + t.hour * Calendar.MsPerHour <= ts
      && ts < Calendar.DaysFromCivil(Calendar.Date(t.year, t.month, t.day)) * Calendar.MsPerDay + (t.hour + 1) * Calendar.MsPerHour
      && t.weekday == Calendar.Weekday(Calendar.DaysFromCivil(Calendar.Date(t.year, t.month, t.day)))
  {
    Calendar.TimestampRoundTrip(ts);
  }

  /** The time rows: one per row of the frame, with no deduplication by timestamp. */
  function TimeData(frame: seq<Entry>): (t: seq<TimeBucket>)
    ensures |t| == |frame|
    ensures forall k :: 0 <= k < |frame| ==> t[k].startTime == frame[k].rec.ts
    ensures forall k :: 0 <= k < |frame| ==>
      && 0 <= t[k].hour <= 23 && 1 <= t[k].day <= 31 && 1 <= t[k].week <= 53
      && 1 <= t[k].month <= 12 && 0 <= t[k].weekday <= 6
  {
    Project(frame, (e: Entry) => TimeOf(e.rec.ts))
  }

  function UserOf(r: LogRecord): User
  {
    User(r.userId, r.firstName, r.lastName, r.gender, r.level)
  }

  /** The user rows: the five user columns of every frame row, repeated rows dropped. */
  function UserData(frame: seq<Entry>): seq<User>
  {
    DropDuplicates(Project(frame, (e: Entry) => UserOf(e.rec)), Identity)
  }

  /**
   * The user rows are exactly the distinct user projections of the frame, in the order
   * of their first occurrence, so one user_id may appear once per distinct level.
   */
  lemma UserDataIsDistinctProjection(frame: seq<Entry>)
    ensures forall u :: u in UserData(frame) <==> exists i :: 0 <= i < |frame| && UserOf(frame[i].rec) == u
    ensures DistinctKeys(UserData(frame), Identity)
    ensures FirstOccurrences(Project(frame, (e: Entry) => UserOf(e.rec)), UserData(frame), Identity)
    ensures InFirstOccurrenceOrder(Project(frame, (e: Entry) => UserOf(e.rec)), UserData(frame), Identity)
  {
    DropDuplicateRows(Project(frame, (e: Entry) => UserOf(e.rec)));
  }

  /**
   * Two rows of one user that differ only in level give two user rows, in frame order;
   * upserting them leaves the level of the later one.
   */
  lemma LevelChangeGivesTwoRows(db: Db, e1: Entry, e2: Entry)
    requires UserOf(e1.rec).(level := e2.rec.level) == UserOf(e2.rec) && e1.rec.level != e2.rec.level
    ensures UserData([e1, e2]) == [UserOf(e1.rec), UserOf(e2.rec)]
    ensures var users := UpsertUsers(db.users, UserData([e1, e2]));
      e1.rec.userId in users && users[e1.rec.userId].level == e2.rec.level
  {
    var u1, u2 := UserOf(e1.rec), UserOf(e2.rec);
    var p := Project([e1, e2], (e: Entry) => UserOf(e.rec));
    assert p == [u1, u2];
    assert p[..1] == [u1] && p[..1][..0] == [];
    SingletonKeySet(u1);
    assert UserData([e1, e2]) == [u1, u2];
    var us := [u1, u2];
    assert us[..1] == [u1] && us[..1][..0] == [];
  }

  /** The songplay row of frame row `e`, given what the lookup fetched for it. */
  function SongplayOf(e: Entry, fetched: Option<(string, string)>): (p: Songplay)
    ensures p.songId.Some? <==> p.artistId.Some?
    ensures p.songplayId == e.index && p.startTime == e.rec.ts
    ensures fetched.Some? ==> p.songId == Some(fetched.value.0) && p.artistId == Some(fetched.value.1)
    ensures fetched.None? ==> p.songId == None && p.artistId == None
  {
    var (songId, artistId) := if fetched.Some? then (Some(fetched.value.0), Some(fetched.value.1)) else (None, None);
    Songplay(e.index, e.rec.ts, e.rec.userId, e.rec.level, songId, artistId, e.rec.sessionId, e.rec.location, e.rec.userAgent)
  }

  /** What a fetch returns from a result set: nothing exactly when it is empty, else one of its rows. */
  predicate FetchedFrom(fetched: Option<(string, string)>, results: set<(string, string)>)
  {
    (fetched.None? <==> results == {}) && (fetched.Some? ==> fetched.value in results)
  }

  /**
   * The songplay rows of a frame, given the fetch result of each row's lookup:
   * row `k` is keyed by the frame's index label, carries the raw millisecond
   * timestamp and the log's user and session, and has both ids exactly when the
   * lookup found a song, taken from the fetched pair.
   */
  function SongplayData(frame: seq<Entry>, fetched: seq<Option<(string, string)>>): (s: seq<Songplay>)
    requires |fetched| == |frame|
    ensures |s| == |frame|
    ensures forall k :: 0 <= k < |frame| ==>
      s[k].songplayId == frame[k].index && s[k].startTime == frame[k].rec.ts &&
      s[k].userId == frame[k].rec.userId && s[k].level == frame[k].rec.level &&
      s[k].sessionId == frame[k].rec.sessionId
    ensures forall k :: 0 <= k < |frame| ==>
      (s[k].songId.Some? <==> fetched[k].Some?) && (s[k].artistId.Some? <==> fetched[k].Some?)
    ensures forall k :: 0 <= k < |frame| && fetched[k].Some? ==>
      s[k].songId == Some(fetched[k].value.0) && s[k].artistId == Some(fetched[k].value.1)
  {
    seq(|frame|, k requires 0 <= k < |frame| => SongplayOf(frame[k], fetched[k]))
  }

  lemma SongplayDataSnoc(frame: seq<Entry>, i: nat, fetched: seq<Option<(string, string)>>, row: Option<(string, string)>)
    requires i < |frame| && |fetched| == i
    ensures SongplayData(frame[..i + 1], fetched + [row]) == SongplayData(frame[..i], fetched) + [SongplayOf(frame[i], row)]
  {
  }

  /**
   * One songplay per row of the log frame: its id is the row's index label in the
   * concatenated records, which points back at that very record, and the ids
   * strictly increase in iteration order.
   */
  lemma SongplayIdsFollowFrame(records: seq<LogRecord>, fetched: seq<Option<(string, string)>>)
    requires |fetched| == |LogFrame(records)|
    ensures |SongplayData(LogFrame(records), fetched)| == |LogFrame(records)|
    ensures forall k :: 0 <= k < |fetched| ==>
      var p := SongplayData(LogFrame(records), fetched)[k];
      0 <= p.songplayId < |records| && records[p.songplayId] == LogFrame(records)[k].rec
    ensures forall i, j :: 0 <= i < j < |fetched| ==>
      SongplayData(LogFrame(records), fetched)[i].songplayId < SongplayData(LogFrame(records), fetched)[j].songplayId
  {
    var f := LogFrame(records);
    LogFrameSoundAndComplete(records);
    forall k | 0 <= k < |f| ensures f[k].index < |records| && records[f[k].index] == f[k].rec {
      assert f[k] in f;
    }
    forall i, j | 0 <= i < j < |f| ensures f[i].index < f[j].index {
      assert IndexBefore(f[i], f[j]);
    }
  }
}
