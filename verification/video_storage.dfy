/**
 * The video history: one record per practised video with its progress,
 * held as an in-memory map from record id to record, plus the display
 * formats of practice time and of the last practice date.
 */
module VideoStorage {
  import opened Base
  import opened Chars
  import opened Strings
  import Storage

  /** A practised video, its files, its progress and its practice statistics. */
  datatype VideoRecord = VideoRecord(
    id: string,
    displayName: string,
    videoFileName: string,
    subtitleFileName: string,
    subtitleText: string,
    currentSubtitleIndex: int,
    currentSectionIndex: int,
    totalSubtitles: int,
    completionRate: int,
    dateAdded: int,
    lastPracticed: int,
    totalPracticeTime: int)

  /** The records by id (the database). */
  type Db = map<string, VideoRecord>

  /**
   * A new record for a video and its subtitle file: named after the video
   * file, at the first line of the first section, nothing completed or
   * practised yet, added and last practised now. It is stored under its id.
   */
  function CreateVideoRecord(db: Db, newId: string, videoName: string, subtitleName: string,
                             subtitleText: string, totalSubtitles: int, now: int): (r: (VideoRecord, Db))
    ensures r.0.id == newId && r.0.displayName == videoName && r.0.videoFileName == videoName
    ensures r.0.subtitleFileName == subtitleName && r.0.subtitleText == subtitleText
    ensures r.0.currentSubtitleIndex == 0 && r.0.currentSectionIndex == 0
    ensures r.0.totalSubtitles == totalSubtitles && r.0.completionRate == 0
    ensures r.0.dateAdded == now && r.0.lastPracticed == now && r.0.totalPracticeTime == 0
    ensures r.1 == db[newId := r.0]
  {
    var rec := VideoRecord(newId, videoName, videoName, subtitleName, subtitleText,
                           0, 0, totalSubtitles, 0, now, now, 0);
    (rec, db[newId := rec])
  }

  /**
   * `Math.round(index / total * 100)`, computed exactly: the percentage
   * rounded to the nearest whole number, halves rounded up.
   */
  function CompletionRate(index: int, total: int): (r: int)
    requires total > 0
    ensures (2 * r - 1) * total <= 200 * index < (2 * r + 1) * total
  {
    (200 * index + total) / (2 * total)
  }

  /** A position inside the video gives a rate from 0 to 100, the ends giving exactly 0 and 100. */
  lemma CompletionRateRange(index: int, total: int)
    requires total > 0 && 0 <= index <= total
    ensures 0 <= CompletionRate(index, total) <= 100
    ensures index == 0 ==> CompletionRate(index, total) == 0
    ensures index == total ==> CompletionRate(index, total) == 100
  {
    var r := CompletionRate(index, total);
    if r < 0 {
      assert (2 * r + 1) * total < 0 by {
        assert 2 * r + 1 < 0;
        NegTimesPos(2 * r + 1, total);
      }
    }
    if r > 100 {
      assert (2 * r - 1) * total >= 201 * total by {
        MonoTimes(201, 2 * r - 1, total);
      }
    }
    if index == 0 {
      assert r < 1 by {
        if r >= 1 { MonoTimes(1, 2 * r - 1, total); }
      }
    }
    if index == total {
      assert r > 99 by {
        if r <= 99 { MonoTimes(2 * r + 1, 199, total); }
      }
      assert r < 101 by {
        if r >= 101 { MonoTimes(201, 2 * r - 1, total); }
      }
    }
  }

  lemma NegTimesPos(a: int, b: int)
    requires a < 0 && b > 0
    ensures a * b < 0
  {
  }

  lemma MonoTimes(a: int, b: int, c: int)
    requires a <= b && c > 0
    ensures a * c <= b * c
  {
  }

  /** A later position never shows a lower completion rate. */
  lemma CompletionRateMonotone(i: int, j: int, total: int)
    requires total > 0 && i <= j
    ensures CompletionRate(i, total) <= CompletionRate(j, total)
  {
    var ri, rj := CompletionRate(i, total), CompletionRate(j, total);
    if ri > rj {
      assert (2 * rj + 1) * total <= (2 * ri - 1) * total by {
        MonoTimes(2 * rj + 1, 2 * ri - 1, total);
      }
    }
  }

  /**
   * Record the practice position of a video: both indices and the practice
   * date change, and the completion rate follows the line index when the
   * video has lines. An unknown id changes nothing.
   */
  function UpdateProgress(db: Db, id: string, subtitleIndex: int, sectionIndex: int, now: int): (r: Db)
    ensures id !in db ==> r == db
    ensures id in db ==> id in r && r == db[id := r[id]]
    ensures id in db ==>
      r[id].currentSubtitleIndex == subtitleIndex && r[id].currentSectionIndex == sectionIndex
      && r[id].lastPracticed == now
    ensures id in db && db[id].totalSubtitles > 0 ==>
      r[id].completionRate == CompletionRate(subtitleIndex, db[id].totalSubtitles)
    ensures id in db && db[id].totalSubtitles <= 0 ==> r[id].completionRate == db[id].completionRate
    ensures id in db ==>
      r[id].(currentSubtitleIndex := db[id].currentSubtitleIndex, currentSectionIndex := db[id].currentSectionIndex,
             lastPracticed := db[id].lastPracticed, completionRate := db[id].completionRate) == db[id]
  {
    if id !in db then db
    else
      var rec := db[id];
      var moved := rec.(currentSubtitleIndex := subtitleIndex, currentSectionIndex := sectionIndex, lastPracticed := now);
      var rated := if rec.totalSubtitles > 0
                   then moved.(completionRate := CompletionRate(subtitleIndex, rec.totalSubtitles))
                   else moved;
      db[id := rated]
  }

  /** A record whose rate lies in 0..100 keeps it there for any position inside the video. */
  lemma ProgressKeepsRateInRange(db: Db, id: string, subtitleIndex: int, sectionIndex: int, now: int)
    requires id in db && 0 <= db[id].completionRate <= 100
    requires 0 <= subtitleIndex <= db[id].totalSubtitles
    ensures 0 <= UpdateProgress(db, id, subtitleIndex, sectionIndex, now)[id].completionRate <= 100
  {
    if db[id].totalSubtitles > 0 {
      CompletionRateRange(subtitleIndex, db[id].totalSubtitles);
    }
  }

  /** Add practice seconds to a video's total; an unknown id changes nothing. */
  function UpdatePracticeTime(db: Db, id: string, additionalSeconds: int): (r: Db)
    ensures id !in db ==> r == db
    ensures id in db ==> r == db[id := db[id].(totalPracticeTime := db[id].totalPracticeTime + additionalSeconds)]
  {
    if id !in db then db
    else db[id := db[id].(totalPracticeTime := db[id].totalPracticeTime + additionalSeconds)]
  }

  /** Two additions of practice time amount to one addition of their sum. */
  lemma PracticeTimeAdds(db: Db, id: string, a: int, b: int)
    ensures UpdatePracticeTime(UpdatePracticeTime(db, id, a), id, b) == UpdatePracticeTime(db, id, a + b)
  {
  }

  /**
   * Practice time for display: whole seconds below a minute ("45s"),
   * whole minutes below an hour ("12m"), otherwise hours and the minutes
   * within the hour ("2h 5m").
   */
  function FormatPracticeTime(seconds: int): (r: string)
    ensures seconds < 60 ==> r == Storage.IntToString(seconds) + "s"
    ensures 60 <= seconds < 3600 ==> r == NatToString(seconds / 60) + "m"
    ensures seconds >= 3600 ==>
      r == NatToString(seconds / 3600) + "h " + NatToString(seconds % 3600 / 60) + "m"
      && seconds % 3600 / 60 < 60
  {
    if seconds < 60 then Storage.IntToString(seconds) + "s"
    else if seconds < 3600 then NatToString(seconds / 60) + "m"
    else NatToString(seconds / 3600) + "h " + NatToString(seconds % 3600 / 60) + "m"
  }

  /**
   * The displayed practice time reads back as the time rounded down to the
   * whole minute: "Nm" holds N minutes, "Hh Mm" holds H hours and M < 60
   * minutes.
   */
  lemma PracticeTimeReadsBack(seconds: int)
    requires seconds >= 60
    ensures var r := FormatPracticeTime(seconds);
      seconds < 3600 ==>
        var d := r[..|r| - 1];
        r[|r| - 1] == 'm' && AllDigits(d) && DigitsValue(d) * 60 == seconds - seconds % 60
    ensures var r := FormatPracticeTime(seconds);
      seconds >= 3600 ==>
        var parts := Split(r, " ");
        && |parts| == 2
        && |parts[0]| >= 2 && parts[0][|parts[0]| - 1] == 'h'
        && |parts[1]| >= 2 && parts[1][|parts[1]| - 1] == 'm'
        && AllDigits(parts[0][..|parts[0]| - 1]) && AllDigits(parts[1][..|parts[1]| - 1])
        && DigitsValue(parts[1][..|parts[1]| - 1]) < 60
        && DigitsValue(parts[0][..|parts[0]| - 1]) * 3600 + DigitsValue(parts[1][..|parts[1]| - 1]) * 60
           == seconds - seconds % 60
  {
    if seconds < 3600 {
      MinutesReadBack(seconds);
    } else {
      HoursReadBack(seconds);
    }
  }

  /** Under an hour: "Nm" with N the whole minutes. */
  lemma MinutesReadBack(seconds: int)
    requires 60 <= seconds < 3600
    ensures var r := FormatPracticeTime(seconds);
      var d := r[..|r| - 1];
      r[|r| - 1] == 'm' && AllDigits(d) && DigitsValue(d) * 60 == seconds - seconds % 60
  {
    var r := FormatPracticeTime(seconds);
    var d := NatToString(seconds / 60);
    assert r == d + "m";
    assert r[..|r| - 1] == d;
  }

  /** From an hour on: "Hh Mm" with H the whole hours and M < 60 the remaining whole minutes. */
  lemma HoursReadBack(seconds: int)
    requires seconds >= 3600
    ensures var parts := Split(FormatPracticeTime(seconds), " ");
      && |parts| == 2
      && |parts[0]| >= 2 && parts[0][|parts[0]| - 1] == 'h'
      && |parts[1]| >= 2 && parts[1][|parts[1]| - 1] == 'm'
      && AllDigits(parts[0][..|parts[0]| - 1]) && AllDigits(parts[1][..|parts[1]| - 1])
      && DigitsValue(parts[1][..|parts[1]| - 1]) < 60
      && DigitsValue(parts[0][..|parts[0]| - 1]) * 3600 + DigitsValue(parts[1][..|parts[1]| - 1]) * 60
         == seconds - seconds % 60
  {
    var r := FormatPracticeTime(seconds);
    var h, m := NatToString(seconds / 3600), NatToString(seconds % 3600 / 60);
    var a, b := h + "h", m + "m";
    assert r == a + " " + b;
    assert a[..|a| - 1] == h && b[..|b| - 1] == m;
    assert Split(r, " ") == [a, b] by {
      assert ' ' !in a by { DigitsNoSpace(h); }
      assert ' ' !in b by { DigitsNoSpace(m); }
      SplitTwo(a, " ", b);
    }
  }

  lemma DigitsNoSpace(d: string)
    requires AllDigits(d)
    ensures ' ' !in d
  {
    forall i | 0 <= i < |d|
      ensures d[i] != ' '
    {
      assert IsDigit(d[i]);
    }
  }

  /** How long ago a video was last practised, as the history list words it. */
  datatype Ago = JustNow | MinutesAgo(minutes: int) | HoursAgo(hours: int) | Yesterday
               | DaysAgo(days: int) | OnDate(timestamp: int)

  /**
   * Classify the time since the last practice (in milliseconds) by whole
   * minutes, hours and days: under a minute (or in the future) is "just
   * now", then minutes below an hour, hours below a day, exactly one day is
   * "yesterday", days below a week, and older practice shows its date.
   */
  function FormatLastPracticed(timestamp: int, now: int): (r: Ago)
    ensures r.JustNow? <==> now - timestamp < 60000
    ensures r.MinutesAgo? ==> 1 <= r.minutes < 60 && r.minutes * 60000 <= now - timestamp < (r.minutes + 1) * 60000
    ensures r.HoursAgo? ==> 1 <= r.hours < 24 && r.hours * 3600000 <= now - timestamp < (r.hours + 1) * 3600000
    ensures r.Yesterday? <==> 86400000 <= now - timestamp < 2 * 86400000
    ensures r.DaysAgo? ==> 2 <= r.days < 7 && r.days * 86400000 <= now - timestamp < (r.days + 1) * 86400000
    ensures r.OnDate? <==> now - timestamp >= 7 * 86400000
    ensures r.OnDate? ==> r.timestamp == timestamp
  {
    var diff := now - timestamp;
    var minutes := diff / 60000;
    var hours := diff / 3600000;
    var days := diff / 86400000;
    if minutes < 1 then JustNow
    else if minutes < 60 then MinutesAgo(minutes)
    else if hours < 24 then HoursAgo(hours)
    else if days == 1 then Yesterday
    else if days < 7 then DaysAgo(days)
    else OnDate(timestamp)
  }

  /** The order of the wordings from most to least recent. */
  function Rank(a: Ago): nat {
    match a
    case JustNow => 0
    case MinutesAgo(_) => 1
    case HoursAgo(_) => 2
    case Yesterday => 3
    case DaysAgo(_) => 4
    case OnDate(_) => 5
  }

  /** An older practice is never worded as more recent. */
  lemma LastPracticedMonotone(t1: int, t2: int, now: int)
    requires t2 <= t1
    ensures Rank(FormatLastPracticed(t1, now)) <= Rank(FormatLastPracticed(t2, now))
  {
  }

  /** The phrase for a recent practice; older ones show a locale date, not modelled. */
  function Phrase(a: Ago): (r: string)
    requires !a.OnDate?
  {
    match a
    case JustNow => "Just now"
    case MinutesAgo(n) => Storage.IntToString(n) + " minute" + (if n > 1 then "s" else "") + " ago"
    case HoursAgo(n) => Storage.IntToString(n) + " hour" + (if n > 1 then "s" else "") + " ago"
    case Yesterday => "Yesterday"
    case DaysAgo(n) => Storage.IntToString(n) + " days ago"
  }

  /** Most recently practised first. */
  predicate RecentFirst(rs: seq<VideoRecord>) {
    forall i, j :: 0 <= i < j < |rs| ==> rs[i].lastPracticed >= rs[j].lastPracticed
  }

  /** Put a record into a recent-first list, after every record practised at least as recently. */
  function Insert(x: VideoRecord, rs: seq<VideoRecord>): (r: seq<VideoRecord>)
    requires RecentFirst(rs)
    ensures RecentFirst(r)
    ensures multiset(r) == multiset(rs) + multiset{x}
    ensures |r| == |rs| + 1 && (r[0] == x || (|rs| > 0 && r[0] == rs[0]))
  {
    if |rs| == 0 then [x]
    else if rs[0].lastPracticed >= x.lastPracticed then
      var rest := Insert(x, rs[1..]);
      assert multiset(rs) == multiset{rs[0]} + multiset(rs[1..]) by {
        assert rs == [rs[0]] + rs[1..];
      }
      RecentFirstCons(rs[0], rest);
      [rs[0]] + rest
    else
      RecentFirstCons(x, rs);
      [x] + rs
  }

  /** A record practised at least as recently as the head of a recent-first list can go in front. */
  lemma RecentFirstCons(a: VideoRecord, rest: seq<VideoRecord>)
    requires RecentFirst(rest) && (|rest| == 0 || a.lastPracticed >= rest[0].lastPracticed)
    ensures RecentFirst([a] + rest)
  {
    var r := [a] + rest;
    forall i, j | 0 <= i < j < |r|
      ensures r[i].lastPracticed >= r[j].lastPracticed
    {
      if i == 0 {
        assert r[j] == rest[j - 1];
      } else {
        assert r[i] == rest[i - 1] && r[j] == rest[j - 1];
      }
    }
  }

  /** The records, most recently practised first. */
  function SortByRecent(rs: seq<VideoRecord>): (r: seq<VideoRecord>)
    ensures RecentFirst(r)
    ensures multiset(r) == multiset(rs)
  {
    if |rs| == 0 then []
    else
      assert rs == rs[..|rs| - 1] + [rs[|rs| - 1]];
      Insert(rs[|rs| - 1], SortByRecent(rs[..|rs| - 1]))
  }

  /** The records practised at time `t`, in their order in `rs`. */
  function PractisedAt(rs: seq<VideoRecord>, t: int): seq<VideoRecord> {
    if |rs| == 0 then []
    else (if rs[0].lastPracticed == t then [rs[0]] else []) + PractisedAt(rs[1..], t)
  }

  /** Picking the records of one time distributes over concatenation. */
  lemma {:induction false} PractisedAtAppend(a: seq<VideoRecord>, b: seq<VideoRecord>, t: int)
    ensures PractisedAt(a + b, t) == PractisedAt(a, t) + PractisedAt(b, t)
    decreases |a|
  {
    if |a| > 0 {
      assert (a + b)[1..] == a[1..] + b;
      PractisedAtAppend(a[1..], b, t);
    } else {
      assert a + b == b;
    }
  }

  /** A recent-first list whose head is older than `t` holds no record of time `t`. */
  lemma {:induction false} NoneAfterHead(rs: seq<VideoRecord>, t: int)
    requires RecentFirst(rs) && |rs| > 0 && rs[0].lastPracticed < t
    ensures PractisedAt(rs, t) == []
    decreases |rs|
  {
    if |rs| > 1 {
      NoneAfterHead(rs[1..], t);
    }
  }

  /** Insertion puts the record after every record of the same time. */
  lemma {:induction false} InsertStable(x: VideoRecord, rs: seq<VideoRecord>, t: int)
    requires RecentFirst(rs)
    ensures PractisedAt(Insert(x, rs), t) == PractisedAt(rs, t) + (if x.lastPracticed == t then [x] else [])
    decreases |rs|
  {
    if |rs| > 0 {
      if rs[0].lastPracticed >= x.lastPracticed {
        RecentFirstTail(rs);
        InsertStable(x, rs[1..], t);
        InsertBehindStable(x, rs, t);
      } else {
        InsertFrontStable(x, rs, t);
      }
    }
  }

  /** The tail of a recent-first list is recent-first. */
  lemma RecentFirstTail(rs: seq<VideoRecord>)
    requires RecentFirst(rs) && |rs| > 0
    ensures RecentFirst(rs[1..])
  {
    var tail := rs[1..];
    forall i, j | 0 <= i < j < |tail|
      ensures tail[i].lastPracticed >= tail[j].lastPracticed
    {
      assert tail[i] == rs[i + 1] && tail[j] == rs[j + 1];
    }
  }

  /** A record no newer than the head goes behind it: one step of the insertion. */
  lemma InsertBehindStable(x: VideoRecord, rs: seq<VideoRecord>, t: int)
    requires RecentFirst(rs) && |rs| > 0 && rs[0].lastPracticed >= x.lastPracticed && RecentFirst(rs[1..])
    requires PractisedAt(Insert(x, rs[1..]), t) == PractisedAt(rs[1..], t) + (if x.lastPracticed == t then [x] else [])
    ensures PractisedAt(Insert(x, rs), t) == PractisedAt(rs, t) + (if x.lastPracticed == t then [x] else [])
  {
    InsertBehind(x, rs);
    SameHeadStable(rs, Insert(x, rs[1..]), if x.lastPracticed == t then [x] else [], t);
  }

  /** Insertion behind the head keeps the head and inserts into the tail. */
  lemma InsertBehind(x: VideoRecord, rs: seq<VideoRecord>)
    requires RecentFirst(rs) && |rs| > 0 && rs[0].lastPracticed >= x.lastPracticed && RecentFirst(rs[1..])
    ensures Insert(x, rs) == [rs[0]] + Insert(x, rs[1..])
  {
  }

  /** Putting the head of `s` in front of a list that extends its tail extends `s` alike. */
  lemma SameHeadStable(s: seq<VideoRecord>, rest: seq<VideoRecord>, own: seq<VideoRecord>, t: int)
    requires |s| > 0 && PractisedAt(rest, t) == PractisedAt(s[1..], t) + own
    ensures PractisedAt([s[0]] + rest, t) == PractisedAt(s, t) + own
  {
    var head: seq<VideoRecord> := if s[0].lastPracticed == t then [s[0]] else [];
    assert ([s[0]] + rest)[0] == s[0] && ([s[0]] + rest)[1..] == rest;
    assert PractisedAt([s[0]] + rest, t) == head + PractisedAt(rest, t);
    assert head + (PractisedAt(s[1..], t) + own) == (head + PractisedAt(s[1..], t)) + own;
  }

  /** A record newer than the head goes in front, and no record of its time follows it. */
  lemma InsertFrontStable(x: VideoRecord, rs: seq<VideoRecord>, t: int)
    requires RecentFirst(rs) && |rs| > 0 && rs[0].lastPracticed < x.lastPracticed
    ensures PractisedAt(Insert(x, rs), t) == PractisedAt(rs, t) + (if x.lastPracticed == t then [x] else [])
  {
    assert Insert(x, rs) == [x] + rs;
    assert ([x] + rs)[1..] == rs;
    if x.lastPracticed == t {
      NoneAfterHead(rs, t);
    }
  }

  /**
   * The sort is stable, as JavaScript's `sort` is: records practised at
   * the same time keep the order they had.
   */
  lemma {:induction false} SortByRecentStable(rs: seq<VideoRecord>, t: int)
    ensures PractisedAt(SortByRecent(rs), t) == PractisedAt(rs, t)
    decreases |rs|
  {
    if |rs| > 0 {
      var init := rs[..|rs| - 1];
      var x := rs[|rs| - 1];
      assert rs == init + [x];
      SortByRecentStable(init, t);
      InsertStable(x, SortByRecent(init), t);
      PractisedAtAppend(init, [x], t);
      assert PractisedAt([x], t) == (if x.lastPracticed == t then [x] else []) by {
        assert [x][1..] == [];
      }
    }
  }

  /**
   * All records for the history list, most recently practised first; a
   * failed read of the database gives none.
   */
  function GetAllVideoRecords(read: Result<seq<VideoRecord>, string>): (r: seq<VideoRecord>)
    ensures RecentFirst(r)
    ensures read.Ok? ==> multiset(r) == multiset(read.value)
    ensures read.Err? ==> r == []
  {
    match read
    case Ok(rs) => SortByRecent(rs)
    case Err(_) => []
  }
}
