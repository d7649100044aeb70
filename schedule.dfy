/** The weekly calendar of `scheduleService.ts` and the admin dashboard's
    `getNextMonday`. The clock is the Central-time wall clock, passed in as its
    fields: `day` is `getDay()` (0 for Sunday), `month` is `getMonth()` (0 for
    January), `date` is `getDate()`. `devMode` is the `DEV_MODE` switch. A time
    the service builds is returned as a day offset from today and a time of day. */
module Schedule {
  import opened Wrappers
  import opened Text
  import opened Puzzle

  datatype WallClock = WallClock(year: int, month: int, date: int, day: int, hour: int)

  /** The ranges `Date` keeps its fields in. */
  predicate ValidClock(t: WallClock) {
    0 <= t.month <= 11 && 1 <= t.date <= 31 && 0 <= t.day <= 6 && 0 <= t.hour <= 23
  }

  /** A time the service returns: `daysAhead` days from today at the given time of day. */
  datatype Moment = Moment(daysAhead: int, hour: int, minute: int, second: int, ms: int)

  // ---- Availability ----

  /** `isGameDay`. */
  predicate IsGameDay(devMode: bool, t: WallClock) {
    if devMode then true else t.day == GameDay
  }

  /** `isGameAvailable`. */
  predicate IsGameAvailable(devMode: bool, t: WallClock) {
    if devMode then true
    else if t.day != GameDay then false
    else t.hour >= GameStartHour && t.hour < GameEndHour
  }

  /** `isLeaderboardAvailable`. */
  predicate IsLeaderboardAvailable(devMode: bool, t: WallClock) {
    if devMode then true
    else if t.day != GameDay then t.day > GameDay || t.day == 0
    else t.hour >= LeaderboardHour
  }

  /** Outside development mode the game is open exactly on Monday from 08:00 to
      14:59, and then only on a game day. */
  lemma GameAvailableIff(t: WallClock)
    ensures IsGameAvailable(false, t) <==> t.day == 1 && 8 <= t.hour < 15
    ensures IsGameAvailable(false, t) ==> IsGameDay(false, t)
  {
  }

  /** Outside development mode the leaderboard is shown on every day but
      Monday, and on Monday from 17:00; every other weekday passes the
      `day > GAME_DAY || day === 0` test. */
  lemma LeaderboardAvailableIff(t: WallClock)
    requires ValidClock(t)
    ensures IsLeaderboardAvailable(false, t) <==> t.day != 1 || t.hour >= 17
    ensures t.day != GameDay ==> t.day > GameDay || t.day == 0
  {
  }

  /** The game is never open while the leaderboard is shown. */
  lemma GameAndLeaderboardExclusive(t: WallClock)
    requires ValidClock(t)
    ensures !(IsGameAvailable(false, t) && IsLeaderboardAvailable(false, t))
  {
  }

  /** With `DEV_MODE` every check passes, whatever the clock says. */
  lemma DevModeOpensAll(t: WallClock)
    ensures IsGameDay(true, t) && IsGameAvailable(true, t) && IsLeaderboardAvailable(true, t)
  {
  }

  // ---- getNextGameStart ----

  /** `daysUntilMonday`. The operand of `%` is at least 2 here, where
      JavaScript's remainder and Dafny's agree. */
  function DaysUntilGame(t: WallClock): int
    requires ValidClock(t)
  {
    if t.day == GameDay then (if t.hour < GameStartHour then 0 else 7)
    else
      var d := (GameDay - t.day + 7) % 7;
      if d == 0 then 7 else d
  }

  /** `getNextGameStart`. */
  function NextGameStart(t: WallClock): Moment
    requires ValidClock(t)
  {
    Moment(DaysUntilGame(t), GameStartHour, 0, 0, 0)
  }

  /** The weekday `j` days after weekday `day`. */
  function DayAfter(day: int, j: int): int {
    (day + j) % 7
  }

  /** The next start is 0 days ahead on Monday before 08:00, 7 days ahead on
      Monday from 08:00 and 1 to 6 days ahead on the other days (so the `0 → 7`
      fallback never fires); it is always a Monday at 08:00:00.000, it is not
      in the past, and no game starts between now and then. */
  lemma NextGameStartFacts(t: WallClock)
    requires ValidClock(t)
    ensures var s := NextGameStart(t);
      0 <= s.daysAhead <= 7 &&
      (s.daysAhead == 0 <==> t.day == GameDay && t.hour < GameStartHour) &&
      (s.daysAhead == 7 <==> t.day == GameDay && t.hour >= GameStartHour) &&
      (t.day != GameDay ==> 1 <= s.daysAhead <= 6 && (GameDay - t.day + 7) % 7 != 0) &&
      (t.day + s.daysAhead) % 7 == GameDay &&
      s.hour == GameStartHour && s.minute == 0 && s.second == 0 && s.ms == 0 &&
      (s.daysAhead > 0 || t.hour < s.hour) &&
      forall j :: 0 <= j < s.daysAhead && DayAfter(t.day, j) == GameDay ==> j == 0 && t.hour >= GameStartHour
  {
  }

  // ---- getGameEndTime, getLeaderboardTime ----

  /** `getGameEndTime`. */
  function GameEndTime(devMode: bool, t: WallClock): Option<Moment> {
    if !IsGameDay(devMode, t) then None else Some(Moment(0, GameEndHour, 0, 0, 0))
  }

  /** `getLeaderboardTime`. */
  function LeaderboardTime(devMode: bool, t: WallClock): Option<Moment> {
    if !IsGameDay(devMode, t) then None else Some(Moment(0, LeaderboardHour, 0, 0, 0))
  }

  /** Both times exist exactly on a game day, are today, the game closing at
      15:00 and the leaderboard opening two hours later at 17:00; on a Monday
      the game is open exactly before the end time, from 08:00 on, and the
      leaderboard is shown exactly from the leaderboard time. */
  lemma DayTimesFacts(devMode: bool, t: WallClock)
    ensures GameEndTime(devMode, t).Some? <==> IsGameDay(devMode, t)
    ensures LeaderboardTime(devMode, t).Some? <==> IsGameDay(devMode, t)
    ensures GameEndTime(devMode, t).Some? ==>
      (GameEndTime(devMode, t).value == Moment(0, 15, 0, 0, 0) &&
       LeaderboardTime(devMode, t).value == Moment(0, 17, 0, 0, 0))
    ensures !devMode && t.day == GameDay ==>
      (IsGameAvailable(devMode, t) <==> 8 <= t.hour < GameEndTime(devMode, t).value.hour) &&
      (IsLeaderboardAvailable(devMode, t) <==> t.hour >= LeaderboardTime(devMode, t).value.hour)
  {
  }

  // ---- getTodayPuzzleDate ----

  /** `getTodayPuzzleDate`: `year-MM-DD` with the month counted from 1. */
  function TodayPuzzleDate(t: WallClock): string
    requires ValidClock(t)
  {
    IntToString(t.year) + "-" + Pad2(t.month + 1) + "-" + Pad2(t.date)
  }

  lemma {:induction false} FourDigits(n: nat)
    requires 1000 <= n <= 9999
    ensures |NatToString(n)| == 4
  {
    var a := n / 10;
    var b := a / 10;
    assert 100 <= a <= 999 && 10 <= b <= 99 && 1 <= b / 10 <= 9;
    assert |NatToString(b)| == 2;
    assert |NatToString(a)| == 3;
  }

  /** The shape of a full-date of section 5.6 of RFC 3339
      (`date-fullyear "-" date-month "-" date-mday`) with a four-digit year. */
  predicate FullDate(s: string) {
    |s| == 10 && s[4] == '-' && s[7] == '-' &&
    forall i :: 0 <= i < 10 && i != 4 && i != 7 ==> IsDigit(s[i])
  }

  /** Reads a full-date back as (year, month, day of the month). */
  function ParseDate(s: string): (nat, nat, nat)
    requires FullDate(s)
  {
    (DigitsValue(s[..4]), DigitsValue(s[5..7]), DigitsValue(s[8..]))
  }

  /** For a four-digit year the puzzle date is a full-date whose fields read
      back as the year, the 1-based month and the day of the month. */
  lemma PuzzleDateFormat(t: WallClock)
    requires ValidClock(t) && 1000 <= t.year <= 9999
    ensures FullDate(TodayPuzzleDate(t))
    ensures ParseDate(TodayPuzzleDate(t)) == (t.year, t.month + 1, t.date)
  {
    var y, m, d := NatToString(t.year), Pad2(t.month + 1), Pad2(t.date);
    FourDigits(t.year);
    DashedParts(y, m, d);
    NatToStringRoundTrip(t.year);
    Pad2Value(t.month + 1);
    Pad2Value(t.date);
  }

  /** Where the three fields of a dashed date land in the joined string. */
  lemma DashedParts(y: string, m: string, d: string)
    requires |y| == 4 && |m| == 2 && |d| == 2
    requires forall i :: 0 <= i < 4 ==> IsDigit(y[i])
    requires forall i :: 0 <= i < 2 ==> IsDigit(m[i]) && IsDigit(d[i])
    ensures var s := y + "-" + m + "-" + d;
      FullDate(s) && s[..4] == y && s[5..7] == m && s[8..] == d
  {
    var s := y + "-" + m + "-" + d;
    assert s[..4] == y && s[5..7] == m && s[8..] == d;
    forall i | 0 <= i < 10 && i != 4 && i != 7
      ensures IsDigit(s[i])
    {
      if i < 4 { assert s[i] == y[i]; }
      else if i < 7 { assert s[i] == m[i - 5]; }
      else { assert s[i] == d[i - 8]; }
    }
  }

  /** Different days of four-digit years give different puzzle dates. */
  lemma PuzzleDateInjective(t: WallClock, u: WallClock)
    requires ValidClock(t) && 1000 <= t.year <= 9999 && ValidClock(u) && 1000 <= u.year <= 9999
    requires TodayPuzzleDate(t) == TodayPuzzleDate(u)
    ensures t.year == u.year && t.month == u.month && t.date == u.date
  {
    PuzzleDateFormat(t);
    PuzzleDateFormat(u);
  }

  // ---- getNextMonday ----

  /** `daysUntil` of the dashboard's `getNextMonday`, `|| 7` included. */
  function DaysUntilMonday(day: int): int
    requires 0 <= day <= 6
  {
    if day == 1 then 0
    else
      var d := (1 - day + 7) % 7;
      if d == 0 then 7 else d
  }

  /** The dashboard's offset is the least number of days, from 0, that reaches
      a Monday; the `|| 7` fallback cannot fire, since the remainder is 0 only
      on a Monday. */
  lemma DaysUntilMondayLeast(day: int)
    requires 0 <= day <= 6
    ensures var k := DaysUntilMonday(day);
      (k == 0 <==> day == 1) &&
      (day != 1 ==> 1 <= k <= 6) &&
      ((1 - day + 7) % 7 == 0 <==> day == 1) &&
      (day + k) % 7 == 1 &&
      forall j :: 0 <= j < k ==> DayAfter(day, j) != 1
  {
  }

  /** The dashboard proposes the same Monday as the next game start, except on
      a Monday from 08:00, when it proposes today and the game start is a week
      away. */
  lemma DashboardMondayAgrees(t: WallClock)
    requires ValidClock(t)
    ensures DaysUntilMonday(t.day) == if t.day == GameDay && t.hour >= GameStartHour then 0 else DaysUntilGame(t)
    ensures t.day == GameDay && t.hour >= GameStartHour ==> DaysUntilGame(t) == DaysUntilMonday(t.day) + 7
  {
  }
}
