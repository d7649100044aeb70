/** The clocks the player and the administrator read: `Timer.tsx` (its
    `formatTime` and the elapsed time it shows), `Countdown.tsx` (its `tick`)
    and the archive page's `formatTime`. Instants are integers in
    milliseconds; the device clock and the server offset are parameters. */
module TimeDisplay {
  import opened Wrappers
  import opened Text
  import opened GameRoutes
  import opened GameStore

  /** JavaScript's `%`: the remainder takes the sign of the dividend. */
  function JsRem(a: int, b: int): (r: int)
    requires b > 0
    ensures a >= 0 ==> 0 <= r < b && r == a % b
    ensures a < 0 ==> -b < r <= 0
  {
    if a >= 0 then a % b else -((-a) % b)
  }

  /** `String(n).padStart(2, '0')` for any integer. */
  function Pad2Int(n: int): (r: string)
    ensures n >= 0 ==> r == Pad2(n)
  {
    PadStart(IntToString(n), 2, '0')
  }

  // ---- Reading a clock text back ----

  /** `a s1 bb s2 cc`: digits (at least two) in front, then two separated
      two-digit fields. */
  predicate ThreeFields(t: string, s1: char, s2: char) {
    |t| >= 8 && t[|t| - 6] == s1 && t[|t| - 3] == s2 &&
    forall i :: 0 <= i < |t| && i != |t| - 6 && i != |t| - 3 ==> IsDigit(t[i])
  }

  function ThreeValues(t: string, s1: char, s2: char): (nat, nat, nat)
    requires ThreeFields(t, s1, s2)
  {
    (DigitsValue(t[..|t| - 6]), DigitsValue(t[|t| - 5..|t| - 3]), DigitsValue(t[|t| - 2..]))
  }

  /** Three non-negative numbers, the last two below 100, padded to two
      digits and joined by two separators, read back as those numbers; the
      text is eight characters long when the first is below 100 too. */
  lemma PaddedFields(x: nat, s1: char, y: nat, s2: char, z: nat)
    requires y < 100 && z < 100 && !IsDigit(s1) && !IsDigit(s2)
    ensures var t := Pad2(x) + [s1] + Pad2(y) + [s2] + Pad2(z);
      ThreeFields(t, s1, s2) && ThreeValues(t, s1, s2) == (x, y, z) &&
      (x < 100 ==> |t| == 8)
  {
    ThreeParts(Pad2(x), s1, Pad2(y), s2, Pad2(z));
    Pad2Value(x);
    Pad2Value(y);
    Pad2Value(z);
  }

  /** Where three padded fields land in the joined text. */
  lemma ThreeParts(x: string, s1: char, y: string, s2: char, z: string)
    requires |x| >= 2 && |y| == 2 && |z| == 2 && !IsDigit(s1) && !IsDigit(s2)
    requires forall i :: 0 <= i < |x| ==> IsDigit(x[i])
    requires forall i :: 0 <= i < 2 ==> IsDigit(y[i]) && IsDigit(z[i])
    ensures var t := x + [s1] + y + [s2] + z;
      ThreeFields(t, s1, s2) && t[..|t| - 6] == x && t[|t| - 5..|t| - 3] == y && t[|t| - 2..] == z
  {
    var t := x + [s1] + y + [s2] + z;
    assert t[..|t| - 6] == x && t[|t| - 5..|t| - 3] == y && t[|t| - 2..] == z;
    forall i | 0 <= i < |t| && i != |t| - 6 && i != |t| - 3
      ensures IsDigit(t[i])
    {
      if i < |x| { assert t[i] == x[i]; }
      else if i < |x| + 3 { assert t[i] == y[i - |x| - 1]; }
      else { assert t[i] == z[i - |x| - 4]; }
    }
  }

  // ---- Timer.tsx ----

  /** The minutes, seconds and centiseconds of Timer's `formatTime`, with
      `Math.floor` (Dafny's division by a positive number) and JavaScript's `%`. */
  function TimerFields(ms: int): (int, int, int) {
    var totalSeconds := ms / 1000;
    (totalSeconds / 60, JsRem(totalSeconds, 60), JsRem(ms, 1000) / 10)
  }

  /** Timer's `formatTime`: `MM:SS.cc`. */
  function TimerText(ms: int): string {
    var f := TimerFields(ms);
    Pad2Int(f.0) + ":" + Pad2Int(f.1) + "." + Pad2Int(f.2)
  }

  /** For a non-negative duration the seconds lie in 0..59 and the
      centiseconds in 0..99, and together with the minutes they spell the
      duration rounded down to a hundredth of a second. */
  lemma TimerFieldsMeaning(ms: nat)
    ensures var f := TimerFields(ms);
      f.0 >= 0 && 0 <= f.1 < 60 && 0 <= f.2 < 100 &&
      f.0 * 60000 + f.1 * 1000 + f.2 * 10 == 10 * (ms / 10)
  {
  }

  /** The timer's text always reads back: minutes, a colon, two digits of
      seconds, a dot, two digits of centiseconds, spelling the duration to
      the hundredth; under 100 minutes it is exactly `MM:SS.cc`. */
  lemma TimerReadsBack(ms: nat)
    ensures ThreeFields(TimerText(ms), ':', '.')
    ensures var v := ThreeValues(TimerText(ms), ':', '.');
      v.1 < 60 && v.2 < 100 && v.0 * 60000 + v.1 * 1000 + v.2 * 10 == 10 * (ms / 10)
    ensures ms < 6000000 ==> |TimerText(ms)| == 8
  {
    var f := TimerFields(ms);
    TimerFieldsMeaning(ms);
    assert TimerText(ms) == Pad2(f.0) + ":" + Pad2(f.1) + "." + Pad2(f.2);
    PaddedFields(f.0, ':', f.1, '.', f.2);
  }

  /** Two durations show the same text exactly when they agree to the
      hundredth of a second. */
  lemma TimerTextIff(a: nat, b: nat)
    ensures TimerText(a) == TimerText(b) <==> a / 10 == b / 10
  {
    if TimerText(a) == TimerText(b) {
      TimerTextSeparates(a, b);
    }
    if a / 10 == b / 10 {
      CentisecondFields(a, b);
    }
  }

  lemma TimerTextSeparates(a: nat, b: nat)
    requires TimerText(a) == TimerText(b)
    ensures a / 10 == b / 10
  {
    TimerReadsBack(a);
    TimerReadsBack(b);
  }

  lemma CentisecondFields(a: nat, b: nat)
    requires a / 10 == b / 10
    ensures TimerFields(a) == TimerFields(b)
  {
    var fa, fb := TimerFields(a), TimerFields(b);
    TimerFieldsMeaning(a);
    TimerFieldsMeaning(b);
    assert fa.0 * 6000 + fa.1 * 100 + fa.2 == fb.0 * 6000 + fb.1 * 100 + fb.2;
  }

  /** The elapsed time the timer shows: a non-zero stored total, else nothing
      before the start, else the recorded span of a finished game, else the
      time since the start on the server's clock, never below zero. */
  function Elapsed(t: Timing, deviceNow: int, serverTimeOffset: int): int {
    if t.totalTimeMs.Some? && t.totalTimeMs.value != 0 then t.totalTimeMs.value
    else if t.startedAt.None? then 0
    else if t.completedAt.Some? then t.completedAt.value - t.startedAt.value
    else
      var serverNow := deviceNow + serverTimeOffset;
      if serverNow - t.startedAt.value > 0 then serverNow - t.startedAt.value else 0
  }

  /** The timer runs only for a started, unfinished game without a total. */
  predicate Running(t: Timing) {
    (t.totalTimeMs.None? || t.totalTimeMs.value == 0) && t.startedAt.Some? && t.completedAt.None?
  }

  /** A stopped timer shows the same value whatever the clocks say; a running
      one never shows a negative time and never goes backwards as the device
      clock advances. */
  lemma ElapsedFacts(t: Timing, now1: int, now2: int, offset: int)
    ensures !Running(t) ==> Elapsed(t, now1, offset) == Elapsed(t, now2, offset)
    ensures Running(t) ==> Elapsed(t, now1, offset) >= 0
    ensures Running(t) && now1 <= now2 ==> Elapsed(t, now1, offset) <= Elapsed(t, now2, offset)
    ensures Running(t) ==> Elapsed(t, now1, offset) == Elapsed(t, now1 + offset, 0)
  {
  }

  /** A stored total of 0 is falsy and shows as if there were none; any other
      total is shown as it is. */
  lemma ElapsedTotalPrecedence(t: Timing, now: int, offset: int)
    ensures Elapsed(t.(totalTimeMs := Some(0)), now, offset) == Elapsed(t.(totalTimeMs := None), now, offset)
    ensures t.totalTimeMs.Some? && t.totalTimeMs.value != 0 ==> Elapsed(t, now, offset) == t.totalTimeMs.value
  {
  }

  /** After a give-up the timer is stopped: it shows the server's total, or
      the span up to the moment of the give-up. */
  lemma GiveUpStopsTimer(x: CrosswordBoard, t: Timing, error: Option<string>, data: GiveUpReply,
                         now: int, later: int, offset: int)
    ensures var after := GiveUp(x, t, error, Ok(data), now).timing;
      !Running(after) &&
      Elapsed(after, later, offset) ==
        if data.totalTimeMs.Some? && data.totalTimeMs.value != 0 then data.totalTimeMs.value
        else if t.startedAt.None? then 0
        else now - t.startedAt.value
  {
  }

  // ---- Countdown.tsx ----

  /** One `tick`: the text shown and whether `onComplete` fires. */
  datatype Tick = Tick(text: string, complete: bool)

  /** The hours, minutes and seconds of `tick`; `diff > 0` on the counting
      path, where JavaScript's `%` and Dafny's agree. */
  function CountdownFields(diff: int): (int, int, int) {
    (diff / 3600000, (diff % 3600000) / 60000, (diff % 60000) / 1000)
  }

  /** `tick` with `diff` the milliseconds left. */
  function CountdownTick(diff: int): Tick {
    if diff <= 0 then Tick("00:00:00", true)
    else
      var f := CountdownFields(diff);
      Tick(Pad2(f.0) + ":" + Pad2(f.1) + ":" + Pad2(f.2), false)
  }

  /** While time is left the minutes and seconds lie in 0..59 and with the
      hours they spell the whole seconds left. */
  lemma CountdownFieldsMeaning(diff: nat)
    ensures var f := CountdownFields(diff);
      f.0 >= 0 && 0 <= f.1 < 60 && 0 <= f.2 < 60 && f.0 * 3600 + f.1 * 60 + f.2 == diff / 1000
  {
    var h, r := diff / 3600000, diff % 3600000;
    var m, q := r / 60000, r % 60000;
    assert diff == 3600000 * h + 60000 * m + q;
    assert diff % 60000 == q;
    assert diff / 1000 == 3600 * h + 60 * m + q / 1000;
  }

  /** The text shown once the target has passed. */
  lemma ZeroText()
    ensures "00:00:00" == Pad2(0) + ":" + Pad2(0) + ":" + Pad2(0)
    ensures ThreeFields("00:00:00", ':', ':') && ThreeValues("00:00:00", ':', ':') == (0, 0, 0)
  {
    assert Pad2(0) == "00";
    ThreeParts(Pad2(0), ':', Pad2(0), ':', Pad2(0));
    Pad2Value(0);
  }

  /** The countdown reads back as hours (two digits or more), minutes and
      seconds, each below 60 after the hours, spelling the whole seconds
      left, and zero once the target has passed; `onComplete` fires exactly
      then. */
  lemma CountdownReadsBack(diff: int)
    ensures ThreeFields(CountdownTick(diff).text, ':', ':')
    ensures var v := ThreeValues(CountdownTick(diff).text, ':', ':');
      v.1 < 60 && v.2 < 60 && v.0 * 3600 + v.1 * 60 + v.2 == if diff <= 0 then 0 else diff / 1000
    ensures CountdownTick(diff).complete <==> diff <= 0
    ensures 0 < diff < 360000000 ==> |CountdownTick(diff).text| == 8
  {
    if diff <= 0 {
      ZeroText();
    } else {
      var f := CountdownFields(diff);
      CountdownFieldsMeaning(diff);
      PaddedFields(f.0, ':', f.1, ':', f.2);
    }
  }

  /** `00:00:00` is shown exactly while less than a second is left. */
  lemma CountdownZeroIff(diff: int)
    ensures CountdownTick(diff).text == "00:00:00" <==> diff < 1000
  {
    if CountdownTick(diff).text == "00:00:00" {
      ZeroTextMeansUnderASecond(diff);
    }
    if 0 < diff < 1000 {
      CountdownFieldsMeaning(diff);
      assert CountdownFields(diff) == (0, 0, 0);
      ZeroText();
    }
  }

  lemma ZeroTextMeansUnderASecond(diff: int)
    requires CountdownTick(diff).text == "00:00:00"
    ensures diff < 1000
  {
    ZeroText();
    CountdownReadsBack(diff);
  }

  // ---- AdminArchivePage.tsx ----

  /** The minutes and seconds of the archive page's `formatTime`. */
  function ArchiveFields(ms: int): (int, int) {
    var totalSeconds := ms / 1000;
    (totalSeconds / 60, JsRem(totalSeconds, 60))
  }

  /** The archive page's `formatTime`: the minutes unpadded, the seconds padded. */
  function ArchiveText(ms: int): string {
    var f := ArchiveFields(ms);
    IntToString(f.0) + ":" + Pad2Int(f.1)
  }

  /** `m:ss`: digits (at least one), one colon, two digits. */
  predicate TwoFields(t: string) {
    |t| >= 4 && t[|t| - 3] == ':' &&
    forall i :: 0 <= i < |t| && i != |t| - 3 ==> IsDigit(t[i])
  }

  function TwoValues(t: string): (nat, nat)
    requires TwoFields(t)
  {
    (DigitsValue(t[..|t| - 3]), DigitsValue(t[|t| - 2..]))
  }

  /** Where the two fields land in the joined text. */
  lemma TwoParts(x: string, y: string)
    requires |x| >= 1 && |y| == 2
    requires forall i :: 0 <= i < |x| ==> IsDigit(x[i])
    requires forall i :: 0 <= i < 2 ==> IsDigit(y[i])
    ensures var t := x + ":" + y;
      TwoFields(t) && t[..|t| - 3] == x && t[|t| - 2..] == y
  {
    var t := x + ":" + y;
    assert t[..|t| - 3] == x && t[|t| - 2..] == y;
    forall i | 0 <= i < |t| && i != |t| - 3
      ensures IsDigit(t[i])
    {
      if i < |x| { assert t[i] == x[i]; }
      else { assert t[i] == y[i - |x| - 1]; }
    }
  }

  /** A non-negative time reads back as whole minutes and seconds below 60
      spelling its whole seconds; under ten minutes it is `m:ss`. */
  lemma ArchiveReadsBack(ms: nat)
    ensures TwoFields(ArchiveText(ms))
    ensures var v := TwoValues(ArchiveText(ms)); v.1 < 60 && v.0 * 60 + v.1 == ms / 1000
    ensures ms < 600000 ==> |ArchiveText(ms)| == 4
  {
    var f := ArchiveFields(ms);
    TwoParts(NatToString(f.0), Pad2(f.1));
    NatToStringRoundTrip(f.0);
    Pad2Value(f.1);
  }

  /** Two non-negative times show the same text exactly when they agree to
      the second. */
  lemma ArchiveTextIff(a: nat, b: nat)
    ensures ArchiveText(a) == ArchiveText(b) <==> a / 1000 == b / 1000
  {
    if ArchiveText(a) == ArchiveText(b) {
      ArchiveTextSeparates(a, b);
    }
  }

  lemma ArchiveTextSeparates(a: nat, b: nat)
    requires ArchiveText(a) == ArchiveText(b)
    ensures a / 1000 == b / 1000
  {
    ArchiveReadsBack(a);
    ArchiveReadsBack(b);
  }
}
