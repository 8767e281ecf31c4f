/** Weekly block windows on a fixed UTC offset. */
module BlockSchedule {
  import opened Names
  import opened Spelling
  import opened Text

  /** Clocks that read earlier than this are not trusted. */
  const MIN_TRUSTED_UNIX_SECS: nat := 1_577_836_800

  const MINUTES_PER_DAY: int := 1440
  const MINUTES_PER_WEEK: int := 10080

  /** `days` is the set of one bits of the weekday mask (Monday = 0); a span with
      `end <= start` wraps past midnight; no span means the whole day. */
  datatype Window = Window(days: set<int>, span: Option<(int, int)>, offset: int)

  predicate ValidSpan(span: (int, int)) {
    0 <= span.0 < MINUTES_PER_DAY && 0 <= span.1 <= MINUTES_PER_DAY && span.0 != span.1
  }

  /** What compilation guarantees of a window. */
  predicate WellFormed(w: Window) {
    && w.days != {} && (forall d :: d in w.days ==> 0 <= d < 7)
    && (w.span.Some? ==> ValidSpan(w.span.value))
    && -1440 <= w.offset <= 1440
  }

  predicate InSpan(span: Option<(int, int)>, tod: int) {
    if span.None? then true
    else if span.value.0 < span.value.1 then span.value.0 <= tod < span.value.1
    else tod >= span.value.0 || tod < span.value.1
  }

  /** `window_matches`. */
  predicate WindowMatches(w: Window, unixSecs: int) {
    var local := unixSecs + w.offset * 60;
    var days := local / 86_400;
    var weekday := (days + 3) % 7;
    weekday in w.days && InSpan(w.span, (local % 86_400) / 60)
  }

  // ---------------------------------------------------------------------------
  // Minutes
  // ---------------------------------------------------------------------------

  /** The weekday of a local day number; day 0 was a Thursday. */
  function Weekday(day: int): int { (day + 3) % 7 }

  /** The verdict as a function of the local minute. */
  predicate MinuteMatches(w: Window, minute: int) {
    Weekday(minute / MINUTES_PER_DAY) in w.days && InSpan(w.span, minute % MINUTES_PER_DAY)
  }

  /** The verdict depends only on the local minute, so it is constant within each minute. */
  lemma {:induction false} VerdictIsPerMinute(w: Window, unixSecs: int)
    ensures WindowMatches(w, unixSecs) <==> MinuteMatches(w, unixSecs / 60 + w.offset)
  {
    var local := unixSecs + w.offset * 60;
    assert local / 60 == unixSecs / 60 + w.offset;
    assert local / 86_400 == (local / 60) / 1440;
    assert (local % 86_400) / 60 == (local / 60) % 1440;
  }

  lemma {:induction false} VerdictRepeatsWeekly(w: Window, minute: int)
    ensures MinuteMatches(w, minute + MINUTES_PER_WEEK) <==> MinuteMatches(w, minute)
  {
    var day, tod := minute / 1440, minute % 1440;
    MinuteOfDay(day + 7, tod);
    assert minute + MINUTES_PER_WEEK == (day + 7) * MINUTES_PER_DAY + tod;
    WeekdayRepeats(day);
  }

  lemma {:induction false} WeekdayRepeats(day: int)
    ensures Weekday(day + 7) == Weekday(day)
  {
  }

  // ---------------------------------------------------------------------------
  // Which minutes are blocked
  // ---------------------------------------------------------------------------

  /** Local time is second `s` of minute `t` of day `d` (day 0 is 1970-01-01), and that day has
      weekday `k`: 1970-01-05, day 4, was a Monday. */
  predicate LocalTime(unixSecs: int, offset: int, d: int, t: int, s: int, k: int, week: int) {
    && 0 <= t < 1440 && 0 <= s < 60 && 0 <= k < 7
    && unixSecs + offset * 60 == d * 86_400 + t * 60 + s
    && d == 4 + k + 7 * week
  }

  lemma {:induction false} DayOfSeconds(d: int, t: int, s: int)
    requires 0 <= t < 1440 && 0 <= s < 60
    ensures (d * 86_400 + t * 60 + s) / 86_400 == d && ((d * 86_400 + t * 60 + s) % 86_400) / 60 == t
  {
    var n := d * 86_400 + t * 60 + s;
    assert 0 <= t * 60 + s < 86_400;
  }

  lemma {:induction false} WeekdayOfDay(k: int, week: int)
    requires 0 <= k < 7
    ensures (4 + k + 7 * week + 3) % 7 == k
  {
  }

  /** A window blocks exactly on its masked weekdays: the whole day without times; from start to
      end, the end excluded; or, when the end is not after the start, from midnight to end and
      from start to midnight. */
  lemma {:induction false} WindowBlocksIff(w: Window, unixSecs: int, d: int, t: int, s: int, k: int, week: int)
    requires LocalTime(unixSecs, w.offset, d, t, s, k, week)
    ensures WindowMatches(w, unixSecs) <==>
              && k in w.days
              && (w.span.Some? ==>
                    if w.span.value.0 < w.span.value.1 then w.span.value.0 <= t < w.span.value.1
                    else t < w.span.value.1 || w.span.value.0 <= t)
  {
    DayOfSeconds(d, t, s);
    WeekdayOfDay(k, week);
  }

  /** Every moment has exactly one such reading. */
  lemma {:induction false} EveryMomentIsLocal(unixSecs: int, offset: int)
    returns (d: int, t: int, s: int, k: int, week: int)
    ensures LocalTime(unixSecs, offset, d, t, s, k, week)
  {
    var local := unixSecs + offset * 60;
    d := local / 86_400;
    t, s := MinuteAndSecond(local % 86_400);
    k, week := WeekdayAndWeek(d);
  }

  lemma {:induction false} MinuteAndSecond(m: int) returns (t: int, s: int)
    requires 0 <= m < 86_400
    ensures 0 <= t < 1440 && 0 <= s < 60 && m == t * 60 + s
  {
    t, s := m / 60, m % 60;
  }

  lemma {:induction false} WeekdayAndWeek(d: int) returns (k: int, week: int)
    ensures 0 <= k < 7 && d == 4 + k + 7 * week
  {
    k, week := (d - 4) % 7, (d - 4) / 7;
  }

  /** Moving the offset by `d` minutes moves the verdict by exactly `d` minutes. */
  lemma {:induction false} OffsetShiftsVerdict(w: Window, d: int, unixSecs: int)
    ensures WindowMatches(w.(offset := w.offset + d), unixSecs) <==> WindowMatches(w, unixSecs + 60 * d)
  {
  }

  // ---------------------------------------------------------------------------
  // Counting blocked minutes
  // ---------------------------------------------------------------------------

  /** A verdict on every local minute. */
  type Verdict = int -> bool

  /** How many of the `n` minutes from `from` on the verdict blocks. */
  function CountOf(p: Verdict, from: int, n: nat): (c: nat)
    ensures c <= n
  {
    if n == 0 then 0 else CountOf(p, from, n - 1) + (if p(from + n - 1) then 1 else 0)
  }

  function VerdictOf(w: Window): Verdict { m => MinuteMatches(w, m) }

  /** Blocked minutes among the `n` from `from` on. */
  function Count(w: Window, from: int, n: nat): nat { CountOf(VerdictOf(w), from, n) }

  lemma {:induction false} CountAppend(p: Verdict, from: int, a: nat, b: nat)
    ensures CountOf(p, from, a + b) == CountOf(p, from, a) + CountOf(p, from + a, b)
  {
    if b > 0 { CountAppend(p, from, a, b - 1); }
  }

  lemma {:induction false} CountConstant(p: Verdict, from: int, n: nat, verdict: bool)
    requires forall m :: from <= m < from + n ==> (p(m) <==> verdict)
    ensures CountOf(p, from, n) == if verdict then n else 0
  {
    if n > 0 { CountConstant(p, from, n - 1, verdict); }
  }

  /** Blocked minutes of one masked day. */
  function PerDay(span: Option<(int, int)>): int {
    if span.None? then MINUTES_PER_DAY
    else if span.value.0 < span.value.1 then span.value.1 - span.value.0
    else MINUTES_PER_DAY - span.value.0 + span.value.1
  }

  lemma {:induction false} MinuteOfDay(day: int, tod: int)
    requires 0 <= tod < MINUTES_PER_DAY
    ensures (day * MINUTES_PER_DAY + tod) / MINUTES_PER_DAY == day
    ensures (day * MINUTES_PER_DAY + tod) % MINUTES_PER_DAY == tod
  {
  }

  /** A stretch of one day on which the span's answer does not change. */
  lemma {:induction false} CountStretch(w: Window, day: int, lo: int, hi: int, inside: bool)
    requires 0 <= lo <= hi <= MINUTES_PER_DAY
    requires forall tod :: lo <= tod < hi ==> (InSpan(w.span, tod) <==> inside)
    ensures Count(w, day * MINUTES_PER_DAY + lo, hi - lo)
         == if Weekday(day) in w.days && inside then hi - lo else 0
  {
    var from := day * MINUTES_PER_DAY + lo;
    var verdict := Weekday(day) in w.days && inside;
    forall m | from <= m < from + (hi - lo) ensures VerdictOf(w)(m) <==> verdict {
      MinuteOfDay(day, m - day * MINUTES_PER_DAY);
      assert InSpan(w.span, m - day * MINUTES_PER_DAY) <==> inside;
    }
    CountConstant(VerdictOf(w), from, hi - lo, verdict);
  }

  lemma {:induction false} CountThree(p: Verdict, from: int, lo: nat, hi: nat, n: nat)
    requires lo <= hi <= n
    ensures CountOf(p, from, n) == CountOf(p, from, lo) + CountOf(p, from + lo, hi - lo) + CountOf(p, from + hi, n - hi)
  {
    CountAppend(p, from, lo, hi - lo);
    CountAppend(p, from, hi, n - hi);
  }

  lemma {:induction false} CountStretches(w: Window, day: int, lo: nat, hi: nat, inside: bool)
    requires lo <= hi <= MINUTES_PER_DAY
    requires forall tod :: 0 <= tod < MINUTES_PER_DAY ==> (InSpan(w.span, tod) <==> ((lo <= tod < hi) == inside))
    ensures var from, on := day * MINUTES_PER_DAY, Weekday(day) in w.days;
            && Count(w, from, lo) == (if on && !inside then lo else 0)
            && Count(w, from + lo, hi - lo) == (if on && inside then hi - lo else 0)
            && Count(w, from + hi, 1440 - hi) == if on && !inside then 1440 - hi else 0
  {
    CountStretch(w, day, 0, lo, !inside);
    CountStretch(w, day, lo, hi, inside);
    CountStretch(w, day, hi, 1440, !inside);
  }

  /** A day that a span cuts into a middle stretch and two ends. */
  lemma {:induction false} CountCutDay(w: Window, day: int, lo: nat, hi: nat, inside: bool)
    requires lo <= hi <= MINUTES_PER_DAY
    requires forall tod :: 0 <= tod < MINUTES_PER_DAY ==> (InSpan(w.span, tod) <==> ((lo <= tod < hi) == inside))
    ensures Count(w, day * MINUTES_PER_DAY, 1440)
         == if Weekday(day) !in w.days then 0 else if inside then hi - lo else 1440 - (hi - lo)
  {
    CountStretches(w, day, lo, hi, inside);
    CountThree(VerdictOf(w), day * MINUTES_PER_DAY, lo, hi, 1440);
  }

  lemma {:induction false} CountDay(w: Window, day: int)
    requires w.span.Some? ==> ValidSpan(w.span.value)
    ensures Count(w, day * MINUTES_PER_DAY, 1440) == if Weekday(day) in w.days then PerDay(w.span) else 0
  {
    if w.span.None? {
      CountCutDay(w, day, 0, 1440, true);
    } else if w.span.value.0 < w.span.value.1 {
      CountCutDay(w, day, w.span.value.0, w.span.value.1, true);
    } else {
      CountCutDay(w, day, w.span.value.1, w.span.value.0, false);
    }
  }

  /** How many of the weekdays `0..n` are masked. */
  function MaskedBelow(days: set<int>, n: nat): nat {
    if n == 0 then 0 else MaskedBelow(days, n - 1) + (if n - 1 in days then 1 else 0)
  }

  lemma {:induction false} MaskedBelowIsCardinality(days: set<int>, n: nat)
    ensures MaskedBelow(days, n) == |set d | d in days && 0 <= d < n|
  {
    var below := set d | d in days && 0 <= d < n;
    if n > 0 {
      MaskedBelowIsCardinality(days, n - 1);
      var less := set d | d in days && 0 <= d < n - 1;
      if n - 1 in days {
        assert below == less + {n - 1};
      } else {
        assert below == less;
      }
    }
  }

  /** Days that count `per` minutes if masked and none otherwise. */
  predicate CountsDays(p: Verdict, monday: int, days: set<int>, per: int) {
    forall k {:trigger CountOf(p, DayStart(monday, k), 1440)} :: 0 <= k < 7 ==>
      CountOf(p, DayStart(monday, k), 1440) == if k in days then per else 0
  }

  function DayStart(monday: int, k: int): int { (monday + k) * MINUTES_PER_DAY }

  /** Whole days counted from a Monday. */
  lemma {:induction false} CountDays(p: Verdict, monday: int, days: set<int>, per: int, n: nat)
    requires CountsDays(p, monday, days, per) && n <= 7
    ensures CountOf(p, DayStart(monday, 0), n * 1440) == MaskedBelow(days, n) * per
  {
    if n > 0 {
      var start, done, masked := DayStart(monday, 0), (n - 1) * 1440, MaskedBelow(days, n - 1);
      CountDays(p, monday, days, per, n - 1);
      CountAppend(p, start, done, 1440);
      assert start + done == DayStart(monday, n - 1);
      assert CountOf(p, DayStart(monday, n - 1), 1440) == if n - 1 in days then per else 0;
      OneMoreDay(masked, n - 1 in days, per);
      assert MaskedBelow(days, n) == masked + if n - 1 in days then 1 else 0;
    }
  }

  lemma {:induction false} OneMoreDay(masked: int, more: bool, per: int)
    ensures (masked + (if more then 1 else 0)) * per == masked * per + (if more then per else 0)
  {
  }

  lemma {:induction false} WeekdayAfter(monday: int, k: int)
    requires Weekday(monday) == 0 && 0 <= k < 7
    ensures Weekday(monday + k) == k
  {
  }

  lemma {:induction false} WindowCountsDays(w: Window, monday: int)
    requires w.span.Some? ==> ValidSpan(w.span.value)
    requires Weekday(monday) == 0
    ensures CountsDays(VerdictOf(w), monday, w.days, PerDay(w.span))
  {
    forall k | 0 <= k < 7
      ensures CountOf(VerdictOf(w), DayStart(monday, k), 1440) == if k in w.days then PerDay(w.span) else 0
    {
      CountDay(w, monday + k);
      WeekdayAfter(monday, k);
    }
  }

  /** Sliding a week-long frame by one minute drops and gains the same verdict. */
  lemma {:induction false} SlideWeek(p: Verdict, from: int, week: nat)
    requires p(from + week) == p(from)
    ensures CountOf(p, from, week) == CountOf(p, from + 1, week)
  {
    CountAppend(p, from, 1, week);
    CountAppend(p, from, week, 1);
    CountOne(p, from);
    CountOne(p, from + week);
  }

  lemma {:induction false} CountOne(p: Verdict, from: int)
    ensures CountOf(p, from, 1) == if p(from) then 1 else 0
  {
    assert CountOf(p, from, 0) == 0;
  }

  lemma {:induction false} AnyWeekCountsTheSame(p: Verdict, a: int, b: int, week: nat)
    requires a <= b && forall m :: p(m + week) == p(m)
    ensures CountOf(p, a, week) == CountOf(p, b, week)
    decreases b - a
  {
    if a < b {
      SlideWeek(p, a, week);
      AnyWeekCountsTheSame(p, a + 1, b, week);
    }
  }

  lemma {:induction false} MaskIsCardinality(days: set<int>)
    requires forall d :: d in days ==> 0 <= d < 7
    ensures MaskedBelow(days, 7) == |days|
  {
    MaskedBelowIsCardinality(days, 7);
    assert days == set d | d in days && 0 <= d < 7;
  }

  lemma {:induction false} WeekFromMonday(p: Verdict, monday: int, days: set<int>, per: int, from: int)
    requires CountsDays(p, monday, days, per) && forall m :: p(m + 10080) == p(m)
    ensures CountOf(p, from, 10080) == MaskedBelow(days, 7) * per
  {
    CountDays(p, monday, days, per, 7);
    var start := DayStart(monday, 0);
    if from <= start {
      AnyWeekCountsTheSame(p, from, start, 10080);
    } else {
      AnyWeekCountsTheSame(p, start, from, 10080);
    }
  }

  /** Any 10080 consecutive minutes contain exactly (masked days) times (minutes per masked
      day) blocked ones, whatever the first minute, the wrap or the 24:00 sentinel. */
  lemma {:induction false} WeeklyBlockedMinutes(w: Window, from: int)
    requires WellFormed(w)
    ensures Count(w, from, 10080) == |w.days| * PerDay(w.span)
  {
    forall m ensures VerdictOf(w)(m + 10080) == VerdictOf(w)(m) { VerdictRepeatsWeekly(w, m); }
    WindowCountsDays(w, 4);
    WeekFromMonday(VerdictOf(w), 4, w.days, PerDay(w.span), from);
    MaskIsCardinality(w.days);
  }

  // ---------------------------------------------------------------------------
  // The wrap warning
  // ---------------------------------------------------------------------------

  predicate Wraps(w: Window) { w.span.Some? && w.span.value.1 <= w.span.value.0 }

  predicate NextDayMasked(days: set<int>, d: int) { (d + 1) % 7 in days }

  /** The masked days that `compile` warns about: wrapping, successor not masked. */
  function WarnedDays(w: Window): set<int> {
    if Wraps(w) then set d {:trigger NextDayMasked(w.days, d)} | d in w.days && !NextDayMasked(w.days, d) else {}
  }

  lemma {:induction false} NextModSeven(x: int)
    ensures (x % 7 + 1) % 7 == (x + 1) % 7
  {
  }

  lemma {:induction false} SuccessorClosed(days: set<int>, d: int, n: nat)
    requires d in days && 0 <= d < 7
    requires forall x {:trigger NextDayMasked(days, x)} :: x in days ==> NextDayMasked(days, x)
    ensures (d + n) % 7 in days
  {
    if n > 0 {
      SuccessorClosed(days, d, n - 1);
      assert NextDayMasked(days, (d + (n - 1)) % 7);
      NextModSeven(d + (n - 1));
    }
  }

  lemma {:induction false} ReachDay(days: set<int>, d: int, k: int)
    requires d in days && 0 <= d < 7 && 0 <= k < 7
    requires forall x {:trigger NextDayMasked(days, x)} :: x in days ==> NextDayMasked(days, x)
    ensures k in days
  {
    var n := if d <= k then k - d else k - d + 7;
    SuccessorClosed(days, d, n);
    assert (d + n) % 7 == k;
  }

  /** A wrapping window escapes the warning only with all seven days masked. */
  lemma {:induction false} NoWarningIffEveryDay(w: Window)
    requires WellFormed(w) && Wraps(w)
    ensures WarnedDays(w) == {} <==> forall d :: 0 <= d < 7 ==> d in w.days
  {
    if WarnedDays(w) == {} {
      var d :| d in w.days;
      forall x | x in w.days ensures NextDayMasked(w.days, x) {
        assert x !in WarnedDays(w);
      }
      forall k | 0 <= k < 7 ensures k in w.days { ReachDay(w.days, d, k); }
    }
  }

  /** The night that starts on a masked day is blocked through to its end exactly when that
      day draws no warning or nothing of the night lies after midnight. */
  lemma {:induction false} NightIsCoveredIffNotWarned(w: Window, day: int)
    requires WellFormed(w) && Wraps(w) && Weekday(day) in w.days
    ensures Weekday(day) !in WarnedDays(w) || w.span.value.1 == 0
       <==> forall m :: day * MINUTES_PER_DAY + w.span.value.0 <= m < (day + 1) * MINUTES_PER_DAY + w.span.value.1
              ==> MinuteMatches(w, m)
  {
    var start, end := w.span.value.0, w.span.value.1;
    var midnight := (day + 1) * MINUTES_PER_DAY;
    assert Weekday(day + 1) == (Weekday(day) + 1) % 7;
    MinuteOfDay(day + 1, 0);
    if Weekday(day) !in WarnedDays(w) || end == 0 {
      forall m | day * MINUTES_PER_DAY + start <= m < midnight + end ensures MinuteMatches(w, m) {
        if m < midnight { MinuteOfDay(day, m - day * MINUTES_PER_DAY); } else { MinuteOfDay(day + 1, m - midnight); }
      }
    } else {
      assert !MinuteMatches(w, midnight);
    }
  }

  // ---------------------------------------------------------------------------
  // Compilation
  // ---------------------------------------------------------------------------

  /** A window of the configuration. */
  datatype BlockWindow = BlockWindow(days: seq<string>, start: Option<string>, end: Option<string>, offset: int)

  datatype ScheduleError = BadDay | BadTime | EqualTimes | HalfOpen | BadOffset

  /** A weekday name, short or long, in any letter case. */
  function DayNumber(text: string): (out: Option<int>)
    ensures out.Some? ==> 0 <= out.value < 7
  {
    DayOf(Lower(Trim(text)))
  }

  function DayOf(d: string): (out: Option<int>)
    ensures out.Some? ==> 0 <= out.value < 7
  {
    if d == "mon" || d == "monday" then Some(0)
    else if d == "tue" || d == "tuesday" then Some(1)
    else if d == "wed" || d == "wednesday" then Some(2)
    else if d == "thu" || d == "thursday" then Some(3)
    else if d == "fri" || d == "friday" then Some(4)
    else if d == "sat" || d == "saturday" then Some(5)
    else if d == "sun" || d == "sunday" then Some(6)
    else None
  }

  const SHORT_DAYS: seq<string> := ["mon", "tue", "wed", "thu", "fri", "sat", "sun"]
  const LONG_DAYS: seq<string> := ["monday", "tuesday", "wednesday", "thursday", "friday", "saturday", "sunday"]

  /** `text` names weekday `k` (Monday is 0), short or long, in any letter case and with any white
      space around it. */
  ghost predicate NamesDay(text: string, k: int) {
    && 0 <= k < 7
    && exists core, lead, trail ::
         IsCore(text, core, lead, trail) && (SameLetters(core, SHORT_DAYS[k]) || SameLetters(core, LONG_DAYS[k]))
  }

  lemma {:induction false} DayTexts(k: int)
    requires 0 <= k < 7
    ensures !HasUpper(SHORT_DAYS[k]) && !HasUpper(LONG_DAYS[k])
  {
  }

  lemma {:induction false} SpeltIff(core: string, word: string)
    requires !HasUpper(word)
    ensures SameLetters(core, word) <==> Lower(core) == word
  {
    SameLettersIff(core, word);
    LowerKeeps(word);
  }

  lemma {:induction false} NamesDayIff(text: string, k: int)
    ensures NamesDay(text, k) <==> 0 <= k < 7 && (Lower(Trim(text)) == SHORT_DAYS[k] || Lower(Trim(text)) == LONG_DAYS[k])
  {
    if 0 <= k < 7 {
      DayTexts(k);
      SpeltIff(Trim(text), SHORT_DAYS[k]);
      SpeltIff(Trim(text), LONG_DAYS[k]);
      TrimIsCore(text);
      forall core, lead, trail | IsCore(text, core, lead, trail) ensures core == Trim(text) { CoreIsTrim(text, core, lead, trail); }
    }
  }

  lemma {:induction false} DayOfIff(d: string, k: int)
    requires 0 <= k < 7
    ensures DayOf(d) == Some(k) <==> d == SHORT_DAYS[k] || d == LONG_DAYS[k]
  {
  }

  /** A text is read as a weekday exactly when it names it. */
  lemma {:induction false} DayNumberIff(text: string, k: int)
    ensures DayNumber(text) == Some(k) <==> NamesDay(text, k)
  {
    NamesDayIff(text, k);
    if 0 <= k < 7 { DayOfIff(Lower(Trim(text)), k); }
  }

  type DayReader = string -> Option<int>

  const ALL_DAYS: set<int> := {0, 1, 2, 3, 4, 5, 6}

  predicate KnownDays(day: DayReader, names: seq<string>) {
    forall i :: 0 <= i < |names| ==> day(names[i]).Some?
  }

  /** The weekdays a list of names stands for; the empty list stands for all. */
  function MaskOf(day: DayReader, names: seq<string>): set<int>
    requires KnownDays(day, names)
  {
    if names == [] then ALL_DAYS else set i | 0 <= i < |names| :: day(names[i]).value
  }

  /** `parse_days`. */
  method ParseDays(day: DayReader, names: seq<string>) returns (out: Option<set<int>>)
    requires forall s :: day(s).Some? ==> 0 <= day(s).value < 7
    ensures out.Some? <==> KnownDays(day, names)
    ensures out.Some? ==> out.value == MaskOf(day, names) && out.value != {} && forall d :: d in out.value ==> 0 <= d < 7
  {
    if names == [] { return Some(ALL_DAYS); }
    var mask: set<int> := {};
    for n := 0 to |names|
      invariant forall i :: 0 <= i < n ==> day(names[i]).Some?
      invariant mask == set i | 0 <= i < n :: day(names[i]).value
    {
      var d := day(names[n]);
      if d.None? { return None; }
      mask := mask + {d.value};
    }
    assert day(names[0]).value in mask;
    return Some(mask);
  }

  /** `parse_hhmm`: minutes since midnight. */
  function ParseTime(text: string): (out: Option<int>)
    ensures out.Some? ==> 0 <= out.value < MINUTES_PER_DAY
  {
    ReadClock(Trim(text))
  }

  function ReadClock(t: string): (out: Option<int>)
    ensures out.Some? ==> 0 <= out.value < MINUTES_PER_DAY
  {
    var colon := FirstIndex(t, ':');
    if colon == |t| then None
    else
      var h, m := ParseUnsigned(t[..colon], 65535), ParseUnsigned(t[colon + 1..], 65535);
      if h.None? || m.None? || h.value > 23 || m.value > 59 then None else Some(h.value * 60 + m.value)
  }

  predicate IsNumber(s: string) { s != [] && DigitsValue(s).Some? }

  lemma {:induction false} ClockIsRead(hours: string, minutes: string)
    requires IsNumber(hours) && IsNumber(minutes) && Free(hours, ':') && hours[0] != '+' && minutes[0] != '+'
    ensures var h, m := DigitsValue(hours).value, DigitsValue(minutes).value;
            ReadClock(hours + ":" + minutes) == if h <= 23 && m <= 59 then Some(60 * h + m) else None
  {
    var t := hours + ":" + minutes;
    FirstIndexUnique(t, ':', |hours|);
    assert t[..|hours|] == hours && t[|hours| + 1..] == minutes;
  }

  /** A time in digits is read as its minute of the day, and refused exactly when it is not a
      time of day. */
  lemma {:induction false} TimeIsRead(hours: string, minutes: string)
    requires IsNumber(hours) && IsNumber(minutes)
    ensures var h, m := DigitsValue(hours).value, DigitsValue(minutes).value;
            ParseTime(hours + ":" + minutes) == if h <= 23 && m <= 59 then Some(60 * h + m) else None
  {
    DigitsAreDigits(hours);
    DigitsAreDigits(minutes);
    ClockIsRead(hours, minutes);
    var t := hours + ":" + minutes;
    assert IsDigit(hours[0]) && IsDigit(minutes[|minutes| - 1]);
    assert t[0] == hours[0] && t[|t| - 1] == minutes[|minutes| - 1];
    TrimOfTrimmed(t);
  }

  /** The end of a window may also be the sentinel 24:00. */
  function ParseEnd(text: string): (out: Option<int>)
    ensures out.Some? ==> 0 <= out.value <= MINUTES_PER_DAY
  {
    if Trim(text) == "24:00" then Some(MINUTES_PER_DAY) else ParseTime(text)
  }

  function CompileSpan(start: Option<string>, end: Option<string>): (out: Result<Option<(int, int)>, ScheduleError>)
    ensures out.Ok? && out.value.Some? ==> ValidSpan(out.value.value)
  {
    if start.None? && end.None? then Ok(None)
    else if start.None? || end.None? then Err(HalfOpen)
    else
      var s, e := ParseTime(start.value), ParseEnd(end.value);
      if s.None? || e.None? then Err(BadTime)
      else if s.value == e.value then Err(EqualTimes)
      else Ok(Some((s.value, e.value)))
  }

  /** The minute that digits spell, if they spell a time of day. */
  function ClockOf(hours: string, minutes: string): Option<int>
    requires IsNumber(hours) && IsNumber(minutes)
  {
    var h, m := DigitsValue(hours).value, DigitsValue(minutes).value;
    if h <= 23 && m <= 59 then Some(60 * h + m) else None
  }

  lemma {:induction false} EndIsRead(hours: string, minutes: string)
    requires IsNumber(hours) && IsNumber(minutes)
    ensures ParseEnd(hours + ":" + minutes)
         == if hours == "24" && minutes == "00" then Some(MINUTES_PER_DAY) else ClockOf(hours, minutes)
  {
    TimeIsRead(hours, minutes);
    DigitsAreDigits(hours);
    DigitsAreDigits(minutes);
    ClockIsTrimmed(hours, minutes);
    SentinelText(hours, minutes);
  }

  lemma {:induction false} ClockIsTrimmed(hours: string, minutes: string)
    requires hours != [] && minutes != [] && IsDigit(hours[0]) && IsDigit(minutes[|minutes| - 1])
    ensures Trim(hours + ":" + minutes) == hours + ":" + minutes
  {
    var t := hours + ":" + minutes;
    assert t[0] == hours[0] && t[|t| - 1] == minutes[|minutes| - 1];
    TrimOfTrimmed(t);
  }

  lemma {:induction false} SentinelText(hours: string, minutes: string)
    requires forall i :: 0 <= i < |hours| ==> IsDigit(hours[i])
    ensures hours + ":" + minutes == "24:00" <==> hours == "24" && minutes == "00"
  {
    var t := hours + ":" + minutes;
    if t == "24:00" {
      FirstIndexUnique(t, ':', |hours|);
      FirstIndexUnique(t, ':', 2);
      assert t[..2] == hours && t[3..] == minutes;
    }
  }

  /** A pair of times is read as those minutes, with 24:00 as an end only; it is refused
      exactly when one is no time of day or both are the same. */
  lemma {:induction false} SpanIsRead(h1: string, m1: string, h2: string, m2: string)
    requires IsNumber(h1) && IsNumber(m1) && IsNumber(h2) && IsNumber(m2)
    ensures var start := ClockOf(h1, m1);
            var end := if h2 == "24" && m2 == "00" then Some(MINUTES_PER_DAY) else ClockOf(h2, m2);
            CompileSpan(Some(h1 + ":" + m1), Some(h2 + ":" + m2))
            == if start.None? || end.None? then Err(BadTime)
               else if start == end then Err(EqualTimes) else Ok(Some((start.value, end.value)))
  {
    TimeIsRead(h1, m1);
    EndIsRead(h2, m2);
  }

  type SpanReader = (Option<string>, Option<string>) -> Result<Option<(int, int)>, ScheduleError>

  predicate Accepts(day: DayReader, span: SpanReader, w: BlockWindow) {
    KnownDays(day, w.days) && span(w.start, w.end).Ok? && -1440 <= w.offset <= 1440
  }

  function Compiled(day: DayReader, span: SpanReader, w: BlockWindow): Window
    requires Accepts(day, span, w)
  {
    Window(MaskOf(day, w.days), span(w.start, w.end).value, w.offset)
  }

  /** `compile`: it succeeds exactly when every window is acceptable; the compiled windows are
      in order and well formed. */
  method Compile(day: DayReader, span: SpanReader, windows: seq<BlockWindow>) returns (out: Result<seq<Window>, ScheduleError>)
    requires forall s :: day(s).Some? ==> 0 <= day(s).value < 7
    requires forall s, e :: span(s, e).Ok? && span(s, e).value.Some? ==> ValidSpan(span(s, e).value.value)
    ensures out.Ok? <==> forall i :: 0 <= i < |windows| ==> Accepts(day, span, windows[i])
    ensures out.Ok? ==> |out.value| == |windows| && forall i :: 0 <= i < |windows| ==>
                          WellFormed(out.value[i]) && out.value[i] == Compiled(day, span, windows[i])
  {
    var compiled: seq<Window> := [];
    for n := 0 to |windows|
      invariant |compiled| == n
      invariant forall i :: 0 <= i < n ==>
        Accepts(day, span, windows[i]) && WellFormed(compiled[i]) && compiled[i] == Compiled(day, span, windows[i])
    {
      var w := windows[n];
      var days := ParseDays(day, w.days);
      if days.None? { return Err(BadDay); }
      var s := span(w.start, w.end);
      if s.Err? { return Err(s.error); }
      if w.offset < -1440 || w.offset > 1440 { return Err(BadOffset); }
      compiled := compiled + [Window(days.value, s.value, w.offset)];
    }
    return Ok(compiled);
  }

  predicate IsBlockedAt(windows: seq<Window>, unixSecs: int) {
    exists i :: 0 <= i < |windows| && WindowMatches(windows[i], unixSecs)
  }

  /** An untrusted clock keeps every configured restriction on. */
  predicate IsBlockedConservatively(windows: seq<Window>, unixSecs: int) {
    if unixSecs < MIN_TRUSTED_UNIX_SECS then windows != [] else IsBlockedAt(windows, unixSecs)
  }

  const DAY_READER: DayReader := text => DayNumber(text)
  const SPAN_READER: SpanReader := (start, end) => CompileSpan(start, end)

  /** A configured window that compiles: known days, a readable span, an offset of at most a day. */
  predicate Acceptable(w: BlockWindow) {
    && (forall i :: 0 <= i < |w.days| ==> DayNumber(w.days[i]).Some?)
    && CompileSpan(w.start, w.end).Ok? && -1440 <= w.offset <= 1440
  }

  lemma {:induction false} AcceptableIsAccepted(w: BlockWindow)
    ensures Acceptable(w) <==> Accepts(DAY_READER, SPAN_READER, w)
  {
    assert forall i :: 0 <= i < |w.days| ==> DAY_READER(w.days[i]) == DayNumber(w.days[i]);
  }

  /** The schedule of a configuration: it compiles exactly when every window is acceptable, and
      then each compiled window blocks, in any 10080 consecutive minutes, its named days times
      its minutes per day. */
  method CompileSchedule(windows: seq<BlockWindow>) returns (out: Result<seq<Window>, ScheduleError>)
    ensures out.Ok? <==> forall i :: 0 <= i < |windows| ==> Acceptable(windows[i])
    ensures out.Ok? ==> |out.value| == |windows| && forall i :: 0 <= i < |windows| ==>
                          && Accepts(DAY_READER, SPAN_READER, windows[i])
                          && out.value[i] == Compiled(DAY_READER, SPAN_READER, windows[i])
    ensures out.Ok? ==> forall i, from {:trigger Count(out.value[i], from, 10080)} :: 0 <= i < |windows| ==>
                          Count(out.value[i], from, 10080) == |out.value[i].days| * PerDay(out.value[i].span)
  {
    forall w ensures Acceptable(w) <==> Accepts(DAY_READER, SPAN_READER, w) { AcceptableIsAccepted(w); }
    out := Compile(DAY_READER, SPAN_READER, windows);
    if out.Ok? {
      forall i, from | 0 <= i < |windows|
        ensures Count(out.value[i], from, 10080) == |out.value[i].days| * PerDay(out.value[i].span)
      {
        WeeklyBlockedMinutes(out.value[i], from);
      }
    }
  }

  /** Some name of the list names weekday `k`; the empty list names all of them. */
  ghost predicate DayListed(names: seq<string>, k: int) {
    names == [] || exists i :: 0 <= i < |names| && NamesDay(names[i], k)
  }

  lemma {:induction false} MaskIff(names: seq<string>, k: int)
    requires KnownDays(DAY_READER, names) && 0 <= k < 7
    ensures k in MaskOf(DAY_READER, names) <==> DayListed(names, k)
  {
    forall i | 0 <= i < |names| ensures DAY_READER(names[i]).value == k <==> NamesDay(names[i], k) {
      DayNumberIff(names[i], k);
      assert DAY_READER(names[i]) == DayNumber(names[i]);
    }
  }

  /** From the text of a window to its verdict: with both times written in digits, it blocks
      exactly on the listed weekdays, between its times of day, at the given offset from UTC. */
  lemma {:induction false} ConfiguredWindowBlocksIff(w: BlockWindow, h1: string, m1: string, h2: string, m2: string,
                                                     unixSecs: int, d: int, t: int, s: int, k: int, week: int)
    requires Accepts(DAY_READER, SPAN_READER, w) && LocalTime(unixSecs, w.offset, d, t, s, k, week)
    requires IsNumber(h1) && IsNumber(m1) && IsNumber(h2) && IsNumber(m2)
    requires w.start == Some(h1 + ":" + m1) && w.end == Some(h2 + ":" + m2)
    ensures var start := 60 * DigitsValue(h1).value + DigitsValue(m1).value;
            var end := 60 * DigitsValue(h2).value + DigitsValue(m2).value;
            WindowMatches(Compiled(DAY_READER, SPAN_READER, w), unixSecs) <==>
              && DayListed(w.days, k)
              && if start < end then start <= t < end else t < end || start <= t
  {
    SpanIsRead(h1, m1, h2, m2);
    MidnightIs24();
    MaskIff(w.days, k);
    WindowBlocksIff(Compiled(DAY_READER, SPAN_READER, w), unixSecs, d, t, s, k, week);
  }

  lemma {:induction false} MidnightIs24()
    ensures DigitsValue("24") == Some(24) && DigitsValue("00") == Some(0)
  {
    assert "24"[..1] == "2" && "2"[..0] == "" && "00"[..1] == "0" && "0"[..0] == "";
    assert DigitsValue("2") == Some(2) && DigitsValue("0") == Some(0);
  }

  /** Without times it blocks the listed weekdays whole. */
  lemma {:induction false} WholeDayWindowBlocksIff(w: BlockWindow, unixSecs: int, d: int, t: int, s: int, k: int, week: int)
    requires Accepts(DAY_READER, SPAN_READER, w) && LocalTime(unixSecs, w.offset, d, t, s, k, week)
    requires w.start.None? && w.end.None?
    ensures WindowMatches(Compiled(DAY_READER, SPAN_READER, w), unixSecs) <==> DayListed(w.days, k)
  {
    MaskIff(w.days, k);
    WindowBlocksIff(Compiled(DAY_READER, SPAN_READER, w), unixSecs, d, t, s, k, week);
  }

  /** Conservative evaluation blocks a client with windows before 2020-01-01, day 18262, and
      otherwise exactly like the plain one. */
  lemma {:induction false} ConservativeIsStricter(windows: seq<Window>, unixSecs: int)
    ensures IsBlockedConservatively(windows, unixSecs) <==>
              windows != [] && (unixSecs < 18262 * 86_400 || exists w :: w in windows && WindowMatches(w, unixSecs))
    ensures IsBlockedAt(windows, unixSecs) ==> IsBlockedConservatively(windows, unixSecs)
  {
    if w :| w in windows && WindowMatches(w, unixSecs) {
      var i :| 0 <= i < |windows| && windows[i] == w;
    }
  }
}
