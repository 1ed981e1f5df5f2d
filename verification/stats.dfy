/** The pure parts of the statistics controller: the contribution level of a
    day, the period lengths, the per-state task counts, the contribution
    calendar and the completion streak. Days are integer day numbers
    (today is an input); the SQL that gathers the counts is left out. */
module Stats {
  import opened Wrappers
  import Js
  import Text

  type Day = int

  function Max(a: int, b: int): int {
    if a >= b then a else b
  }

  // ---------------------------------------------------------------------
  // obtenerNivelContribucion

  /** The level a day's completed-task count is drawn at: 0 for none, then
      bands 1-2, 3-4, 5-6 and 7 or more. */
  function Level(count: nat): (l: nat)
    ensures l <= 4
    ensures l == 0 <==> count == 0
    ensures count >= 7 ==> l == 4
  {
    if count == 0 then 0
    else if count <= 2 then 1
    else if count <= 4 then 2
    else if count <= 6 then 3
    else 4
  }

  /** More completions never draw a lighter level, and each step of the
      count moves the level by at most one. */
  lemma LevelMonotone(a: nat, b: nat)
    requires a <= b
    ensures Level(a) <= Level(b)
    ensures b == a + 1 ==> Level(b) <= Level(a) + 1
  {
  }

  // ---------------------------------------------------------------------
  // obtenerProductividad

  /** How many days back a productivity period reaches. */
  function PeriodDays(period: string): (d: nat)
    ensures d == 7 || d == 28 || d == 180
    ensures period == "diaria" ==> d == 7
    ensures period == "mensual" ==> d == 180
  {
    if period == "diaria" then 7
    else if period == "semanal" then 28
    else if period == "mensual" then 180
    else 28
  }

  /** An unknown period is read as the weekly one. */
  lemma UnknownPeriodIsWeekly(period: string)
    requires period != "diaria" && period != "semanal" && period != "mensual"
    ensures PeriodDays(period) == PeriodDays("semanal") == 28
  {
  }

  // ---------------------------------------------------------------------
  // porEstado in obtenerEstadisticasGenerales

  /** The counts per state: P, N and C start at 0 and each grouped row
      (state, count) overwrites its state's entry. */
  function ByState(rows: seq<(string, nat)>): (r: map<string, nat>)
    ensures "P" in r && "N" in r && "C" in r
    ensures forall k :: k in r ==> k == "P" || k == "N" || k == "C" || exists i :: 0 <= i < |rows| && rows[i].0 == k
  {
    if rows == [] then map["P" := 0, "N" := 0, "C" := 0]
    else
      var last := rows[|rows| - 1];
      ByState(rows[..|rows| - 1])[last.0 := last.1]
  }

  /** A state no row mentions keeps its 0; otherwise the last row for the
      state gives its count. */
  lemma {:induction false} ByStateCounts(rows: seq<(string, nat)>, k: string)
    ensures (k == "P" || k == "N" || k == "C") && (forall i :: 0 <= i < |rows| ==> rows[i].0 != k)
      ==> ByState(rows)[k] == 0
    ensures forall i :: (0 <= i < |rows| && rows[i].0 == k && (forall j :: i < j < |rows| ==> rows[j].0 != k)
      ==> k in ByState(rows) && ByState(rows)[k] == rows[i].1)
  {
    if (k == "P" || k == "N" || k == "C") && (forall i :: 0 <= i < |rows| ==> rows[i].0 != k) {
      UnmentionedStateIsZero(rows, k);
    }
    forall i | 0 <= i < |rows| && rows[i].0 == k && (forall j :: i < j < |rows| ==> rows[j].0 != k)
      ensures k in ByState(rows) && ByState(rows)[k] == rows[i].1
    {
      LastRowCounts(rows, k, i);
    }
  }

  lemma {:induction false} UnmentionedStateIsZero(rows: seq<(string, nat)>, k: string)
    requires k == "P" || k == "N" || k == "C"
    requires forall i :: 0 <= i < |rows| ==> rows[i].0 != k
    ensures ByState(rows)[k] == 0
    decreases |rows|
  {
    if rows != [] {
      UnmentionedStateIsZero(rows[..|rows| - 1], k);
    }
  }

  lemma {:induction false} LastRowCounts(rows: seq<(string, nat)>, k: string, i: int)
    requires 0 <= i < |rows| && rows[i].0 == k
    requires forall j :: i < j < |rows| ==> rows[j].0 != k
    ensures k in ByState(rows) && ByState(rows)[k] == rows[i].1
    decreases |rows|
  {
    if i < |rows| - 1 {
      var p := rows[..|rows| - 1];
      assert p[i] == rows[i];
      LastRowCounts(p, k, i);
    }
  }

  // ---------------------------------------------------------------------
  // obtenerCalendarioContribuciones

  /** `parseInt(req.query.dias)`: None stands for NaN, which is also what
      a missing parameter gives. */
  function DiasParam(query: Option<string>): (r: Option<int>)
    ensures query.None? ==> r.None?
  {
    if query.None? then None else Js.ParseInt(query.value)
  }

  /** `parseInt(req.query.dias) || 365`: NaN and 0 fall back to a year. */
  function CalendarLength(dias: Option<int>): (n: int)
    ensures n != 0
    ensures dias.None? || dias == Some(0) ==> n == 365
    ensures dias.Some? && dias.value != 0 ==> n == dias.value
  {
    if dias.None? || dias.value == 0 then 365 else dias.value
  }

  datatype Contribution = Contribution(day: Day, count: nat, level: nat)

  /** A day's entry: its count, or 0 without a grouped row, and level. */
  function Entry(d: Day, counts: map<Day, nat>): Contribution {
    var c := if d in counts then counts[d] else 0;
    Contribution(d, c, Level(c))
  }

  /** One entry per day, oldest first, ending today; a day without a
      grouped row counts 0. */
  function Calendar(dias: Option<int>, today: Day, counts: map<Day, nat>): (r: seq<Contribution>)
    ensures |r| == Max(CalendarLength(dias), 0)
  {
    Window(CalendarLength(dias), today, counts)
  }

  /** The `n` days ending today, as entries. */
  function Window(n: int, today: Day, counts: map<Day, nat>): (r: seq<Contribution>)
    ensures |r| == Max(n, 0)
  {
    if n <= 0 then []
    else seq(n, k requires 0 <= k < n => Entry(today - (n - 1) + k, counts))
  }

  /** The calendar covers consecutive days ending today, each with the
      count of its row (or 0) drawn at that count's level. */
  lemma CalendarShape(dias: Option<int>, today: Day, counts: map<Day, nat>)
    ensures var r := Calendar(dias, today, counts);
      && (r != [] ==> r[|r| - 1].day == today)
      && (forall k :: 0 <= k < |r| ==>
            && r[k].day == today - (|r| - 1) + k
            && r[k].count == (if r[k].day in counts then counts[r[k].day] else 0)
            && r[k].level == Level(r[k].count))
  {
    WindowShape(CalendarLength(dias), today, counts);
  }

  lemma WindowShape(n: int, today: Day, counts: map<Day, nat>)
    ensures var r := Window(n, today, counts);
      forall k :: 0 <= k < |r| ==> r[k] == Entry(today - (|r| - 1) + k, counts)
  {
  }

  /** Every counted day inside the window appears with its count. */
  lemma CalendarCountsDay(dias: Option<int>, today: Day, counts: map<Day, nat>, d: Day)
    requires d in counts && today - |Calendar(dias, today, counts)| < d <= today
    ensures var r := Calendar(dias, today, counts);
      r[d - today + |r| - 1].day == d && r[d - today + |r| - 1].count == counts[d]
  {
    CalendarShape(dias, today, counts);
  }

  /** Without a usable `dias` the calendar spans 365 days. */
  lemma CalendarDefault(today: Day, counts: map<Day, nat>)
    ensures |Calendar(None, today, counts)| == 365
    ensures |Calendar(DiasParam(Some("dias")), today, counts)| == 365
  {
    assert Js.ParseInt("dias") == None by {
      assert Text.TrimStart("dias") == "dias";
      assert Js.DigitRun("dias", 10) == 0;
    }
  }

  // ---------------------------------------------------------------------
  // calcularRacha, as written

  /** The two numbers the streak computation reports. */
  datatype Streak = Streak(current: int, longest: int)

  /** The loop state: rachaActual, rachaMaxima, rachaTemp, fechaEsperada. */
  datatype Scan = Scan(current: int, longest: int, run: int, expected: Day)

  /** One iteration over a completion day. */
  function ScanStep(a: Scan, d: Day): Scan {
    var diff := a.expected - d;
    if diff == 0 || diff == 1 then
      var run := a.run + 1;
      Scan(if a.current == 0 || diff == 0 then run else a.current, Max(a.longest, run), run, d)
    else Scan(a.current, a.longest, 1, d)
  }

  function ScanDays(days: seq<Day>, a: Scan): Scan
    decreases |days|
  {
    if days == [] then a else ScanDays(days[1..], ScanStep(a, days[0]))
  }

  /** calcularRacha over the distinct completion days, newest first. */
  function StreakAsWritten(days: seq<Day>, today: Day): (r: Streak)
    ensures 0 <= r.current <= r.longest <= |days|
    ensures days == [] ==> r == Streak(0, 0)
    ensures days != [] && today - days[0] > 1 ==> r.current == 0
  {
    if days == [] then Streak(0, 0)
    else
      var s := ScanDays(days, Scan(0, 0, 0, today));
      ScanBounds(days, Scan(0, 0, 0, today), 0);
      Streak(if today - days[0] > 1 then 0 else s.current, s.longest)
  }

  /** The loop keeps rachaActual <= rachaMaxima and grows both by at most
      one per day. */
  lemma {:induction false} ScanBounds(days: seq<Day>, a: Scan, k: nat)
    requires 0 <= a.current <= a.longest <= k && 0 <= a.run <= k
    ensures var s := ScanDays(days, a); 0 <= s.current <= s.longest <= k + |days|
    decreases |days|
  {
    if days != [] {
      ScanBounds(days[1..], ScanStep(a, days[0]), k + 1);
    }
  }

  /** As written, 0 <= rachaActual <= rachaMaxima <= the number of days;
      no days give (0, 0), and a last completion before yesterday gives a
      current streak of 0. */
  lemma StreakAsWrittenBounds(days: seq<Day>, today: Day)
    ensures var r := StreakAsWritten(days, today); 0 <= r.current <= r.longest <= |days|
    ensures days == [] ==> StreakAsWritten(days, today) == Streak(0, 0)
    ensures days != [] && today - days[0] > 1 ==> StreakAsWritten(days, today).current == 0
  {
    if days != [] {
      ScanBounds(days, Scan(0, 0, 0, today), 0);
    }
  }

  predicate StrictlyDescending(days: seq<Day>) {
    forall i :: 0 < i < |days| ==> days[i] < days[i - 1]
  }

  /** Once rachaActual is set it never changes on distinct days. */
  lemma {:induction false} ScanKeepsCurrent(days: seq<Day>, a: Scan)
    requires a.current != 0
    requires StrictlyDescending(days)
    requires days != [] ==> days[0] < a.expected
    ensures ScanDays(days, a).current == a.current
    decreases |days|
  {
    if days != [] {
      ScanKeepsCurrent(days[1..], ScanStep(a, days[0]));
    }
  }

  /** As written the current streak never exceeds 1 for distinct days up
      to today: the run is copied into rachaActual only while it is 0 or
      at today's own date. */
  lemma StreakAsWrittenCurrentAtMostOne(days: seq<Day>, today: Day)
    requires StrictlyDescending(days)
    requires days != [] ==> days[0] <= today
    ensures StreakAsWritten(days, today).current <= 1
  {
    if days != [] && today - days[0] <= 1 {
      var a := ScanStep(Scan(0, 0, 0, today), days[0]);
      assert a.current == 1;
      ScanKeepsCurrent(days[1..], a);
    }
  }

  /** Completions today and yesterday: the code reports a current streak of
      1 where two consecutive days were meant; a lone completion a week ago
      gives a longest streak of 0. */
  lemma StreakAsWrittenExamples(today: Day)
    ensures StreakAsWritten([today, today - 1], today) == Streak(1, 2)
    ensures StreakAsWritten([today - 7], today) == Streak(0, 0)
  {
    var a := ScanStep(Scan(0, 0, 0, today), today);
    assert a == Scan(1, 1, 1, today);
    assert [today, today - 1][1..] == [today - 1];
    assert ScanDays([today - 1], a) == ScanStep(a, today - 1) == Scan(1, 2, 2, today - 1);
    assert ScanDays([today - 7], Scan(0, 0, 0, today)) == Scan(0, 0, 1, today - 7);
  }

  // ---------------------------------------------------------------------
  // The streak as intended

  /** `b` is the day before `a`. */
  predicate Next(a: Day, b: Day) {
    b == a - 1
  }

  /** Newest first, each day the day before the previous one. */
  predicate Consecutive(s: seq<Day>) {
    forall j :: 0 <= j < |s| - 1 ==> Next(s[j], s[j + 1])
  }

  /** The length of the run of consecutive days that ends the sequence. */
  function TailRun(s: seq<Day>): (n: nat)
    ensures s == [] <==> n == 0
    ensures n <= |s|
    decreases |s|
  {
    if s == [] then 0
    else if |s| >= 2 && Next(s[|s| - 2], s[|s| - 1]) then TailRun(s[..|s| - 1]) + 1
    else 1
  }

  /** The longest run of consecutive days anywhere in the sequence. */
  function LongestRun(s: seq<Day>): (n: nat)
    ensures TailRun(s) <= n <= |s|
    decreases |s|
  {
    if s == [] then 0 else Max(LongestRun(s[..|s| - 1]), TailRun(s))
  }

  /** The length of the run of consecutive days that starts the sequence. */
  function HeadRun(s: seq<Day>): (n: nat)
    ensures n <= LongestRun(s)
    ensures s != [] ==> n >= 1
    decreases |s|
  {
    if s == [] then 0
    else if TailRun(s) == |s| then |s|
    else HeadRun(s[..|s| - 1])
  }

  /** The intended result: the run starting at the newest day when that day
      is today or yesterday, and the longest run. */
  function IntendedStreak(days: seq<Day>, today: Day): (r: Streak)
    ensures 0 <= r.current <= r.longest <= |days|
    ensures days != [] ==> r.longest >= 1
    ensures days == [] ==> r == Streak(0, 0)
  {
    var current := if days != [] && 0 <= today - days[0] <= 1 then HeadRun(days) else 0;
    Streak(current, LongestRun(days))
  }

  /** The examples above, as intended. */
  lemma StreakExamples(today: Day)
    ensures IntendedStreak([today, today - 1], today) == Streak(2, 2)
    ensures IntendedStreak([today - 7], today) == Streak(0, 1)
  {
    assert [today, today - 1][..1] == [today];
  }

  /** The `n` days from position `i` are consecutive. */
  predicate RunAt(s: seq<Day>, i: int, n: nat) {
    0 <= i && i + n <= |s| && Consecutive(s[i..i + n])
  }

  /** TailRun is the maximal consecutive suffix. */
  lemma {:induction false} TailRunMeaning(s: seq<Day>)
    requires s != []
    ensures Consecutive(s[|s| - TailRun(s)..])
    ensures TailRun(s) < |s| ==> !Next(s[|s| - TailRun(s) - 1], s[|s| - TailRun(s)])
    decreases |s|
  {
    if |s| >= 2 && Next(s[|s| - 2], s[|s| - 1]) {
      var p := s[..|s| - 1];
      TailRunMeaning(p);
      var t := TailRun(p);
      assert s[|s| - TailRun(s)..] == p[|p| - t..] + [s[|s| - 1]];
    }
  }

  /** Every consecutive suffix is no longer than TailRun. */
  lemma {:induction false} ConsecutiveSuffix(s: seq<Day>, i: nat)
    requires i <= |s|
    requires Consecutive(s[i..])
    ensures |s| - i <= TailRun(s)
    decreases |s|
  {
    if i + 2 <= |s| {
      assert s[i..][|s| - 2 - i] == s[|s| - 2];
      var p := s[..|s| - 1];
      assert p[i..] == s[i..][..|s| - 1 - i];
      ConsecutiveSuffix(p, i);
    }
  }

  /** A longer prefix never has a shorter longest run. */
  lemma {:induction false} LongestRunPrefix(s: seq<Day>, k: nat)
    requires k <= |s|
    ensures LongestRun(s[..k]) <= LongestRun(s)
    decreases |s|
  {
    if k < |s| {
      var p := s[..|s| - 1];
      assert s[..k] == p[..k];
      LongestRunPrefix(p, k);
    } else {
      assert s[..k] == s;
    }
  }

  /** LongestRun bounds every consecutive stretch and is reached by one. */
  lemma LongestRunMeaning(s: seq<Day>)
    ensures forall i, j :: 0 <= i <= j <= |s| && Consecutive(s[i..j]) ==> j - i <= LongestRun(s)
    ensures exists i :: RunAt(s, i, LongestRun(s))
  {
    forall i, j | 0 <= i <= j <= |s| && Consecutive(s[i..j])
      ensures j - i <= LongestRun(s)
    {
      LongestRunBounds(s, i, j);
    }
    var i := LongestRunReached(s);
  }

  /** A consecutive stretch is no longer than LongestRun. */
  lemma LongestRunBounds(s: seq<Day>, i: nat, j: nat)
    requires i <= j <= |s| && Consecutive(s[i..j])
    ensures j - i <= LongestRun(s)
  {
    var q := s[..j];
    assert q[i..] == s[i..j];
    ConsecutiveSuffix(q, i);
    LongestRunPrefix(s, j);
  }

  /** Where a stretch of LongestRun consecutive days starts. */
  lemma {:induction false} LongestRunReached(s: seq<Day>) returns (i: nat)
    ensures RunAt(s, i, LongestRun(s))
    decreases |s|
  {
    if s == [] {
      i := 0;
      assert RunAt(s, 0, 0);
    } else if LongestRun(s) == TailRun(s) {
      i := |s| - TailRun(s);
      TailRunAt(s);
    } else {
      i := LongestRunReached(s[..|s| - 1]);
      RunExtends(s, i, LongestRun(s));
    }
  }

  /** The tail run is a run. */
  lemma TailRunAt(s: seq<Day>)
    requires s != []
    ensures RunAt(s, |s| - TailRun(s), TailRun(s))
  {
    TailRunMeaning(s);
    SuffixRun(s, |s| - TailRun(s));
  }

  /** A consecutive suffix is a run. */
  lemma SuffixRun(s: seq<Day>, i: nat)
    requires i <= |s| && Consecutive(s[i..])
    ensures RunAt(s, i, |s| - i)
  {
    assert s[i..i + (|s| - i)] == s[i..];
  }

  /** A run of the sequence without its last day is a run of the sequence. */
  lemma RunExtends(s: seq<Day>, i: nat, n: nat)
    requires s != [] && RunAt(s[..|s| - 1], i, n)
    ensures RunAt(s, i, n)
  {
    assert s[i..i + n] == s[..|s| - 1][i..i + n];
  }

  /** How the three runs change when one more day is read. */
  lemma RunsStep(days: seq<Day>, i: nat)
    requires i < |days|
    ensures var s, p := days[..i + 1], days[..i];
      && TailRun(s) == (if i > 0 && Next(days[i - 1], days[i]) then TailRun(p) + 1 else 1)
      && LongestRun(s) == Max(LongestRun(p), TailRun(s))
      && HeadRun(s) == (if TailRun(s) == i + 1 then i + 1 else HeadRun(p))
  {
    var s := days[..i + 1];
    assert s[..i] == days[..i];
  }

  /** The corrected loop: one pass keeping the run that ends at the current
      day, the longest run so far, and the run that starts the sequence. */
  method StreakLoop(days: seq<Day>, today: Day) returns (r: Streak)
    ensures r == IntendedStreak(days, today)
  {
    var run, longest, head := 0, 0, 0;
    var i := 0;
    while i < |days|
      invariant 0 <= i <= |days|
      invariant run == TailRun(days[..i])
      invariant longest == LongestRun(days[..i])
      invariant head == HeadRun(days[..i])
    {
      RunsStep(days, i);
      if i > 0 && days[i] == days[i - 1] - 1 {
        run := run + 1;
      } else {
        run := 1;
      }
      if run == i + 1 {
        head := run;
      }
      longest := Max(longest, run);
      i := i + 1;
    }
    assert days[..i] == days;
    var current := if days != [] && 0 <= today - days[0] <= 1 then head else 0;
    r := Streak(current, longest);
  }
}
