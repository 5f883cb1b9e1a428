/** The school calendar: a cycle letter for every date, walked from an anchor in either
    direction, and the class segments of a validated timetable. Dates are day numbers
    counted from 1 January 1970, times are minutes after midnight. */
module Planning {
  import opened Values

  datatype Status = School | NoSchool | Remote

  datatype Override = Override(status: Status, cycleDay: string, timetableId: string)

  datatype BlockKind = Class | Break | Event

  datatype Block = Block(id: string, kind: BlockKind, period: string, classId: string, start: int, end: int,
                         cycleDays: seq<string>)

  datatype Timetable = Timetable(id: string, blocks: seq<Block>)

  datatype Plan = Plan(enabled: bool, startDate: Option<int>, endDate: Option<int>, weekdays: set<int>,
                       defaultTimetableId: string, timetables: seq<Timetable>, dates: map<int, Override>)

  datatype Profile = Profile(anchorDate: Option<int>, cycleDays: seq<string>, planning: Option<Plan>)

  /** `legacyDates` are the dates governed by an exception without a timetable of its own. */
  datatype Calendar = Calendar(anchorDate: Option<int>, noSchoolDates: set<int>, remoteDates: set<int>, legacyDates: set<int>)

  datatype Result<+T> = Ok(value: T) | Error

  // ------------------------------------------------------------ school days

  function DayOfWeek(day: int): int { (day + 4) % 7 }

  function SchoolStatus(p: Profile, c: Calendar, day: int): Status {
    if p.planning.Some? && p.planning.value.enabled && day in p.planning.value.dates then
      p.planning.value.dates[day].status
    else if day in c.noSchoolDates then NoSchool
    else if day in c.remoteDates then Remote
    else
      var enabled := p.planning.Some? && p.planning.value.enabled;
      if enabled && ((p.planning.value.startDate.Some? && day < p.planning.value.startDate.value)
                     || (p.planning.value.endDate.Some? && day > p.planning.value.endDate.value)) then NoSchool
      else if DayOfWeek(day) in (if enabled then p.planning.value.weekdays else {1, 2, 3, 4, 5}) then School
      else NoSchool
  }

  predicate Planned(p: Profile, day: int) {
    p.planning.Some? && p.planning.value.enabled && day in p.planning.value.dates
  }

  predicate InTerm(p: Profile, day: int) {
    p.planning.Some? && p.planning.value.enabled ==>
      && (p.planning.value.startDate.Some? ==> p.planning.value.startDate.value <= day)
      && (p.planning.value.endDate.Some? ==> day <= p.planning.value.endDate.value)
  }

  /** What decides a date: its own entry in an enabled plan alone; else a day off, before a
      remote day, before the term and the weekday, and the calendar's own week without a plan.
      Remote is only what is listed as such, and a disabled plan is no plan. */
  lemma StatusDecided(p: Profile, c: Calendar, day: int)
    ensures Planned(p, day) ==>
              forall other: Calendar :: SchoolStatus(p, other, day) == p.planning.value.dates[day].status
    ensures !Planned(p, day) ==>
              (SchoolStatus(p, c, day) == School <==>
                 && day !in c.noSchoolDates && day !in c.remoteDates && InTerm(p, day)
                 && DayOfWeek(day) in (if p.planning.Some? && p.planning.value.enabled then p.planning.value.weekdays else {1, 2, 3, 4, 5}))
    ensures !Planned(p, day) ==> (SchoolStatus(p, c, day) == Remote <==> day in c.remoteDates && day !in c.noSchoolDates)
    ensures p.planning.Some? && !p.planning.value.enabled ==>
              SchoolStatus(p, c, day) == SchoolStatus(p.(planning := None), c, day)
    ensures DayOfWeek(0) == 4 && DayOfWeek(day + 1) == (if DayOfWeek(day) == 6 then 0 else DayOfWeek(day) + 1)
  {
  }

  function Counts(p: Profile, c: Calendar, day: int): int {
    if SchoolStatus(p, c, day) != NoSchool then 1 else 0
  }

  /** School days after `a` up to and including `b`. */
  function SchoolDays(p: Profile, c: Calendar, a: int, b: int): int
    decreases b - a
  {
    if a >= b then 0 else SchoolDays(p, c, a, b - 1) + Counts(p, c, b)
  }

  /** The running count S: school days since day 0, negative before it. */
  function Running(p: Profile, c: Calendar, day: int): int {
    if day >= 0 then SchoolDays(p, c, 0, day) else -SchoolDays(p, c, day, 0)
  }

  lemma {:induction false} SchoolDaysFront(p: Profile, c: Calendar, a: int, b: int)
    requires a < b
    ensures SchoolDays(p, c, a, b) == Counts(p, c, a + 1) + SchoolDays(p, c, a + 1, b)
    decreases b - a
  {
    if a + 1 < b { SchoolDaysFront(p, c, a, b - 1); }
  }

  lemma RunningStep(p: Profile, c: Calendar, day: int)
    ensures Running(p, c, day) == Running(p, c, day - 1) + Counts(p, c, day)
  {
    if day <= 0 { SchoolDaysFront(p, c, day - 1, 0); }
  }

  // ------------------------------------------------------------------ cycle

  const TEN_YEARS := 3660

  /** The remainder of the source language, which takes the sign of the dividend. */
  function Remainder(a: int, n: int): int
    requires n > 0
  {
    if a >= 0 then a % n else -((-a) % n)
  }

  lemma ModuloUnique(a: int, n: int, q: int, r: int)
    requires n > 0 && 0 <= r < n && a == q * n + r
    ensures a % n == r
  {
    var d := a / n - q;
    assert a == (a / n) * n + a % n;
    assert d * n == r - a % n;
    assert d >= 1 ==> d * n >= n;
    assert d <= -1 ==> d * n <= -n;
  }

  lemma NegativeModulo(a: int, n: int)
    requires n > 0
    ensures (-a) % n == if a % n == 0 then 0 else n - a % n
  {
    var q, r := a / n, a % n;
    assert a == q * n + r;
    if r == 0 {
      assert -a == (-q) * n + 0;
      ModuloUnique(-a, n, -q, 0);
    } else {
      assert -a == (-q - 1) * n + (n - r);
      ModuloUnique(-a, n, -q - 1, n - r);
    }
  }

  lemma WrapIsModulo(a: int, n: int)
    requires n > 0
    ensures Remainder(Remainder(a, n) + n, n) == a % n
    ensures 0 <= a % n < n
  {
    var r := Remainder(a, n);
    if a < 0 { NegativeModulo(-a, n); }
    if r < 0 {
      ModuloUnique(r + n, n, 0, r + n);
    } else {
      ModuloUnique(r + n, n, 1, r);
    }
  }

  /** `cycleDay` is None on days without school; `projected` is the letter the walk gives. */
  datatype Cycle = Unconfigured | Cycle(isSchoolDay: bool, cycleDay: Option<string>, projected: string)

  function Anchor(p: Profile, c: Calendar): Option<int> {
    if p.anchorDate.Some? then p.anchorDate else c.anchorDate
  }

  function OverrideDay(p: Profile, day: int): string {
    if p.planning.Some? && p.planning.value.enabled && day in p.planning.value.dates
    then p.planning.value.dates[day].cycleDay else ""
  }

  function Letter(p: Profile, c: Calendar, anchor: int, day: int): (i: int)
    requires p.cycleDays != []
    ensures 0 <= i < |p.cycleDays|
  {
    (Running(p, c, day) - Running(p, c, anchor)) % |p.cycleDays|
  }

  /** The closed form of the cycle. */
  function CycleOn(p: Profile, c: Calendar, day: int): Result<Cycle> {
    var anchor := Anchor(p, c);
    if anchor.None? || p.cycleDays == [] then Ok(Unconfigured)
    else if day - anchor.value > TEN_YEARS || anchor.value - day > TEN_YEARS then Error
    else
      var projected := p.cycleDays[Letter(p, c, anchor.value, day)];
      if SchoolStatus(p, c, day) == NoSchool then Ok(Cycle(false, None, projected))
      else Ok(Cycle(true, Some(if OverrideDay(p, day) != "" then OverrideDay(p, day) else projected), projected))
  }

  /** The walk from the anchor, one day at a time. */
  method CycleForDate(p: Profile, c: Calendar, key: int) returns (r: Result<Cycle>)
    ensures r == CycleOn(p, c, key)
  {
    var anchor := if p.anchorDate.Some? then p.anchorDate else c.anchorDate;
    var status, letters := SchoolStatus(p, c, key), p.cycleDays;
    if anchor.None? || letters == [] { return Ok(Unconfigured); }
    var cursor := anchor.value;
    if key - cursor > TEN_YEARS || cursor - key > TEN_YEARS { return Error; }
    var step := if key >= cursor then 1 else -1;
    var offset := 0;
    while cursor != key
      invariant if step == 1 then cursor <= key else cursor >= key
      invariant offset == Running(p, c, cursor) - Running(p, c, anchor.value)
      decreases if step == 1 then key - cursor else cursor - key
    {
      if step < 0 && SchoolStatus(p, c, cursor) != NoSchool { offset := offset - 1; }
      RunningStep(p, c, cursor);
      cursor := cursor + step;
      if step > 0 { RunningStep(p, c, cursor); }
      if step > 0 && SchoolStatus(p, c, cursor) != NoSchool { offset := offset + 1; }
    }
    WrapIsModulo(offset, |letters|);
    var projected := letters[Remainder(Remainder(offset, |letters|) + |letters|, |letters|)];
    if status == NoSchool {
      r := Ok(Cycle(false, None, projected));
    } else {
      var chosen := if p.planning.Some? && p.planning.value.enabled && key in p.planning.value.dates
                       && p.planning.value.dates[key].cycleDay != ""
                    then p.planning.value.dates[key].cycleDay else projected;
      r := Ok(Cycle(true, Some(chosen), projected));
    }
  }

  /** Every school day moves exactly one letter on, every other day none, on both sides of
      the anchor and across it. */
  lemma SchoolDayAdvancesOneLetter(p: Profile, c: Calendar, anchor: int, day: int)
    requires p.cycleDays != []
    ensures Letter(p, c, anchor, day) ==
            (Letter(p, c, anchor, day - 1) + Counts(p, c, day)) % |p.cycleDays|
  {
    RunningStep(p, c, day);
    var n := |p.cycleDays|;
    var before := Running(p, c, day - 1) - Running(p, c, anchor);
    if Counts(p, c, day) == 1 {
      SuccessorModulo(before, n);
    } else {
      ModuloUnique(before % n, n, 0, before % n);
    }
  }

  lemma SuccessorModulo(a: int, n: int)
    requires n > 0
    ensures (a + 1) % n == (a % n + 1) % n
  {
    var q, r := a / n, a % n;
    assert a == q * n + r;
    if r + 1 < n {
      ModuloUnique(a + 1, n, q, r + 1);
      ModuloUnique(r + 1, n, 0, r + 1);
    } else {
      assert a + 1 == (q + 1) * n + 0;
      ModuloUnique(a + 1, n, q + 1, 0);
      ModuloUnique(n, n, 1, 0);
    }
  }

  /** Walking there and walking back undo each other. */
  lemma WalksAgree(p: Profile, c: Calendar, a: int, b: int)
    requires p.cycleDays != []
    ensures (Letter(p, c, a, b) + Letter(p, c, b, a)) % |p.cycleDays| == 0
  {
    var n, d := |p.cycleDays|, Running(p, c, b) - Running(p, c, a);
    NegativeModulo(d, n);
    ModuloUnique(n, n, 1, 0);
    ModuloUnique(0, n, 0, 0);
  }

  function WithCycleDay(p: Profile, day: int, letter: string): Profile
    requires p.planning.Some? && day in p.planning.value.dates
  {
    p.(planning := Some(p.planning.value.(dates :=
      p.planning.value.dates[day := p.planning.value.dates[day].(cycleDay := letter)])))
  }

  lemma {:induction false} SameSchoolDays(p: Profile, q: Profile, c: Calendar, a: int, b: int)
    requires forall d :: Counts(p, c, d) == Counts(q, c, d)
    ensures SchoolDays(p, c, a, b) == SchoolDays(q, c, a, b)
    decreases b - a
  {
    if a < b { SameSchoolDays(p, q, c, a, b - 1); }
  }

  /** A date's letter override takes effect on that date if it is a day with school, and
      changes that date alone, and not even its projection. */
  lemma OverrideIsLocal(p: Profile, c: Calendar, day: int, letter: string, other: int)
    requires p.planning.Some? && day in p.planning.value.dates
    ensures var q := WithCycleDay(p, day, letter);
            && (other != day ==> CycleOn(q, c, other) == CycleOn(p, c, other))
            && (CycleOn(p, c, day).Ok? && CycleOn(p, c, day).value.Cycle? ==>
                  && CycleOn(q, c, day).Ok? && CycleOn(q, c, day).value.Cycle?
                  && CycleOn(q, c, day).value.projected == CycleOn(p, c, day).value.projected
                  && (CycleOn(q, c, day).value.isSchoolDay <==> SchoolStatus(p, c, day) != NoSchool)
                  && (CycleOn(q, c, day).value.cycleDay.Some? <==> SchoolStatus(p, c, day) != NoSchool)
                  && (SchoolStatus(p, c, day) != NoSchool ==>
                        CycleOn(q, c, day).value.cycleDay ==
                        Some(if letter != "" && p.planning.value.enabled then letter else CycleOn(p, c, day).value.projected)))
  {
    var q := WithCycleDay(p, day, letter);
    forall d
      ensures SchoolStatus(p, c, d) == SchoolStatus(q, c, d)
    {
    }
    forall d
      ensures Running(p, c, d) == Running(q, c, d)
    {
      SameSchoolDays(p, q, c, 0, d);
      SameSchoolDays(p, q, c, d, 0);
    }
  }
}
