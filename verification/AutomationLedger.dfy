/** The bounded run ledger of the automation scheduler, which truncates its history but
    must never forget a Stop. */
module AutomationLedger {
  import opened Values

  datatype Status = CancelRequested | Cancelled | Claimed | Running | Succeeded | Other(text: string)

  datatype Row = Row(occurrenceId: string, status: Status)

  /** The stored preference; a history written before cancellations were kept apart has None. */
  datatype Value = Value(runs: seq<Row>, cancelled: Option<seq<string>>)

  predicate CancellationStatus(s: Status) { s.CancelRequested? || s.Cancelled? }

  predicate HoldsOccurrence(s: Status) { s.Claimed? || s.Running? || s.Succeeded? }

  predicate Holds(row: Row, identities: set<string>) {
    row.occurrenceId in identities && HoldsOccurrence(row.status)
  }

  // -------------------------------------------------------------- identities

  predicate Digits(s: string) {
    forall k :: 0 <= k < |s| ==> '0' <= s[k] <= '9'
  }

  function Number(s: string): nat
    requires Digits(s)
  {
    if s == "" then 0 else Number(s[..|s| - 1]) * 10 + (s[|s| - 1] as int - '0' as int)
  }

  predicate LeapYear(y: nat) { y % 4 == 0 && (y % 100 != 0 || y % 400 == 0) }

  function DaysInMonth(y: nat, m: nat): nat {
    if m == 2 then (if LeapYear(y) then 29 else 28)
    else if m == 4 || m == 6 || m == 9 || m == 11 then 30
    else 31
  }

  predicate OneLine(s: string) {
    '\n' !in s && '\r' !in s && '\U{2028}' !in s && '\U{2029}' !in s
  }

  const TAIL := 17

  /** One line that is two non-empty parts around a colon. */
  predicate TwoParts(head: string) {
    OneLine(head) && exists k :: 1 <= k < |head| - 1 && head[k] == ':'
  }

  /** Digits where the tail of an identity has digits, and the signs between them. */
  predicate Shaped(t: string)
    requires |t| == TAIL
  {
    && t[0] == ':' && t[5] == '-' && t[8] == '-' && t[11] == ':' && t[14] == ':'
    && Digits(t[1..5]) && Digits(t[6..8]) && Digits(t[9..11]) && Digits(t[12..14]) && Digits(t[15..17])
  }

  /** The number YYYYMMDD, which orders as the text does, of a date and a time that exist. */
  function DateOfNumbers(y: nat, m: nat, d: nat, hour: nat, minute: nat): Option<nat> {
    if hour > 23 || minute > 59 then None
    else if 1 <= m <= 12 && 1 <= d <= DaysInMonth(y, m) then Some(y * 10000 + m * 100 + d)
    else None
  }

  /** The date in `:YYYY-MM-DD:hh:mm`. */
  function DateOf(t: string): Option<nat>
    requires |t| == TAIL
  {
    if !Shaped(t) then None
    else DateOfNumbers(Number(t[1..5]), Number(t[6..8]), Number(t[9..11]), Number(t[12..14]), Number(t[15..17]))
  }

  /** The date that an identity `event:class:YYYY-MM-DD:hh:mm` is for. */
  function OccurrenceDate(id: string): Option<nat> {
    if |id| < TAIL || !TwoParts(id[..|id| - TAIL]) then None else DateOf(id[|id| - TAIL..])
  }

  // ---------------------------------------------- identities as they are printed

  /** The day on which a month begins, counted from the first of March of the year 0: years of
      365 days with a day more every fourth, but not every hundredth, but every four hundredth,
      each from March on, when months take turns of 153 days every five. */
  function MonthBegins(y: int, m: int): int {
    var year, month := if m <= 2 then y - 1 else y, if m <= 2 then m + 9 else m - 3;
    365 * year + year / 4 - year / 100 + year / 400 + (153 * month + 2) / 5
  }

  function NextMonthBegins(y: int, m: int): int {
    if m == 12 then MonthBegins(y + 1, 1) else MonthBegins(y, m + 1)
  }

  /** A day of the calendar: it comes before the next month does. */
  predicate RealDate(y: nat, m: nat, d: nat) {
    y <= 9999 && 1 <= m <= 12 && 1 <= d <= NextMonthBegins(y, m) - MonthBegins(y, m)
  }

  lemma DaysInMonthCounted(y: nat, m: nat)
    requires 1 <= m <= 12
    ensures DaysInMonth(y, m) == NextMonthBegins(y, m) - MonthBegins(y, m)
  {
    if m == 2 { LeapDay(y); }
  }

  lemma LeapDay(y: nat)
    ensures y / 4 - (y - 1) / 4 - (y / 100 - (y - 1) / 100) + (y / 400 - (y - 1) / 400) == if LeapYear(y) then 1 else 0
  {
    Multiples(y);
    EveryFourth(y);
    EveryHundredth(y);
    EveryFourHundredth(y);
  }

  lemma EveryFourth(y: nat)
    ensures y / 4 - (y - 1) / 4 == if y % 4 == 0 then 1 else 0
  {
  }

  lemma EveryHundredth(y: nat)
    ensures y / 100 - (y - 1) / 100 == if y % 100 == 0 then 1 else 0
  {
  }

  lemma EveryFourHundredth(y: nat)
    ensures y / 400 - (y - 1) / 400 == if y % 400 == 0 then 1 else 0
  {
  }

  lemma Multiples(y: nat)
    ensures y % 100 == 0 ==> y % 4 == 0
    ensures y % 400 == 0 ==> y % 100 == 0
  {
    if y % 100 == 0 { FourTimes(25 * (y / 100)); }
    if y % 400 == 0 { HundredTimes(4 * (y / 400)); }
  }

  lemma FourTimes(q: nat)
    ensures 4 * q % 4 == 0
  {
  }

  lemma HundredTimes(q: nat)
    ensures 100 * q % 100 == 0
  {
  }

  function Digit(k: nat): char
    requires k < 10
  {
    (k + '0' as int) as char
  }

  /** Numbers in two and in four digits. */
  function Two(n: nat): string { [Digit(n / 10 % 10), Digit(n % 10)] }

  function Four(n: nat): string { Two(n / 100) + Two(n % 100) }

  lemma NumberInTwo(s: string)
    requires |s| == 2 && Digits(s)
    ensures Number(s) == (s[0] as int - '0' as int) * 10 + (s[1] as int - '0' as int)
    ensures Number(s) <= 99 && Two(Number(s)) == s
  {
    assert Number(s) == Number(s[..1]) * 10 + (s[1] as int - '0' as int);
    assert Number(s[..1]) == Number(s[..1][..0]) * 10 + (s[0] as int - '0' as int);
  }

  lemma TwoIsNumber(n: nat)
    requires n <= 99
    ensures |Two(n)| == 2 && Digits(Two(n)) && Number(Two(n)) == n
  {
    NumberInTwo(Two(n));
  }

  lemma Hundreds(a: nat, b: nat)
    requires b <= 99
    ensures (a * 100 + b) / 100 == a && (a * 100 + b) % 100 == b
  {
  }

  lemma NumberSplits(s: string)
    requires |s| == 4 && Digits(s)
    ensures Digits(s[..2]) && Digits(s[2..]) && Number(s) == Number(s[..2]) * 100 + Number(s[2..])
  {
    NumberInTwo(s[2..]);
    assert s[..3][..2] == s[..2];
    assert Number(s) == Number(s[..3]) * 10 + (s[3] as int - '0' as int);
    assert Number(s[..3]) == Number(s[..2]) * 10 + (s[2] as int - '0' as int);
  }

  lemma NumberInFour(s: string)
    requires |s| == 4 && Digits(s)
    ensures Number(s) <= 9999 && Four(Number(s)) == s
  {
    NumberSplits(s);
    var a, b := s[..2], s[2..];
    NumberInTwo(a);
    NumberInTwo(b);
    Hundreds(Number(a), Number(b));
    assert s == a + b;
  }

  lemma FourIsNumber(n: nat)
    requires n <= 9999
    ensures |Four(n)| == 4 && Digits(Four(n)) && Number(Four(n)) == n
  {
    TwoIsNumber(n / 100);
    TwoIsNumber(n % 100);
    var s := Four(n);
    assert s[..2] == Two(n / 100) && s[2..] == Two(n % 100);
    NumberSplits(s);
  }

  function Stamp(year: string, month: string): string {
    ":" + year + "-" + month
  }

  function Time(day: string, hour: string, minute: string): string {
    "-" + day + ":" + hour + ":" + minute
  }

  lemma StampParts(year: string, month: string)
    requires |year| == 4 && |month| == 2
    ensures var a := Stamp(year, month);
            |a| == 8 && a[0] == ':' && a[1..5] == year && a[5] == '-' && a[6..8] == month
  {
  }

  lemma TimeParts(day: string, hour: string, minute: string)
    requires |day| == |hour| == |minute| == 2
    ensures var b := Time(day, hour, minute);
            && |b| == 9 && b[0] == '-' && b[1..3] == day && b[3] == ':' && b[4..6] == hour && b[6] == ':' && b[7..9] == minute
  {
  }

  lemma StampOf(a: string)
    requires |a| == 8 && a[0] == ':' && a[5] == '-'
    ensures a == Stamp(a[1..5], a[6..8])
  {
  }

  lemma TimeOf(b: string)
    requires |b| == 9 && b[0] == '-' && b[3] == ':' && b[6] == ':'
    ensures b == Time(b[1..3], b[4..6], b[7..9])
  {
  }

  datatype Instant = Instant(year: nat, month: nat, day: nat, hour: nat, minute: nat)

  function PrintedTail(at: Instant): string {
    Stamp(Four(at.year), Two(at.month)) + Time(Two(at.day), Two(at.hour), Two(at.minute))
  }

  /** How the scheduler prints the identity of an occurrence. */
  function Printed(event: string, owner: string, at: Instant): string {
    event + ":" + owner + PrintedTail(at)
  }

  /** A time of a day of the calendar. */
  predicate Real(at: Instant) {
    RealDate(at.year, at.month, at.day) && at.hour <= 23 && at.minute <= 59
  }

  function DateNumber(at: Instant): nat {
    at.year * 10000 + at.month * 100 + at.day
  }

  predicate Named(event: string, owner: string) {
    event != "" && owner != "" && OneLine(event) && OneLine(owner)
  }

  /** The checks on the numbers accept exactly the times of the calendar. */
  lemma DateOfReal(at: Instant)
    requires at.year <= 9999
    ensures DateOfNumbers(at.year, at.month, at.day, at.hour, at.minute) == if Real(at) then Some(DateNumber(at)) else None
  {
    if 1 <= at.month <= 12 { DaysInMonthCounted(at.year, at.month); }
  }

  lemma DateOfTail(at: Instant)
    requires Real(at)
    ensures |PrintedTail(at)| == TAIL && DateOf(PrintedTail(at)) == Some(DateNumber(at))
  {
    FourIsNumber(at.year);
    TwoIsNumber(at.month);
    TwoIsNumber(at.day);
    TwoIsNumber(at.hour);
    TwoIsNumber(at.minute);
    DateOfReal(at);
    DateOfParts(Four(at.year), Two(at.month), Two(at.day), Two(at.hour), Two(at.minute));
  }

  lemma DateOfParts(year: string, month: string, day: string, hour: string, minute: string)
    requires |year| == 4 && |month| == |day| == |hour| == |minute| == 2
    requires Digits(year) && Digits(month) && Digits(day) && Digits(hour) && Digits(minute)
    ensures var t := Stamp(year, month) + Time(day, hour, minute);
            |t| == TAIL && DateOf(t) == DateOfNumbers(Number(year), Number(month), Number(day), Number(hour), Number(minute))
  {
    TailParts(year, month, day, hour, minute);
  }

  lemma TailParts(year: string, month: string, day: string, hour: string, minute: string)
    requires |year| == 4 && |month| == |day| == |hour| == |minute| == 2
    ensures var t := Stamp(year, month) + Time(day, hour, minute);
            && |t| == TAIL && t[0] == ':' && t[5] == '-' && t[8] == '-' && t[11] == ':' && t[14] == ':'
            && t[1..5] == year && t[6..8] == month && t[9..11] == day && t[12..14] == hour && t[15..17] == minute
  {
    var a, b := Stamp(year, month), Time(day, hour, minute);
    StampParts(year, month);
    TimeParts(day, hour, minute);
    var t := a + b;
    assert t[1..5] == a[1..5] && t[6..8] == a[6..8];
    assert t[9..11] == b[1..3] && t[12..14] == b[4..6] && t[15..17] == b[7..9];
  }

  lemma TailOf(t: string)
    requires |t| == TAIL && t[0] == ':' && t[5] == '-' && t[8] == '-' && t[11] == ':' && t[14] == ':'
    ensures t == Stamp(t[1..5], t[6..8]) + Time(t[9..11], t[12..14], t[15..17])
  {
    var a, b := t[..8], t[8..];
    StampOf(a);
    TimeOf(b);
    assert a[1..5] == t[1..5] && a[6..8] == t[6..8];
    assert b[1..3] == t[9..11] && b[4..6] == t[12..14] && b[7..9] == t[15..17];
    assert t == a + b;
  }

  function InstantOf(t: string): Instant
    requires |t| == TAIL && Shaped(t)
  {
    Instant(Number(t[1..5]), Number(t[6..8]), Number(t[9..11]), Number(t[12..14]), Number(t[15..17]))
  }

  lemma InstantPrinted(t: string)
    requires |t| == TAIL && Shaped(t)
    ensures InstantOf(t).year <= 9999 && t == PrintedTail(InstantOf(t))
  {
    NumberInFour(t[1..5]);
    NumberInTwo(t[6..8]);
    NumberInTwo(t[9..11]);
    NumberInTwo(t[12..14]);
    NumberInTwo(t[15..17]);
    TailOf(t);
  }

  lemma TailOfDate(t: string)
    requires |t| == TAIL && DateOf(t).Some?
    ensures Shaped(t) && Real(InstantOf(t)) && t == PrintedTail(InstantOf(t)) && DateOf(t) == Some(DateNumber(InstantOf(t)))
  {
    InstantPrinted(t);
    DateOfReal(InstantOf(t));
  }

  /** Every identity that is printed for such a time has its date. */
  lemma DateOfPrinted(event: string, owner: string, at: Instant)
    requires Named(event, owner) && Real(at)
    ensures OccurrenceDate(Printed(event, owner, at)) == Some(DateNumber(at))
  {
    DateOfTail(at);
    DateOfSum(event, owner, PrintedTail(at));
  }

  lemma DateOfSum(event: string, owner: string, t: string)
    requires Named(event, owner) && |t| == TAIL
    ensures OccurrenceDate(event + ":" + owner + t) == DateOf(t)
  {
    var head := event + ":" + owner;
    var id := head + t;
    assert head[|event|] == ':';
    assert id[..|id| - TAIL] == head && id[|id| - TAIL..] == t;
  }

  lemma SumOfDate(id: string) returns (event: string, owner: string, t: string)
    requires OccurrenceDate(id).Some?
    ensures Named(event, owner) && |t| == TAIL && id == event + ":" + owner + t && DateOf(t) == OccurrenceDate(id)
  {
    var head := id[..|id| - TAIL];
    t := id[|id| - TAIL..];
    var k :| 1 <= k < |head| - 1 && head[k] == ':';
    event, owner := head[..k], head[k + 1..];
    assert head == event + ":" + owner && id == head + t;
  }

  ghost predicate PrintedFor(id: string, date: nat) {
    exists event: string, owner: string, at: Instant ::
      Named(event, owner) && Real(at) && id == Printed(event, owner, at) && date == DateNumber(at)
  }

  /** An identity has a date exactly if it was printed for a time of that day. */
  lemma OccurrenceDateIff(id: string, date: nat)
    ensures OccurrenceDate(id) == Some(date) <==> PrintedFor(id, date)
  {
    if PrintedFor(id, date) {
      var event: string, owner: string, at: Instant :|
        Named(event, owner) && Real(at) && id == Printed(event, owner, at) && date == DateNumber(at);
      DateOfPrinted(event, owner, at);
    }
    if OccurrenceDate(id) == Some(date) {
      var event, owner, t := SumOfDate(id);
      TailOfDate(t);
      assert id == Printed(event, owner, InstantOf(t));
    }
  }

  /** Well formed and not older than the first retained date. */
  predicate Current(id: string, firstDate: int) {
    OccurrenceDate(id).Some? && OccurrenceDate(id).value >= firstDate
  }

  /** Before another day of the calendar. */
  predicate Earlier(a: Instant, b: Instant) {
    a.year < b.year || (a.year == b.year && (a.month < b.month || (a.month == b.month && a.day < b.day)))
  }

  /** A printed identity is current exactly if its day is not before the first one retained. */
  lemma CurrentPrinted(event: string, owner: string, at: Instant, first: Instant)
    requires Named(event, owner) && Real(at) && Real(first)
    ensures Current(Printed(event, owner, at), DateNumber(first)) <==> !Earlier(at, first)
  {
    DateOfPrinted(event, owner, at);
    DateOrder(at, first);
  }

  lemma DateOrder(a: Instant, b: Instant)
    requires Real(a) && Real(b)
    ensures DateNumber(a) < DateNumber(b) <==> Earlier(a, b)
  {
    DaysInMonthCounted(a.year, a.month);
    DaysInMonthCounted(b.year, b.month);
    assert a.day <= 31 && b.day <= 31;
  }

  // --------------------------------------------------------------- retention

  const BYTES_LIMIT := 1024 * 1024

  function Cost(ids: seq<string>, jsonBytes: string -> nat): nat {
    if ids == [] then 2 else Cost(ids[..|ids| - 1], jsonBytes) + jsonBytes(ids[|ids| - 1]) + 1
  }

  /** One identity offered to the retained set; None when the set would outgrow its limits. */
  function Add(ids: seq<string>, id: string, firstDate: int, limit: nat, jsonBytes: string -> nat): Option<seq<string>> {
    if !Current(id, firstDate) || id in ids then Some(ids)
    else if |ids| >= limit || Cost(ids, jsonBytes) + jsonBytes(id) + 1 > BYTES_LIMIT then None
    else Some(ids + [id])
  }

  function AddAll(ids: seq<string>, more: seq<string>, firstDate: int, limit: nat, jsonBytes: string -> nat): Option<seq<string>> {
    if more == [] then Some(ids)
    else
      var next := AddAll(ids, more[..|more| - 1], firstDate, limit, jsonBytes);
      if next.None? then None else Add(next.value, more[|more| - 1], firstDate, limit, jsonBytes)
  }

  function CancelledIds(runs: seq<Row>): seq<string> {
    if runs == [] then []
    else CancelledIds(runs[..|runs| - 1])
         + (if CancellationStatus(runs[|runs| - 1].status) then [runs[|runs| - 1].occurrenceId] else [])
  }

  function SavedIds(v: Value): seq<string> {
    if v.cancelled.Some? then v.cancelled.value else []
  }

  predicate SavedValid(v: Value) {
    |SavedIds(v)| <= 5000 && forall k :: 0 <= k < |SavedIds(v)| ==> OccurrenceDate(SavedIds(v)[k]).Some?
  }

  /** The saved Stops first, then those still in the history; None where the source throws. */
  function Retained(v: Value, firstDate: int, limit: nat, jsonBytes: string -> nat): Option<seq<string>> {
    if !SavedValid(v) then None
    else
      var saved := AddAll([], SavedIds(v), firstDate, limit, jsonBytes);
      if saved.None? then None else AddAll(saved.value, CancelledIds(v.runs), firstDate, limit, jsonBytes)
  }

  lemma {:induction false} CancelledIdsOf(runs: seq<Row>)
    ensures forall id :: id in CancelledIds(runs) <==> StoppedIn(runs, id)
  {
    if runs != [] {
      var most := runs[..|runs| - 1];
      CancelledIdsOf(most);
      forall id | id in CancelledIds(runs)
        ensures StoppedIn(runs, id)
      {
        if id in CancelledIds(most) {
          var k :| 0 <= k < |most| && most[k].occurrenceId == id && CancellationStatus(most[k].status);
          assert runs[k].occurrenceId == id;
        } else {
          assert runs[|runs| - 1].occurrenceId == id;
        }
      }
      forall k | 0 <= k < |runs| && CancellationStatus(runs[k].status)
        ensures runs[k].occurrenceId in CancelledIds(runs)
      {
        if k < |most| { assert most[k] == runs[k]; }
      }
    }
  }

  predicate Distinct(ids: seq<string>) {
    forall i, j :: 0 <= i < j < |ids| ==> ids[i] != ids[j]
  }

  predicate Bounded(ids: seq<string>, limit: nat, jsonBytes: string -> nat) {
    Distinct(ids) && |ids| <= limit && Cost(ids, jsonBytes) <= BYTES_LIMIT
  }

  lemma AddContents(ids: seq<string>, id: string, firstDate: int, limit: nat, jsonBytes: string -> nat)
    requires Bounded(ids, limit, jsonBytes)
    requires Add(ids, id, firstDate, limit, jsonBytes).Some?
    ensures Bounded(Add(ids, id, firstDate, limit, jsonBytes).value, limit, jsonBytes)
    ensures forall x :: x in Add(ids, id, firstDate, limit, jsonBytes).value <==> (x in ids || (x == id && Current(id, firstDate)))
  {
    assert (ids + [id])[..|ids|] == ids;
  }

  /** Offering identities adds exactly the current ones, each once, within both limits. */
  lemma {:induction false} AddAllContents(ids: seq<string>, more: seq<string>, firstDate: int, limit: nat, jsonBytes: string -> nat)
    requires Bounded(ids, limit, jsonBytes)
    requires AddAll(ids, more, firstDate, limit, jsonBytes).Some?
    ensures Bounded(AddAll(ids, more, firstDate, limit, jsonBytes).value, limit, jsonBytes)
    ensures forall id :: id in AddAll(ids, more, firstDate, limit, jsonBytes).value <==> (id in ids || (id in more && Current(id, firstDate)))
  {
    if more != [] {
      var most, last := more[..|more| - 1], more[|more| - 1];
      AddAllContents(ids, most, firstDate, limit, jsonBytes);
      AddContents(AddAll(ids, most, firstDate, limit, jsonBytes).value, last, firstDate, limit, jsonBytes);
      assert more == most + [last];
    }
  }

  /** A set too large after some identities stays too large. */
  lemma {:induction false} TooManyStays(ids: seq<string>, all: seq<string>, n: nat, firstDate: int, limit: nat, jsonBytes: string -> nat)
    requires n <= |all| && AddAll(ids, all[..n], firstDate, limit, jsonBytes) == None
    ensures AddAll(ids, all, firstDate, limit, jsonBytes) == None
    decreases |all|
  {
    if n == |all| {
      assert all[..n] == all;
    } else {
      assert all[..|all| - 1][..n] == all[..n];
      TooManyStays(ids, all[..|all| - 1], n, firstDate, limit, jsonBytes);
    }
  }

  predicate StoppedIn(runs: seq<Row>, id: string) {
    exists k :: 0 <= k < |runs| && runs[k].occurrenceId == id && CancellationStatus(runs[k].status)
  }

  /** `kept` holds the Stops of a stored value that are still current, and nothing else. */
  ghost predicate KeepsStops(kept: seq<string>, saved: seq<string>, runs: seq<Row>, firstDate: int) {
    forall id :: id in kept <==> (Current(id, firstDate) && (id in saved || StoppedIn(runs, id)))
  }

  /** What is retained: the current Stops, saved or in the history, and nothing else. */
  lemma RetainedContents(v: Value, firstDate: int, limit: nat, jsonBytes: string -> nat)
    requires Retained(v, firstDate, limit, jsonBytes).Some?
    ensures Bounded(Retained(v, firstDate, limit, jsonBytes).value, limit, jsonBytes)
    ensures KeepsStops(Retained(v, firstDate, limit, jsonBytes).value, SavedIds(v), v.runs, firstDate)
  {
    CancelledIdsOf(v.runs);
    AddAllContents([], SavedIds(v), firstDate, limit, jsonBytes);
    AddAllContents(AddAll([], SavedIds(v), firstDate, limit, jsonBytes).value, CancelledIds(v.runs), firstDate, limit, jsonBytes);
  }

  // ------------------------------------------------------------------ ledger

  datatype ClaimResult = Won | Stopped(id: string) | Existing(row: Row) | Refused

  function LastOf(rows: seq<Row>, n: nat): (r: seq<Row>)
    ensures |r| == if |rows| < n then |rows| else n
    ensures r == rows[|rows| - |r|..]
  {
    if |rows| <= n then rows else rows[|rows| - n..]
  }

  /** The stored value still stands for the whole history: its rows are the newest, at least
      `limit` of them once any were dropped, and no Stop that is still current was lost. */
  ghost predicate Remembers(v: Value, appended: seq<Row>, limit: nat, clock: int) {
    && |v.runs| <= |appended| && v.runs == appended[|appended| - |v.runs|..]
    && (|v.runs| >= limit || v.runs == appended)
    && (forall id :: StoppedIn(appended, id) && Current(id, clock) ==> id in SavedIds(v) || StoppedIn(v.runs, id))
  }

  lemma StoppedInSum(a: seq<Row>, b: seq<Row>, id: string)
    ensures StoppedIn(a + b, id) <==> StoppedIn(a, id) || StoppedIn(b, id)
  {
    if k :| 0 <= k < |a| && a[k].occurrenceId == id && CancellationStatus(a[k].status) {
      assert (a + b)[k] == a[k];
    }
    if k :| 0 <= k < |b| && b[k].occurrenceId == id && CancellationStatus(b[k].status) {
      assert (a + b)[|a| + k] == b[k];
    }
  }

  /** Appending rows and truncating keeps the ledger standing for the longer history. */
  lemma WriteKeeps(v: Value, kept: seq<string>, rows: seq<Row>, kept': seq<string>, appended: seq<Row>,
                   limit: nat, clock: int, firstDate: int)
    requires Remembers(v, appended, limit, clock) && clock <= firstDate
    requires KeepsStops(kept, SavedIds(v), v.runs, firstDate) && KeepsStops(kept', kept, v.runs + rows, firstDate)
    ensures Remembers(Value(LastOf(v.runs + rows, limit), Some(kept')), appended + rows, limit, firstDate)
    ensures forall id :: StoppedIn(appended + rows, id) && Current(id, firstDate) ==> id in kept'
  {
    forall id | StoppedIn(appended + rows, id) && Current(id, firstDate)
      ensures id in kept'
    {
      assert Current(id, clock);
      StoppedInSum(appended, rows, id);
      StoppedInSum(v.runs, rows, id);
    }
  }

  /** Every Stop of the whole history that is still current. */
  ghost predicate NoStopLost(v: Value, appended: seq<Row>, firstDate: int) {
    forall id :: StoppedIn(appended, id) && Current(id, firstDate) ==> id in SavedIds(v)
  }

  lemma RetainedWrite(v: Value, kept: seq<string>, rows: seq<Row>, kept': seq<string>, appended: seq<Row>, limit: nat, clock: int,
                      firstDate: int, cancellationLimit: nat, jsonBytes: string -> nat)
    requires Remembers(v, appended, limit, clock) && clock <= firstDate
    requires Retained(v, firstDate, cancellationLimit, jsonBytes) == Some(kept)
    requires Retained(Value(v.runs + rows, Some(kept)), firstDate, cancellationLimit, jsonBytes) == Some(kept')
    ensures Remembers(Value(LastOf(v.runs + rows, limit), Some(kept')), appended + rows, limit, firstDate)
    ensures NoStopLost(Value(LastOf(v.runs + rows, limit), Some(kept')), appended + rows, firstDate)
  {
    RetainedContents(v, firstDate, cancellationLimit, jsonBytes);
    RetainedContents(Value(v.runs + rows, Some(kept)), firstDate, cancellationLimit, jsonBytes);
    WriteKeeps(v, kept, rows, kept', appended, limit, clock, firstDate);
  }

  /** No row that was ever appended under these identities stops or holds the occurrence, if
      the ledger's own checks found none; a holding row must have been truncated. */
  lemma NothingMissed(v: Value, kept: seq<string>, appended: seq<Row>, limit: nat, clock: int, firstDate: int, identities: set<string>)
    requires Remembers(v, appended, limit, clock) && clock <= firstDate
    requires KeepsStops(kept, SavedIds(v), v.runs, firstDate)
    requires forall id :: id in kept ==> id !in identities
    requires forall i :: 0 <= i < |v.runs| ==> !Holds(v.runs[i], identities)
    ensures forall id :: id in identities && StoppedIn(appended, id) ==> !Current(id, firstDate)
    ensures forall k :: 0 <= k < |appended| && Holds(appended[k], identities) ==> k + limit < |appended| + 1
  {
    var first := |appended| - |v.runs|;
    assert forall k :: first <= k < |appended| ==> appended[k] == v.runs[k - first];
  }

  method Offer(ids: seq<string>, bytes: nat, id: string, firstDate: int, limit: nat, jsonBytes: string -> nat)
    returns (r: Option<seq<string>>, total: nat)
    requires bytes == Cost(ids, jsonBytes)
    ensures r == Add(ids, id, firstDate, limit, jsonBytes)
    ensures r.Some? ==> total == Cost(r.value, jsonBytes)
  {
    total := bytes;
    if !Current(id, firstDate) || id in ids { return Some(ids), total; }
    total := total + jsonBytes(id) + 1;
    if |ids| >= limit || total > BYTES_LIMIT { return None, total; }
    assert (ids + [id])[..|ids|] == ids;
    r := Some(ids + [id]);
  }

  method OfferSaved(saved: seq<string>, firstDate: int, limit: nat, jsonBytes: string -> nat)
    returns (r: Option<seq<string>>, bytes: nat)
    ensures r.Some? ==> forall k :: 0 <= k < |saved| ==> OccurrenceDate(saved[k]).Some?
    ensures (forall k :: 0 <= k < |saved| ==> OccurrenceDate(saved[k]).Some?) ==> r == AddAll([], saved, firstDate, limit, jsonBytes)
    ensures r.Some? ==> bytes == Cost(r.value, jsonBytes)
  {
    r, bytes := Some([]), 2;
    for k := 0 to |saved|
      invariant forall i :: 0 <= i < k ==> OccurrenceDate(saved[i]).Some?
      invariant r.Some? && AddAll([], saved[..k], firstDate, limit, jsonBytes) == r && bytes == Cost(r.value, jsonBytes)
    {
      if OccurrenceDate(saved[k]) == None { return None, bytes; }
      assert saved[..k + 1][..k] == saved[..k];
      r, bytes := Offer(r.value, bytes, saved[k], firstDate, limit, jsonBytes);
      if r == None {
        TooManyStays([], saved, k + 1, firstDate, limit, jsonBytes);
        return;
      }
    }
    assert saved[..|saved|] == saved;
  }

  method OfferStopped(ids: seq<string>, total: nat, runs: seq<Row>, firstDate: int, limit: nat, jsonBytes: string -> nat)
    returns (r: Option<seq<string>>)
    requires total == Cost(ids, jsonBytes)
    ensures r == AddAll(ids, CancelledIds(runs), firstDate, limit, jsonBytes)
  {
    var bytes := total;
    r := Some(ids);
    for k := 0 to |runs|
      invariant r.Some? && AddAll(ids, CancelledIds(runs[..k]), firstDate, limit, jsonBytes) == r && bytes == Cost(r.value, jsonBytes)
    {
      assert runs[..k + 1][..k] == runs[..k];
      if CancellationStatus(runs[k].status) {
        ghost var before, next := CancelledIds(runs[..k]), CancelledIds(runs[..k + 1]);
        assert next == before + [runs[k].occurrenceId] && next[..|next| - 1] == before;
        r, bytes := Offer(r.value, bytes, runs[k].occurrenceId, firstDate, limit, jsonBytes);
        if r == None {
          CancelledPrefix(runs, k + 1);
          TooManyStays(ids, CancelledIds(runs), |next|, firstDate, limit, jsonBytes);
          return;
        }
      } else {
        assert CancelledIds(runs[..k + 1]) == CancelledIds(runs[..k]);
      }
    }
    assert runs[..|runs|] == runs;
  }

  lemma {:induction false} CancelledPrefix(runs: seq<Row>, k: nat)
    requires k <= |runs|
    ensures |CancelledIds(runs[..k])| <= |CancelledIds(runs)|
    ensures CancelledIds(runs)[..|CancelledIds(runs[..k])|] == CancelledIds(runs[..k])
    decreases |runs|
  {
    if k == |runs| {
      assert runs[..k] == runs;
    } else {
      assert runs[..|runs| - 1][..k] == runs[..k];
      CancelledPrefix(runs[..|runs| - 1], k);
    }
  }

  method FindStopped(kept: seq<string>, identities: set<string>) returns (r: Option<string>)
    ensures r.Some? ==> r.value in kept && r.value in identities
    ensures r.None? ==> forall id :: id in kept ==> id !in identities
  {
    for k := 0 to |kept|
      invariant forall i :: 0 <= i < k ==> kept[i] !in identities
    {
      if kept[k] in identities { return Some(kept[k]); }
    }
    r := None;
  }

  /** The newest row that holds the occurrence. */
  method FindHolder(runs: seq<Row>, identities: set<string>) returns (r: Option<nat>)
    ensures r.Some? ==> NewestHolder(runs, r.value, identities)
    ensures r.None? ==> forall i :: 0 <= i < |runs| && runs[i].occurrenceId in identities ==> !HoldsOccurrence(runs[i].status)
  {
    for n := |runs| downto 0
      invariant forall i :: n <= i < |runs| ==> !Holds(runs[i], identities)
    {
      if Holds(runs[n], identities) { return Some(n); }
    }
    r := None;
  }

  /** A Stop that is still current, saved or in the history. */
  predicate StopKept(v: Value, id: string, firstDate: int) {
    Current(id, firstDate) && (id in SavedIds(v) || StoppedIn(v.runs, id))
  }

  predicate AnyStopKept(v: Value, identities: set<string>, firstDate: int) {
    exists id :: id in identities && StopKept(v, id, firstDate)
  }

  predicate AnyHolds(runs: seq<Row>, identities: set<string>) {
    exists k :: 0 <= k < |runs| && Holds(runs[k], identities)
  }

  /** Row n holds the occurrence, and no newer row does. */
  predicate NewestHolder(runs: seq<Row>, n: nat, identities: set<string>) {
    n < |runs| && Holds(runs[n], identities) && forall i :: n < i < |runs| ==> !Holds(runs[i], identities)
  }

  class Ledger {
    const limit: nat
    const cancellationLimit: nat
    const jsonBytes: string -> nat

    var store: Value

    ghost var appended: seq<Row>     // the whole history, truncated rows included
    ghost var clock: int             // yesterday's date at the latest successful write

    ghost predicate Valid()
      reads this
    {
      limit >= 1 && Remembers(store, appended, limit, clock)
    }

    constructor (limit: nat, cancellationLimit: nat, jsonBytes: string -> nat, store: Value)
      requires limit >= 1 && 1 <= cancellationLimit <= 5000
      ensures Valid() && this.store == store && appended == store.runs && this.limit == limit
    {
      this.limit, this.cancellationLimit, this.jsonBytes := limit, cancellationLimit, jsonBytes;
      this.store, appended := store, store.runs;
    }

    /** `firstDate` is yesterday's real local date, whatever a simulated clock says. */
    method RetainedCancellations(v: Value, firstDate: int) returns (r: Option<seq<string>>)
      ensures r == Retained(v, firstDate, cancellationLimit, jsonBytes)
    {
      var saved := if v.cancelled == None then [] else v.cancelled.value;
      if |saved| > 5000 { return None; }
      var ids, bytes := OfferSaved(saved, firstDate, cancellationLimit, jsonBytes);
      if ids == None { return None; }
      r := OfferStopped(ids.value, bytes, v.runs, firstDate, cancellationLimit, jsonBytes);
    }

    method Commit(kept: seq<string>, rows: seq<Row>, cancelled: seq<string>, firstDate: int)
      requires Valid() && clock <= firstDate
      requires Retained(store, firstDate, cancellationLimit, jsonBytes) == Some(kept)
      requires Retained(Value(store.runs + rows, Some(kept)), firstDate, cancellationLimit, jsonBytes) == Some(cancelled)
      modifies this
      ensures Valid() && appended == old(appended) + rows && clock == firstDate
      ensures store == Value(LastOf(old(store).runs + rows, limit), Some(cancelled))
      ensures NoStopLost(store, appended, firstDate)
    {
      RetainedWrite(store, kept, rows, cancelled, appended, limit, clock, firstDate, cancellationLimit, jsonBytes);
      store := Value(LastOf(store.runs + rows, limit), Some(cancelled));
      appended, clock := appended + rows, firstDate;
    }

    /** The retained Stops fit their limits and are well formed, before and after more rows. */
    predicate CanWrite(rows: seq<Row>, firstDate: int)
      reads `store
    {
      var kept := Retained(store, firstDate, cancellationLimit, jsonBytes);
      kept.Some? && Retained(Value(store.runs + rows, kept), firstDate, cancellationLimit, jsonBytes).Some?
    }

    /** Write the state read at `firstDate` with more rows; Stops are kept before truncation. */
    method Write(kept: seq<string>, rows: seq<Row>, firstDate: int) returns (ok: bool)
      requires Valid() && clock <= firstDate
      requires Retained(store, firstDate, cancellationLimit, jsonBytes) == Some(kept)
      modifies this
      ensures Valid()
      ensures ok ==> appended == old(appended) + rows && clock == firstDate
      ensures ok ==> store.runs == LastOf(old(store).runs + rows, limit)
      ensures ok ==> NoStopLost(store, appended, firstDate)
      ensures ok == Retained(Value(old(store).runs + rows, Some(kept)), firstDate, cancellationLimit, jsonBytes).Some?
      ensures !ok ==> store == old(store) && appended == old(appended) && clock == old(clock)
    {
      var cancelled := RetainedCancellations(Value(store.runs + rows, Some(kept)), firstDate);
      ok := cancelled.Some?;
      if ok { Commit(kept, rows, cancelled.value, firstDate); }
    }

    method RecordMany(entries: seq<Row>, firstDate: int) returns (ok: bool)
      requires Valid() && clock <= firstDate
      modifies this
      ensures Valid()
      ensures ok ==> appended == old(appended) + entries && LastOf(store.runs, |entries|) == entries
      ensures ok && entries != [] ==> NoStopLost(store, appended, firstDate)
      ensures ok <==> entries == [] || (|entries| <= limit && old(CanWrite(entries, firstDate)))
      ensures !ok ==> store == old(store) && appended == old(appended)
    {
      if entries == [] { return true; }
      if |entries| > limit { return false; }
      var kept := RetainedCancellations(store, firstDate);
      if kept == None { return false; }
      ok := Write(kept.value, entries, firstDate);
    }

    /** What stands in the way of a claim: a current Stop first, then the newest row that holds. */
    method Judge(kept: seq<string>, identities: set<string>, firstDate: int) returns (r: Option<ClaimResult>)
      requires Retained(store, firstDate, cancellationLimit, jsonBytes) == Some(kept)
      ensures r.None? ==> forall id :: id in kept ==> id !in identities
      ensures r.None? <==> !AnyStopKept(store, identities, firstDate) && !AnyHolds(store.runs, identities)
      ensures r.Some? ==>
                if AnyStopKept(store, identities, firstDate) then
                  r.value.Stopped? && r.value.id in identities && StopKept(store, r.value.id, firstDate)
                else
                  r.value.Existing? && exists n: nat :: NewestHolder(store.runs, n, identities) && store.runs[n] == r.value.row
    {
      RetainedContents(store, firstDate, cancellationLimit, jsonBytes);
      var stopped := FindStopped(kept, identities);
      if stopped.Some? { return Some(Stopped(stopped.value)); }
      var holder := FindHolder(store.runs, identities);
      r := if holder.Some? then Some(Existing(store.runs[holder.value])) else None;
    }

    /** Claim an occurrence under its own or any legacy identity. A claim that wins proves that
        no current Stop was ever recorded under any of them, and that any row that held the
        occurrence is at least `limit` rows behind the one just written. */
    method Claim(id: string, legacyIds: set<string>, firstDate: int) returns (r: ClaimResult)
      requires Valid() && clock <= firstDate
      modifies this
      ensures Valid()
      ensures r.Won? ==> appended == old(appended) + [Row(id, Claimed)]
      ensures r.Won? ==> forall x :: x in {id} + legacyIds && StoppedIn(old(appended), x) ==> !Current(x, firstDate)
      ensures r.Won? ==> forall k :: 0 <= k < |old(appended)| && Holds(old(appended)[k], {id} + legacyIds) ==> k + limit < |appended|
      ensures !r.Won? ==> store == old(store) && appended == old(appended)
      ensures r.Existing? ==> exists n: nat :: NewestHolder(old(store).runs, n, {id} + legacyIds) && old(store).runs[n] == r.row
      ensures r.Stopped? ==> r.id in {id} + legacyIds && StopKept(old(store), r.id, firstDate)
      ensures var known := Retained(old(store), firstDate, cancellationLimit, jsonBytes).Some?;
              var stopped, held := AnyStopKept(old(store), {id} + legacyIds, firstDate), AnyHolds(old(store).runs, {id} + legacyIds);
              && (r.Stopped? <==> known && stopped)
              && (r.Existing? <==> known && !stopped && held)
              && (r.Won? <==> known && !stopped && !held && old(CanWrite([Row(id, Claimed)], firstDate)))
    {
      var kept := RetainedCancellations(store, firstDate);
      if kept == None { return Refused; }
      var identities := {id} + legacyIds;
      var found := Judge(kept.value, identities, firstDate);
      if found.Some? { return found.value; }
      RetainedContents(store, firstDate, cancellationLimit, jsonBytes);
      NothingMissed(store, kept.value, appended, limit, clock, firstDate, identities);
      var ok := Write(kept.value, [Row(id, Claimed)], firstDate);
      r := if ok then Won else Refused;
    }
  }
}
