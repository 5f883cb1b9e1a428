/** What the planning normaliser accepts, and the class segments that follow from it. */
module ClassSegments {
  import opened Ordering
  import opened Planning
  import opened Values

  // ------------------------------------------------------------------ input

  datatype DateText = Blank | Invalid | On(day: int)

  /** None stands for a field that does not parse. */
  datatype RawBlock = RawBlock(id: string, kind: Option<BlockKind>, period: string, classId: string,
                               start: Option<int>, end: Option<int>, cycleDays: seq<string>)
  datatype RawTable = RawTable(id: string, name: string, blocks: seq<RawBlock>)
  datatype RawDate = RawDate(date: Option<int>, status: Option<Status>, cycleDay: string, timetableId: string)
  datatype RawPlan = RawPlan(enabled: bool, startDate: DateText, endDate: DateText, weekdays: seq<int>,
                             timetables: seq<RawTable>, defaultTimetableId: string, dates: seq<RawDate>)

  predicate IdText(s: string) {
    1 <= |s| <= 80 && forall k :: 0 <= k < |s| ==>
      'a' <= s[k] <= 'z' || 'A' <= s[k] <= 'Z' || '0' <= s[k] <= '9' || s[k] in "._-"
  }

  // ------------------------------------------------------------- acceptance

  predicate BlockValid(b: RawBlock, letters: seq<string>) {
    && IdText(b.id) && b.kind.Some? && |b.period| <= 40
    && !(b.kind == Some(Class) && b.period == "" && b.classId == "")
    && (b.classId == "" || IdText(b.classId))
    && b.start.Some? && b.end.Some? && b.start.value < b.end.value
    && (forall k :: 0 <= k < |b.cycleDays| ==> b.cycleDays[k] in letters)
  }

  function NormalBlock(b: RawBlock): Block
    requires b.kind.Some? && b.start.Some? && b.end.Some?
  {
    Block(b.id, b.kind.value, b.period, b.classId, b.start.value, b.end.value, b.cycleDays)
  }

  predicate Overlap(a: Block, b: Block) { a.start < b.end && b.start < a.end }

  predicate SameSeries(a: Block, b: Block) {
    if a.classId != "" then a.classId == b.classId else b.classId == "" && a.period == b.period
  }

  predicate ShareDay(a: Block, b: Block) {
    a.cycleDays == [] || b.cycleDays == [] || exists d :: d in a.cycleDays && d in b.cycleDays
  }

  predicate Clash(a: Block, b: Block) {
    a.kind.Class? && b.kind.Class? && a.id != b.id && SameSeries(a, b) && ShareDay(a, b) && Overlap(a, b)
  }

  predicate NoClash(blocks: seq<Block>) {
    forall i, j :: 0 <= i < |blocks| && 0 <= j < |blocks| ==> !Clash(blocks[i], blocks[j])
  }

  predicate DistinctIds(blocks: seq<Block>) {
    forall i, j :: 0 <= i < j < |blocks| ==> blocks[i].id != blocks[j].id
  }

  predicate BlocksValid(raw: seq<RawBlock>, letters: seq<string>) {
    forall i :: 0 <= i < |raw| ==> BlockValid(raw[i], letters)
  }

  function NormalBlocks(raw: seq<RawBlock>, letters: seq<string>): (r: seq<Block>)
    requires BlocksValid(raw, letters)
    ensures |r| == |raw| && forall i :: 0 <= i < |raw| ==> r[i] == NormalBlock(raw[i])
  {
    seq(|raw|, i requires 0 <= i < |raw| && BlockValid(raw[i], letters) => NormalBlock(raw[i]))
  }

  predicate TableValid(t: RawTable, letters: seq<string>) {
    && IdText(t.id) && 1 <= |t.name| <= 120 && 1 <= |t.blocks| <= 200
    && BlocksValid(t.blocks, letters)
    && DistinctIds(NormalBlocks(t.blocks, letters)) && NoClash(NormalBlocks(t.blocks, letters))
  }

  /** What every accepted timetable keeps. */
  predicate TableOk(t: Timetable) {
    && DistinctIds(t.blocks) && NoClash(t.blocks)
    && (forall i :: 0 <= i < |t.blocks| ==> t.blocks[i].start < t.blocks[i].end)
  }

  /** Does a later block clash with an earlier one, or the other way round? */
  method HasClash(blocks: seq<Block>) returns (clash: bool)
    ensures clash <==> !NoClash(blocks)
  {
    for i := 0 to |blocks|
      invariant forall k, j :: 0 <= k < i && 0 <= j < |blocks| ==> !Clash(blocks[k], blocks[j])
    {
      if blocks[i].kind.Class? {
        for j := 0 to |blocks|
          invariant forall k :: 0 <= k < j ==> !Clash(blocks[i], blocks[k])
        {
          if Clash(blocks[i], blocks[j]) { return true; }
        }
      }
    }
    return false;
  }

  method NormalizeTable(t: RawTable, letters: seq<string>) returns (r: Option<Timetable>)
    ensures r.Some? <==> TableValid(t, letters)
    ensures r.Some? ==> r.value == Timetable(t.id, NormalBlocks(t.blocks, letters)) && TableOk(r.value)
  {
    if !IdText(t.id) || |t.name| == 0 || |t.name| > 120 || |t.blocks| == 0 || |t.blocks| > 200 { return None; }
    var blockIds: set<string> := {};
    var blocks: seq<Block> := [];
    for k := 0 to |t.blocks|
      invariant |blocks| == k && BlocksValid(t.blocks[..k], letters)
      invariant forall i :: 0 <= i < k ==> blocks[i] == NormalBlock(t.blocks[i])
      invariant blockIds == set i | 0 <= i < k :: blocks[i].id
      invariant DistinctIds(blocks)
    {
      if !BlockValid(t.blocks[k], letters) { return None; }
      if t.blocks[k].id in blockIds {
        var i :| 0 <= i < k && blocks[i].id == t.blocks[k].id;
        RepeatedId(t, letters, i, k);
        return None;
      }
      blocks := blocks + [NormalBlock(t.blocks[k])];
      blockIds := blockIds + {t.blocks[k].id};
    }
    assert t.blocks[..|t.blocks|] == t.blocks;
    assert blocks == NormalBlocks(t.blocks, letters);
    var clash := HasClash(blocks);
    if clash { return None; }
    r := Some(Timetable(t.id, blocks));
  }

  lemma RepeatedId(t: RawTable, letters: seq<string>, i: nat, k: nat)
    requires i < k < |t.blocks| && t.blocks[i].id == t.blocks[k].id
    ensures !TableValid(t, letters)
  {
    if BlocksValid(t.blocks, letters) {
      assert NormalBlocks(t.blocks, letters)[i].id == NormalBlocks(t.blocks, letters)[k].id;
    }
  }

  // -------------------------------------------------------------- the profile

  predicate DatesOrdered(a: DateText, b: DateText) {
    (a.Blank? && b.Blank?) || (a.On? && b.On? && a.day <= b.day)
  }

  function Day(d: DateText): Option<int> { if d.On? then Some(d.day) else None }

  predicate DateValid(d: RawDate, ids: set<string>, letters: seq<string>) {
    && d.date.Some? && d.status.Some?
    && (d.cycleDay == "" || d.cycleDay in letters) && (d.timetableId == "" || d.timetableId in ids)
  }

  function TableIds(tables: seq<RawTable>): set<string> {
    set i | 0 <= i < |tables| :: tables[i].id
  }

  predicate TablesValid(raw: seq<RawTable>, letters: seq<string>) {
    && (forall i :: 0 <= i < |raw| ==> TableValid(raw[i], letters))
    && (forall i, j :: 0 <= i < j < |raw| ==> raw[i].id != raw[j].id)
  }

  predicate DatesValid(raw: seq<RawDate>, ids: set<string>, letters: seq<string>) {
    forall i :: 0 <= i < |raw| ==> DateValid(raw[i], ids, letters)
  }

  predicate PlanValid(raw: RawPlan, letters: seq<string>) {
    && DatesOrdered(raw.startDate, raw.endDate)
    && raw.weekdays != [] && (forall i :: 0 <= i < |raw.weekdays| ==> 0 <= raw.weekdays[i] <= 6)
    && |raw.timetables| <= 50
    && TablesValid(raw.timetables, letters)
    && (raw.defaultTimetableId == "" || raw.defaultTimetableId in TableIds(raw.timetables))
    && |raw.dates| <= 2000
    && DatesValid(raw.dates, TableIds(raw.timetables), letters)
  }

  /** The newest statement about its date. */
  predicate IsLast(dates: seq<RawDate>, i: nat)
    requires i < |dates|
  {
    forall j :: i < j < |dates| ==> dates[j].date != dates[i].date
  }

  /** The date is overridden as stated: with its status, cycle day and timetable. */
  predicate Overrides(dates: map<int, Override>, d: RawDate) {
    && d.date.Some? && d.status.Some? && d.date.value in dates
    && dates[d.date.value] == Override(d.status.value, d.cycleDay, d.timetableId)
  }

  /** The overrides are for exactly the dates stated, each as last stated. */
  ghost predicate AsStated(dates: map<int, Override>, raw: seq<RawDate>) {
    && (forall d :: d in dates <==> exists i :: 0 <= i < |raw| && raw[i].date == Some(d))
    && (forall i :: 0 <= i < |raw| && IsLast(raw, i) ==> Overrides(dates, raw[i]))
  }

  lemma StatedOnce(dates: map<int, Override>, raw: seq<RawDate>, d: RawDate)
    requires AsStated(dates, raw) && d.date.Some? && d.status.Some?
    ensures AsStated(dates[d.date.value := Override(d.status.value, d.cycleDay, d.timetableId)], raw + [d])
  {
    var all, next := raw + [d], dates[d.date.value := Override(d.status.value, d.cycleDay, d.timetableId)];
    assert all[|raw|] == d && forall j :: 0 <= j < |raw| ==> all[j] == raw[j];
    forall i | 0 <= i < |all| && IsLast(all, i)
      ensures Overrides(next, all[i])
    {
      if i < |raw| { assert all[|raw|].date != all[i].date && IsLast(raw, i); }
    }
    StatedDates(dates, raw, d);
  }

  lemma StatedDates(dates: map<int, Override>, raw: seq<RawDate>, d: RawDate)
    requires AsStated(dates, raw) && d.date.Some? && d.status.Some?
    ensures var next := dates[d.date.value := Override(d.status.value, d.cycleDay, d.timetableId)];
            forall x :: x in next <==> exists i :: 0 <= i < |raw + [d]| && (raw + [d])[i].date == Some(x)
  {
    var all := raw + [d];
    forall x
      ensures x in dates || x == d.date.value <==> exists i :: 0 <= i < |all| && all[i].date == Some(x)
    {
      if x in dates {
        var i :| 0 <= i < |raw| && raw[i].date == Some(x);
        assert all[i].date == Some(x);
      }
      if x == d.date.value { assert all[|raw|].date == Some(x); }
    }
  }

  predicate PlanOk(p: Plan) {
    forall i :: 0 <= i < |p.timetables| ==> TableOk(p.timetables[i])
  }

  method NormalizeTables(raw: seq<RawTable>, letters: seq<string>) returns (r: Option<seq<Timetable>>, ids: set<string>)
    ensures r.Some? <==> TablesValid(raw, letters)
    ensures r.Some? ==> ids == TableIds(raw) && |r.value| == |raw|
    ensures r.Some? ==> forall i :: 0 <= i < |raw| ==>
                          TableOk(r.value[i]) && r.value[i] == Timetable(raw[i].id, NormalBlocks(raw[i].blocks, letters))
  {
    ids := {};
    var tables: seq<Timetable> := [];
    for k := 0 to |raw|
      invariant |tables| == k && ids == set i | 0 <= i < k :: raw[i].id
      invariant forall i :: 0 <= i < k ==>
                  TableValid(raw[i], letters) && TableOk(tables[i]) && tables[i] == Timetable(raw[i].id, NormalBlocks(raw[i].blocks, letters))
      invariant forall i, j :: 0 <= i < j < k ==> raw[i].id != raw[j].id
    {
      if raw[k].id in ids { return None, ids; }
      var table := NormalizeTable(raw[k], letters);
      if table.None? { return None, ids; }
      ids := ids + {raw[k].id};
      tables := tables + [table.value];
    }
    r := Some(tables);
  }

  method NormalizeDates(raw: seq<RawDate>, ids: set<string>, letters: seq<string>) returns (r: Option<map<int, Override>>)
    ensures r.Some? <==> DatesValid(raw, ids, letters)
    ensures r.Some? ==> AsStated(r.value, raw)
  {
    var dates: map<int, Override> := map[];
    for k := 0 to |raw|
      invariant forall i :: 0 <= i < k ==> DateValid(raw[i], ids, letters)
      invariant AsStated(dates, raw[..k])
    {
      var d := raw[k];
      if !DateValid(d, ids, letters) { return None; }
      StatedOnce(dates, raw[..k], d);
      assert raw[..k + 1] == raw[..k] + [d];
      dates := dates[d.date.value := Override(d.status.value, d.cycleDay, d.timetableId)];
    }
    assert raw[..|raw|] == raw;
    r := Some(dates);
  }

  /** Accepts exactly the valid plans, every timetable it lets through is clash-free, and every
      date is overridden as last stated. */
  method NormalizePlanning(raw: RawPlan, letters: seq<string>) returns (r: Option<Plan>)
    ensures r.Some? <==> PlanValid(raw, letters)
    ensures r.Some? ==>
              && PlanOk(r.value) && r.value.enabled == raw.enabled && r.value.weekdays == (set d | d in raw.weekdays)
              && r.value.startDate == Day(raw.startDate) && r.value.endDate == Day(raw.endDate)
              && r.value.defaultTimetableId == raw.defaultTimetableId && |r.value.timetables| == |raw.timetables|
              && (forall i :: 0 <= i < |raw.timetables| ==>
                    r.value.timetables[i] == Timetable(raw.timetables[i].id, NormalBlocks(raw.timetables[i].blocks, letters)))
              && AsStated(r.value.dates, raw.dates)
  {
    if !DatesOrdered(raw.startDate, raw.endDate) || raw.weekdays == [] { return None; }
    for k := 0 to |raw.weekdays|
      invariant forall i :: 0 <= i < k ==> 0 <= raw.weekdays[i] <= 6
    {
      if raw.weekdays[k] < 0 || raw.weekdays[k] > 6 { return None; }
    }
    if |raw.timetables| > 50 { return None; }
    var tables, ids := NormalizeTables(raw.timetables, letters);
    if tables.None? { return None; }
    if raw.defaultTimetableId != "" && raw.defaultTimetableId !in ids { return None; }
    if |raw.dates| > 2000 { return None; }
    var dates := NormalizeDates(raw.dates, ids, letters);
    if dates.None? { return None; }
    r := Some(Plan(raw.enabled, Day(raw.startDate), Day(raw.endDate), (set d | d in raw.weekdays),
                   raw.defaultTimetableId, tables.value, dates.value));
  }

  // ---------------------------------------------------------------- segments

  datatype Segment = Segment(start: int, end: int, segmentId: string)

  function FindTable(tables: seq<Timetable>, id: string): (r: Option<Timetable>)
    ensures r.Some? ==> r.value in tables && r.value.id == id
    ensures r.None? ==> forall t :: t in tables ==> t.id != id
  {
    if tables == [] then None
    else if tables[0].id == id then Some(tables[0])
    else FindTable(tables[1..], id)
  }

  function TimetableForDate(p: Profile, c: Calendar, day: int): Option<Timetable> {
    if p.planning.None? || !p.planning.value.enabled then None
    else
      var plan := p.planning.value;
      var chosen := if day in plan.dates then plan.dates[day].timetableId else "";
      if chosen == "" && day in c.legacyDates then None
      else FindTable(plan.timetables, if chosen != "" then chosen else plan.defaultTimetableId)
  }

  /** May the block be in force on a date with this letter? */
  predicate Eligible(b: Block, letter: Option<string>) {
    b.kind.Class? && (b.cycleDays == [] || (letter.Some? && letter.value in b.cycleDays))
  }

  /** Two blocks share a day exactly if there is a cycle day on which both take place. */
  lemma ShareDayIff(a: Block, b: Block)
    requires a.kind.Class? && b.kind.Class?
    ensures ShareDay(a, b) <==> exists letter: string :: Eligible(a, Some(letter)) && Eligible(b, Some(letter))
  {
    if ShareDay(a, b) {
      var letter := if a.cycleDays == [] && b.cycleDays == [] then ""
                    else if a.cycleDays == [] then b.cycleDays[0]
                    else if b.cycleDays == [] then a.cycleDays[0]
                    else var d :| d in a.cycleDays && d in b.cycleDays; d;
      assert Eligible(a, Some(letter)) && Eligible(b, Some(letter));
    }
  }

  predicate Exact(b: Block, letter: Option<string>, classId: string) {
    Eligible(b, letter) && b.classId == classId
  }

  predicate ByPeriod(b: Block, letter: Option<string>, period: string) {
    Eligible(b, letter) && b.classId == "" && b.period == period
  }

  function Keep(blocks: seq<Block>, keep: Block -> bool): seq<Segment> {
    if blocks == [] then []
    else (if keep(blocks[0]) then [Segment(blocks[0].start, blocks[0].end, blocks[0].id)] else [])
         + Keep(blocks[1..], keep)
  }

  function StartOf(s: Segment): int { s.start }

  predicate Earlier(a: int, b: int) { a < b }

  function SortByStart(segments: seq<Segment>): seq<Segment> {
    Sort(segments, StartOf, Earlier)
  }

  function SegmentsOf(blocks: seq<Block>, classId: string, period: string, letter: Option<string>): seq<Segment> {
    var exact := Keep(blocks, (b: Block) => Exact(b, letter, classId));
    SortByStart(if exact != [] then exact else Keep(blocks, (b: Block) => ByPeriod(b, letter, period)))
  }

  /** None without a timetable; Error when the cycle cannot be computed. */
  function ClassSegmentsOn(p: Profile, c: Calendar, classId: string, period: string, day: int): Result<Option<seq<Segment>>> {
    var table := TimetableForDate(p, c, day);
    if table.None? then Ok(None)
    else
      var cycle := CycleOn(p, c, day);
      if cycle.Error? then Error
      else
        var letter := if cycle.value.Cycle? then cycle.value.cycleDay else None;
        Ok(Some(SegmentsOf(table.value.blocks, classId, period, letter)))
  }

  // -------------------------------------------------------------- disjointness

  predicate Apart(a: Segment, b: Segment) { a.end <= b.start || b.end <= a.start }

  predicate AllApart(s: seq<Segment>) {
    forall i, j :: 0 <= i < j < |s| ==> Apart(s[i], s[j])
  }

  predicate Proper(s: seq<Segment>) {
    forall i :: 0 <= i < |s| ==> s[i].start < s[i].end
  }

  /** Non-empty intervals in order, each over before the next begins. */
  predicate Disjoint(s: seq<Segment>) {
    Proper(s) && forall i, j :: 0 <= i < j < |s| ==> s[i].end <= s[j].start
  }

  lemma ApartStarts(s: seq<Segment>)
    requires AllApart(s) && Proper(s)
    ensures DistinctKeys(s, StartOf)
  {
    forall i, j | 0 <= i < j < |s|
      ensures StartOf(s[i]) != StartOf(s[j])
    {
      assert Apart(s[i], s[j]);
    }
  }

  /** Sorting keeps the segments, and those that lay apart end up one after the other. */
  lemma SortKeeps(s: seq<Segment>)
    requires AllApart(s) && Proper(s)
    ensures Disjoint(SortByStart(s)) && multiset(SortByStart(s)) == multiset(s)
  {
    var t := SortByStart(s);
    ApartStarts(s);
    SameDistinct(s, t, StartOf);
    SameMembers(s, t);
    SortSorts(s, StartOf, Earlier);
    forall i | 0 <= i < |t|
      ensures t[i].start < t[i].end
    {
      assert t[i] in s;
    }
    forall i, j | 0 <= i < j < |t|
      ensures t[i].end <= t[j].start
    {
      assert t[i] in s && t[j] in s;
      var m, n :| 0 <= m < |s| && 0 <= n < |s| && s[m] == t[i] && s[n] == t[j];
      assert StartOf(t[i]) != StartOf(t[j]) && !Earlier(StartOf(t[j]), StartOf(t[i]));
      assert m < n ==> Apart(s[m], s[n]);
      assert n < m ==> Apart(s[n], s[m]);
    }
  }

  /** Kept blocks that never overlap pairwise leave segments apart. */
  lemma {:induction false} KeepApart(blocks: seq<Block>, keep: Block -> bool)
    requires forall i, j :: 0 <= i < j < |blocks| && keep(blocks[i]) && keep(blocks[j]) ==> !Overlap(blocks[i], blocks[j])
    requires forall i :: 0 <= i < |blocks| ==> blocks[i].start < blocks[i].end
    ensures AllApart(Keep(blocks, keep)) && Proper(Keep(blocks, keep))
    ensures forall x :: x in Keep(blocks, keep) ==>
              exists i :: 0 <= i < |blocks| && keep(blocks[i]) && x == Segment(blocks[i].start, blocks[i].end, blocks[i].id)
  {
    if blocks != [] {
      var rest := Keep(blocks[1..], keep);
      KeepApart(blocks[1..], keep);
      forall n | 0 <= n < |rest| && keep(blocks[0])
        ensures Apart(Segment(blocks[0].start, blocks[0].end, blocks[0].id), rest[n])
      {
        assert rest[n] in rest;
        var i :| 0 <= i < |blocks[1..]| && keep(blocks[1..][i])
          && rest[n] == Segment(blocks[1..][i].start, blocks[1..][i].end, blocks[1..][i].id);
        assert !Overlap(blocks[0], blocks[i + 1]);
      }
      forall x | x in Keep(blocks, keep)
        ensures exists i :: 0 <= i < |blocks| && keep(blocks[i]) && x == Segment(blocks[i].start, blocks[i].end, blocks[i].id)
      {
        if x in rest {
          var i :| 0 <= i < |blocks[1..]| && keep(blocks[1..][i])
            && x == Segment(blocks[1..][i].start, blocks[1..][i].end, blocks[1..][i].id);
          assert keep(blocks[i + 1]);
        } else {
          assert keep(blocks[0]);
        }
      }
    }
  }

  /** Two blocks in force for one class on one date were checked against each other. */
  lemma SelectedWereChecked(t: Timetable, letter: Option<string>, i: nat, j: nat)
    requires TableOk(t) && i < j < |t.blocks|
    requires Eligible(t.blocks[i], letter) && Eligible(t.blocks[j], letter) && SameSeries(t.blocks[i], t.blocks[j])
    ensures !Overlap(t.blocks[i], t.blocks[j])
  {
    assert t.blocks[i].id != t.blocks[j].id;
    assert !Clash(t.blocks[i], t.blocks[j]);
  }

  /** A clash-free timetable gives every class with an id ordered, separate segments, and
      sorting loses none. */
  lemma SegmentsDisjoint(t: Timetable, classId: string, period: string, letter: Option<string>)
    requires TableOk(t) && classId != ""
    ensures Disjoint(SegmentsOf(t.blocks, classId, period, letter))
    ensures var exact := Keep(t.blocks, (b: Block) => Exact(b, letter, classId));
            multiset(SegmentsOf(t.blocks, classId, period, letter))
            == multiset(if exact != [] then exact else Keep(t.blocks, (b: Block) => ByPeriod(b, letter, period)))
  {
    var byId, byPeriod := (b: Block) => Exact(b, letter, classId), (b: Block) => ByPeriod(b, letter, period);
    forall i, j | 0 <= i < j < |t.blocks| && ((byId(t.blocks[i]) && byId(t.blocks[j])) || (byPeriod(t.blocks[i]) && byPeriod(t.blocks[j])))
      ensures !Overlap(t.blocks[i], t.blocks[j])
    {
      SelectedWereChecked(t, letter, i, j);
    }
    KeepApart(t.blocks, byId);
    KeepApart(t.blocks, byPeriod);
    var chosen := if Keep(t.blocks, byId) != [] then Keep(t.blocks, byId) else Keep(t.blocks, byPeriod);
    SortKeeps(chosen);
  }

  /** Every accepted plan, every class with an id, every date. */
  lemma AcceptedPlansGiveDisjointSegments(p: Profile, c: Calendar, classId: string, period: string, day: int)
    requires p.planning.Some? && PlanOk(p.planning.value) && classId != ""
    ensures var r := ClassSegmentsOn(p, c, classId, period, day);
            r.Ok? && r.value.Some? ==> Disjoint(r.value.value)
  {
    var table := TimetableForDate(p, c, day);
    var cycle := CycleOn(p, c, day);
    if table.Some? && cycle.Ok? {
      assert TableOk(table.value);
      SegmentsDisjoint(table.value, classId, period, if cycle.value.Cycle? then cycle.value.cycleDay else None);
    }
  }

  /** No order of two overlapping segments is disjoint. */
  lemma OverlapRemains(x: Segment, y: Segment, t: seq<Segment>)
    requires multiset(t) == multiset([x, y]) && x != y && !Apart(x, y)
    ensures !Disjoint(t)
  {
    SameMembers(t, [x, y]);
    assert t[0] in [x, y] && t[1] in [x, y] && [x, y][0] in t && [x, y][1] in t;
  }

  /** Two periods may overlap, and a class without an id matches the blocks of both. */
  const TWO_PERIODS := RawTable("t", "Two periods", [
    RawBlock("a", Some(Class), "1", "", Some(480), Some(540), []),
    RawBlock("b", Some(Class), "2", "", Some(500), Some(560), [])])

  lemma TwoPeriodsAccepted(letters: seq<string>)
    ensures TableValid(TWO_PERIODS, letters)
    ensures NormalBlocks(TWO_PERIODS.blocks, letters) == [Block("a", Class, "1", "", 480, 540, []), Block("b", Class, "2", "", 500, 560, [])]
  {
    var raw := TWO_PERIODS.blocks;
    assert raw[0].period[0] != raw[1].period[0] && raw[0].id[0] != raw[1].id[0];
    var blocks := NormalBlocks(raw, letters);
    assert blocks == [Block("a", Class, "1", "", 480, 540, []), Block("b", Class, "2", "", 500, 560, [])];
    assert !SameSeries(blocks[0], blocks[1]) && !SameSeries(blocks[1], blocks[0]);
  }

  lemma BothKept(a: Block, b: Block, keep: Block -> bool)
    requires keep(a) && keep(b)
    ensures Keep([a, b], keep) == [Segment(a.start, a.end, a.id), Segment(b.start, b.end, b.id)]
  {
    assert [a, b][1..] == [b] && [b][1..] == [];
    assert Keep([b], keep) == [Segment(b.start, b.end, b.id)];
  }

  /** The normaliser accepts this timetable, and its segments overlap. */
  lemma EmptyIdMixesPeriods(letters: seq<string>, period: string, letter: Option<string>)
    ensures TableValid(TWO_PERIODS, letters)
    ensures !Disjoint(SegmentsOf(NormalBlocks(TWO_PERIODS.blocks, letters), "", period, letter))
  {
    TwoPeriodsAccepted(letters);
    var blocks := NormalBlocks(TWO_PERIODS.blocks, letters);
    BothKept(blocks[0], blocks[1], (b: Block) => Exact(b, letter, ""));
    var x, y := Segment(480, 540, "a"), Segment(500, 560, "b");
    OverlapRemains(x, y, SortByStart([x, y]));
  }

  lemma AcceptedIsOk(raw: RawTable, letters: seq<string>)
    requires TableValid(raw, letters)
    ensures TableOk(Timetable(raw.id, NormalBlocks(raw.blocks, letters)))
  {
    assert forall i :: 0 <= i < |raw.blocks| ==> BlockValid(raw.blocks[i], letters);
  }

  /** The class id is exactly what the disjointness of segments hangs on, over all timetables
      the normaliser accepts. */
  lemma DisjointForAllTablesIffId(letters: seq<string>, classId: string, period: string, letter: Option<string>)
    ensures (forall raw: RawTable :: TableValid(raw, letters) ==>
               Disjoint(SegmentsOf(NormalBlocks(raw.blocks, letters), classId, period, letter))) <==> classId != ""
  {
    if classId == "" {
      EmptyIdMixesPeriods(letters, period, letter);
    } else {
      forall raw: RawTable | TableValid(raw, letters)
        ensures Disjoint(SegmentsOf(NormalBlocks(raw.blocks, letters), classId, period, letter))
      {
        AcceptedIsOk(raw, letters);
        SegmentsDisjoint(Timetable(raw.id, NormalBlocks(raw.blocks, letters)), classId, period, letter);
      }
    }
  }
}
