/** What a drawn sheet shows: every part of every activity, every date and every assignment, in its place and in order. */
module SheetContent {
  import opened Prelude
  import opened Strings
  import opened Wrap
  import opened Calendar
  import opened Sorting
  import opened PlanDomain
  import opened Assignments
  import opened Rendering
  import opened RenderCache

  // ---------------------------------------------------------------- parts of a drawing

  /** The commands of one kind, in drawing order. */
  function Only(commands: seq<Command>, keep: Command -> bool): seq<Command> {
    if commands == [] then [] else (if keep(commands[0]) then [commands[0]] else []) + Only(commands[1..], keep)
  }

  lemma {:induction false} OnlyConcat(a: seq<Command>, b: seq<Command>, keep: Command -> bool)
    ensures Only(a + b, keep) == Only(a, keep) + Only(b, keep)
  {
    if a == [] {
      assert a + b == b;
    } else {
      assert (a + b)[0] == a[0] && (a + b)[1..] == a[1..] + b;
      OnlyConcat(a[1..], b, keep);
      ConcatAssoc(if keep(a[0]) then [a[0]] else [], Only(a[1..], keep), Only(b, keep));
    }
  }

  lemma {:induction false} OnlyAll(commands: seq<Command>, keep: Command -> bool)
    ensures (forall c <- commands :: keep(c)) ==> Only(commands, keep) == commands
    ensures (forall c <- commands :: !keep(c)) ==> Only(commands, keep) == []
  {
    if commands != [] {
      OnlyAll(commands[1..], keep);
      assert commands[0] in commands && forall c <- commands[1..] :: c in commands;
      assert commands == [commands[0]] + commands[1..];
    }
  }

  /** The drawing, kind by kind. */
  lemma DrawingParts(r: Renderer, s: Sheet, keep: Command -> bool)
    ensures Only(Drawing(r, s), keep) ==
            Only(AllDates(r, s.days), keep) + Only(AllCells(r, s.days), keep)
            + Only(AssignmentCommands(r, Texts(s.assignments)), keep)
    ensures forall c <- AllDates(r, s.days) :: c.Mask? || c.DateLine?
    ensures forall c <- AllCells(r, s.days) :: c.CellLine?
    ensures forall c <- AssignmentCommands(r, Texts(s.assignments)) :: c.AssignmentLine?
  {
    var dates, cells, tasks := AllDates(r, s.days), AllCells(r, s.days), AssignmentCommands(r, Texts(s.assignments));
    OnlyConcat(dates + cells, tasks, keep);
    OnlyConcat(dates, cells, keep);
    DatesAreNoCells(r, s.days);
    CellsAreCells(r, s.days);
    TasksAreTasks(r, Texts(s.assignments));
    hide AllDates, AllCells, AssignmentCommands, Only;
  }

  // ---------------------------------------------------------------- one activity

  /** A part of an activity as it is shown: stripped, or not at all. */
  function Part(text: string): seq<string> {
    if Strip(text) == "" then [] else [Strip(text)]
  }

  /** All the parts of an activity that hold something, in order. */
  function PartsShown(a: Activity): seq<string> {
    Part(a.subject) + Part(a.topic) + Part(a.description) + Part(a.duration)
  }

  /** The commands of one activity: the fitted lines of its parts, the first one bold when there is a subject. */
  function ActivityLines(r: Renderer, weekday: int, a: Activity): seq<Command> {
    var parts := PartsShown(a);
    var fit := r.fitCell(weekday, a.slot, seq(|parts|, i requires 0 <= i < |parts| => r.normal(parts[i])));
    seq(|fit.lines|, i requires 0 <= i < |fit.lines| =>
      CellLine(weekday, a.slot, i, fit.lines[i], fit.size, i == 0 && Strip(a.subject) != ""))
  }

  lemma RenderLinesCons(part: string, rest: seq<string>)
    ensures RenderLines([part] + rest) == Part(part) + RenderLines(rest)
  {
    assert ([part] + rest)[1..] == rest;
  }

  lemma PartsAreShown(a: Activity)
    ensures RenderLines(KeyOf(a).parts) == PartsShown(a)
    ensures a.IsEmpty() <==> PartsShown(a) == []
  {
    assert a.IsEmpty() <==> PartsShown(a) == [] by {
      hide Strip;
    }
    FourLines(a.subject, a.topic, a.description, a.duration);
    hide RenderLines, Part;
  }

  lemma FourLines(p: string, q: string, r: string, t: string)
    ensures RenderLines([p, q, r, t]) == Part(p) + Part(q) + Part(r) + Part(t)
  {
    RenderLinesCons(p, [q, r, t]);
    RenderLinesCons(q, [r, t]);
    RenderLinesCons(r, [t]);
    RenderLinesCons(t, []);
    assert [p, q, r, t] == [p] + [q, r, t] && [q, r, t] == [q] + [r, t] && [r, t] == [r] + [t] && [t] == [t] + [];
    assert RenderLines([]) == [];
    hide RenderLines, Part;
    ConcatAssoc(Part(p), Part(q), Part(r) + Part(t));
    ConcatAssoc(Part(p) + Part(q), Part(r), Part(t));
    assert Part(t) + [] == Part(t);
  }

  lemma ActivityIsDrawn(r: Renderer, weekday: int, a: Activity)
    ensures ActivityCommands(r, weekday, a) == if PartsShown(a) == [] then [] else ActivityLines(r, weekday, a)
  {
    PartsAreShown(a);
    hide RenderLines, PartsShown, Strip;
    assert NormalAll(r, PartsShown(a)) ==
           seq(|PartsShown(a)|, i requires 0 <= i < |PartsShown(a)| => r.normal(PartsShown(a)[i]));
  }

  lemma {:induction false} FilledMeans(activities: seq<Activity>)
    ensures Filled(activities) > 0 <==> exists a <- activities :: PartsShown(a) != []
  {
    hide PartsShown;
    if activities != [] {
      PartsAreShown(activities[0]);
      FilledMeans(activities[1..]);
      assert forall a :: a in activities <==> a == activities[0] || a in activities[1..];
    }
  }

  lemma {:induction false} SumMeans(days: seq<PlanDay>)
    ensures SumDated(days) > 0 <==> exists d <- days, a <- d.activities :: d.date.Some? && PartsShown(a) != []
  {
    hide PartsShown, Filled;
    if days != [] {
      FilledMeans(days[0].activities);
      SumMeans(days[1..]);
      assert forall d :: d in days <==> d == days[0] || d in days[1..];
    }
  }

  /** A sheet is refused exactly when it lacks a student, a proper week, or a dated activity with something to show. */
  lemma ErrorsMean(s: Sheet)
    ensures HasErrors(s) <==>
            || (s.student == "" && s.studentId == "")
            || !(s.weekStart.Some? && s.weekEnd.Some? && s.weekStart.value < s.weekEnd.value)
            || forall d <- s.days, a <- d.activities :: d.date.None? || PartsShown(a) == []
  {
    SortKeepsSum(ByKey(DateOf), WithDate(s.days));
    SumOfDated(s.days);
    SumMeans(s.days);
    hide PartsShown, SumDated, WithDate;
  }

  // ---------------------------------------------------------------- cells

  predicate IsCell(c: Command, weekday: int, slot: int) { c.CellLine? && c.weekday == weekday && c.slot == slot }

  function CellFilter(weekday: int, slot: int): Command -> bool { c => IsCell(c, weekday, slot) }

  /** The commands for one cell, in drawing order. */
  function CellsAt(commands: seq<Command>, weekday: int, slot: int): seq<Command> {
    Only(commands, CellFilter(weekday, slot))
  }

  /** What the activities of one day draw into one cell. */
  function DayCell(r: Renderer, weekday: int, activities: seq<Activity>, slot: int): seq<Command> {
    if activities == [] then []
    else
      (if activities[0].slot == slot && PartsShown(activities[0]) != [] then ActivityLines(r, weekday, activities[0]) else [])
      + DayCell(r, weekday, activities[1..], slot)
  }

  lemma {:induction false} DayDraws(r: Renderer, w: int, activities: seq<Activity>, weekday: int, slot: int)
    ensures CellsAt(CellCommands(r, w, Keys(activities)), weekday, slot) ==
            if w == weekday then DayCell(r, w, activities, slot) else []
  {
    if activities == [] {
      assert CellCommands(r, w, Keys(activities)) == [];
    } else {
      var a, rest := activities[0], CellCommands(r, w, Keys(activities[1..]));
      assert activities[0..] == activities;
      CellsOfFirst(r, w, activities, 0);
      ActivityIsDrawn(r, w, a);
      LinesAreCells(r, w, a);
      var here := if PartsShown(a) == [] then [] else ActivityLines(r, w, a);
      hide PartsShown, CellCommands, Keys, ActivityCommands, ActivityLines;
      OnlyConcat(here, rest, CellFilter(weekday, slot));
      OnlyAll(here, CellFilter(weekday, slot));
      DayDraws(r, w, activities[1..], weekday, slot);
    }
  }

  lemma LinesAreCells(r: Renderer, weekday: int, a: Activity)
    ensures forall c <- ActivityLines(r, weekday, a) :: IsCell(c, weekday, a.slot)
  {}

  function SheetCell(r: Renderer, days: seq<PlanDay>, weekday: int, slot: int): seq<Command> {
    if days == [] then []
    else (if days[0].weekday == weekday then DayCell(r, weekday, days[0].activities, slot) else [])
         + SheetCell(r, days[1..], weekday, slot)
  }

  lemma {:induction false} DaysDraw(r: Renderer, days: seq<PlanDay>, weekday: int, slot: int)
    ensures CellsAt(AllCells(r, days), weekday, slot) == SheetCell(r, days, weekday, slot)
  {
    hide CellCommands, DayCell, Keys;
    if days != [] {
      var first := CellCommands(r, days[0].weekday, Keys(days[0].activities));
      OnlyConcat(first, AllCells(r, days[1..]), CellFilter(weekday, slot));
      DayDraws(r, days[0].weekday, days[0].activities, weekday, slot);
      DaysDraw(r, days[1..], weekday, slot);
    }
  }

  lemma {:induction false} DatesAreNoCells(r: Renderer, days: seq<PlanDay>)
    ensures forall c <- AllDates(r, days) :: c.Mask? || c.DateLine?
  {
    if days != [] {
      DatesAreNoCells(r, days[1..]);
    }
  }

  lemma {:induction false} CellsAreCells(r: Renderer, days: seq<PlanDay>)
    ensures forall c <- AllCells(r, days) :: c.CellLine?
  {
    if days != [] {
      KeysAreCells(r, days[0].weekday, Keys(days[0].activities));
      CellsAreCells(r, days[1..]);
    }
  }

  lemma {:induction false} KeysAreCells(r: Renderer, weekday: int, keys: seq<CellKey>)
    ensures forall c <- CellCommands(r, weekday, keys) :: c.CellLine?
  {
    if keys != [] {
      KeysAreCells(r, weekday, keys[1..]);
    }
  }

  lemma SheetDraws(r: Renderer, s: Sheet, weekday: int, slot: int)
    ensures CellsAt(Drawing(r, s), weekday, slot) == SheetCell(r, s.days, weekday, slot)
  {
    var keep := CellFilter(weekday, slot);
    DrawingParts(r, s, keep);
    OnlyAll(AllDates(r, s.days), keep);
    OnlyAll(AssignmentCommands(r, Texts(s.assignments)), keep);
    DaysDraw(r, s.days, weekday, slot);
    hide AllDates, AllCells, AssignmentCommands, Only, Drawing;
  }

  lemma TasksAreTasks(r: Renderer, texts: seq<string>)
    ensures forall c <- AssignmentCommands(r, texts) :: c.AssignmentLine?
  {}

  /** One row per weekday, one activity per slot and row. */
  predicate OnePerCell(s: Sheet) {
    (forall i, j :: 0 <= i < j < |s.days| ==> s.days[i].weekday != s.days[j].weekday) && AllSlotOrdered(s.days)
  }

  lemma {:induction false} OneActivity(r: Renderer, weekday: int, activities: seq<Activity>, i: nat)
    requires SlotOrdered(activities) && i < |activities|
    ensures DayCell(r, weekday, activities, activities[i].slot) ==
            if PartsShown(activities[i]) == [] then [] else ActivityLines(r, weekday, activities[i])
  {
    hide PartsShown, ActivityLines;
    var slot := activities[i].slot;
    assert forall k :: 0 <= k < |activities| ==> SlotOf(activities[k]) == activities[k].slot;
    if i > 0 {
      assert SlotOf(activities[0]) < SlotOf(activities[i]);
      OneActivity(r, weekday, activities[1..], i - 1);
    } else {
      forall a | a in activities[1..] ensures a.slot != slot {
        var k :| 0 <= k < |activities[1..]| && activities[1..][k] == a;
        assert SlotOf(activities[0]) < SlotOf(activities[k + 1]);
      }
      NoActivity(r, weekday, activities[1..], slot);
    }
  }

  lemma {:induction false} NoActivity(r: Renderer, weekday: int, activities: seq<Activity>, slot: int)
    requires forall a <- activities :: a.slot != slot
    ensures DayCell(r, weekday, activities, slot) == []
  {
    if activities != [] {
      assert activities[0] in activities;
      NoActivity(r, weekday, activities[1..], slot);
    }
  }

  lemma {:induction false} NoRow(r: Renderer, days: seq<PlanDay>, weekday: int, slot: int)
    requires forall d <- days :: d.weekday != weekday
    ensures SheetCell(r, days, weekday, slot) == []
  {
    if days != [] {
      assert days[0] in days;
      NoRow(r, days[1..], weekday, slot);
    }
  }

  lemma {:induction false} OneRow(r: Renderer, days: seq<PlanDay>, i: nat, slot: int)
    requires i < |days| && forall i, j :: 0 <= i < j < |days| ==> days[i].weekday != days[j].weekday
    ensures SheetCell(r, days, days[i].weekday, slot) == DayCell(r, days[i].weekday, days[i].activities, slot)
  {
    if i > 0 {
      OneRow(r, days[1..], i - 1, slot);
    } else {
      NoRow(r, days[1..], days[0].weekday, slot);
    }
  }

  /** Into the cell of an activity its parts are drawn, and nothing else; an activity without parts draws nothing. */
  lemma CellShowsActivity(r: Renderer, s: Sheet, i: nat, j: nat)
    requires OnePerCell(s) && i < |s.days| && j < |s.days[i].activities|
    ensures var day := s.days[i];
            var a := day.activities[j];
            CellsAt(Drawing(r, s), day.weekday, a.slot) ==
            if PartsShown(a) == [] then [] else ActivityLines(r, day.weekday, a)
  {
    var day := s.days[i];
    hide Drawing, PartsShown, ActivityLines;
    SheetDraws(r, s, day.weekday, day.activities[j].slot);
    OneRow(r, s.days, i, day.activities[j].slot);
    OneActivity(r, day.weekday, day.activities, j);
  }

  /** A cell without an activity stays empty. */
  lemma OtherCellsAreEmpty(r: Renderer, s: Sheet, weekday: int, slot: int)
    requires forall d <- s.days, a <- d.activities :: d.weekday != weekday || a.slot != slot
    ensures CellsAt(Drawing(r, s), weekday, slot) == []
  {
    SheetDraws(r, s, weekday, slot);
    NothingInCell(r, s.days, weekday, slot);
  }

  lemma {:induction false} NothingInCell(r: Renderer, days: seq<PlanDay>, weekday: int, slot: int)
    requires forall d <- days, a <- d.activities :: d.weekday != weekday || a.slot != slot
    ensures SheetCell(r, days, weekday, slot) == []
  {
    if days != [] {
      assert days[0] in days;
      if days[0].weekday == weekday {
        NoActivity(r, weekday, days[0].activities, slot);
      }
      NothingInCell(r, days[1..], weekday, slot);
    }
  }

  // ---------------------------------------------------------------- ink

  /** The fitting moves text to lines and sizes, but loses and adds none. */
  ghost predicate KeepsInk(r: Renderer) {
    && (forall weekday, slot, lines :: InkOf(r.fitCell(weekday, slot, lines).lines) == InkOf(lines))
    && (forall lines :: InkOf(r.fitAssignments(lines).lines) == InkOf(lines))
  }

  /** Normalising replaces no character by nothing and adds none. */
  ghost predicate NormalKeepsInk(r: Renderer) { forall t :: Ink(r.normal(t)) == Ink(t) }

  function CellTexts(commands: seq<Command>): seq<string>
    requires forall c <- commands :: c.CellLine?
  {
    seq(|commands|, i requires 0 <= i < |commands| => commands[i].text)
  }

  lemma PartInk(text: string)
    ensures InkOf(Part(text)) == Ink(text)
  {
    InkStrip(text);
    InkOfLine(Strip(text));
    assert Part(text) == Line(Strip(text));
  }

  lemma PartsInk(a: Activity)
    ensures InkOf(PartsShown(a)) == Ink(a.subject) + Ink(a.topic) + Ink(a.description) + Ink(a.duration)
  {
    hide Ink, InkOf, Part;
    PartInk(a.subject);
    PartInk(a.topic);
    PartInk(a.description);
    PartInk(a.duration);
    InkOfConcat(Part(a.subject) + Part(a.topic) + Part(a.description), Part(a.duration));
    InkOfConcat(Part(a.subject) + Part(a.topic), Part(a.description));
    InkOfConcat(Part(a.subject), Part(a.topic));
  }

  lemma {:induction false} NormalInk(r: Renderer, lines: seq<string>)
    requires NormalKeepsInk(r)
    ensures InkOf(NormalAll(r, lines)) == InkOf(lines)
  {
    if lines != [] {
      assert NormalAll(r, lines)[1..] == NormalAll(r, lines[1..]);
      NormalInk(r, lines[1..]);
      InkOfCons(lines);
      InkOfCons(NormalAll(r, lines));
    } else {
      assert NormalAll(r, lines) == [];
    }
  }

  lemma LinesAreFit(r: Renderer, weekday: int, a: Activity)
    ensures forall c <- ActivityLines(r, weekday, a) :: c.CellLine?
    ensures CellTexts(ActivityLines(r, weekday, a)) == r.fitCell(weekday, a.slot, NormalAll(r, PartsShown(a))).lines
  {
    hide PartsShown;
    assert NormalAll(r, PartsShown(a)) ==
           seq(|PartsShown(a)|, i requires 0 <= i < |PartsShown(a)| => r.normal(PartsShown(a)[i]));
  }

  lemma DrawnInk(r: Renderer, weekday: int, a: Activity)
    requires KeepsInk(r) && NormalKeepsInk(r)
    ensures var drawn := if PartsShown(a) == [] then [] else ActivityLines(r, weekday, a);
            && (forall c <- drawn :: c.CellLine?)
            && InkOf(CellTexts(drawn)) == Ink(a.subject) + Ink(a.topic) + Ink(a.description) + Ink(a.duration)
  {
    PartsInk(a);
    LinesAreFit(r, weekday, a);
    NormalInk(r, PartsShown(a));
    assert CellTexts([]) == [];
    hide PartsShown, ActivityLines, Ink, InkOf, NormalAll, NormalKeepsInk, CellTexts;
  }

  /** A cell carries exactly the ink of its activity, in order: subject, topic, description, duration. */
  lemma CellCarriesInk(r: Renderer, s: Sheet, i: nat, j: nat)
    requires OnePerCell(s) && i < |s.days| && j < |s.days[i].activities| && KeepsInk(r) && NormalKeepsInk(r)
    ensures var day := s.days[i];
            var a := day.activities[j];
            var drawn := CellsAt(Drawing(r, s), day.weekday, a.slot);
            && (forall c <- drawn :: c.CellLine?)
            && InkOf(CellTexts(drawn)) == Ink(a.subject) + Ink(a.topic) + Ink(a.description) + Ink(a.duration)
  {
    CellShowsActivity(r, s, i, j);
    DrawnInk(r, s.days[i].weekday, s.days[i].activities[j]);
    hide Drawing, PartsShown, ActivityLines, CellsAt, Ink, InkOf, OnePerCell, NormalKeepsInk, KeepsInk, CellTexts;
  }

  // ---------------------------------------------------------------- dates

  predicate IsDateOf(c: Command, weekday: int) {
    (c.Mask? && c.weekday == weekday) || (c.DateLine? && c.weekday == weekday)
  }

  function DateFilter(weekday: int): Command -> bool { c => IsDateOf(c, weekday) }

  /** The masks and date lines of one row, in drawing order. */
  function DatesAt(commands: seq<Command>, weekday: int): seq<Command> { Only(commands, DateFilter(weekday)) }

  /** What has to be drawn for a date: the mask, if dates are masked, and one line with the date's text. */
  function DateShown(r: Renderer, weekday: int, date: Option<Day>): seq<Command> {
    match date
    case None => []
    case Some(d) =>
      var line := DateLine(weekday, r.dateText(d), r.dateSize(weekday, r.dateText(d)));
      if r.masked then [Mask(weekday), line] else [line]
  }

  lemma OneDate(r: Renderer, day: PlanDay, weekday: int)
    ensures DatesAt(DateCommands(r, day), weekday) == if day.weekday == weekday then DateShown(r, weekday, day.date) else []
  {
    if day.date.Some? {
      var text := r.dateText(day.date.value);
      var mask, line := Mask(day.weekday), DateLine(day.weekday, text, r.dateSize(day.weekday, text));
      OnlyConcat([mask], [line], DateFilter(weekday));
      OnlyAll([mask], DateFilter(weekday));
      OnlyAll([line], DateFilter(weekday));
      assert [mask] + [line] == [mask, line];
      assert DateCommands(r, day) == if r.masked then [mask] + [line] else [line];
    }
  }

  lemma {:induction false} DatesDrawn(r: Renderer, days: seq<PlanDay>, i: nat)
    requires i < |days| && forall i, j :: 0 <= i < j < |days| ==> days[i].weekday != days[j].weekday
    ensures DatesAt(AllDates(r, days), days[i].weekday) == DateShown(r, days[i].weekday, days[i].date)
  {
    hide DateShown, DateCommands;
    OnlyConcat(DateCommands(r, days[0]), AllDates(r, days[1..]), DateFilter(days[i].weekday));
    OneDate(r, days[0], days[i].weekday);
    if i > 0 {
      DatesDrawn(r, days[1..], i - 1);
    } else {
      OtherDates(r, days[1..], days[0].weekday);
    }
  }

  lemma {:induction false} OtherDates(r: Renderer, days: seq<PlanDay>, weekday: int)
    requires forall d <- days :: d.weekday != weekday
    ensures DatesAt(AllDates(r, days), weekday) == []
  {
    hide DateShown, DateCommands;
    if days != [] {
      assert days[0] in days;
      OnlyConcat(DateCommands(r, days[0]), AllDates(r, days[1..]), DateFilter(weekday));
      OneDate(r, days[0], weekday);
      OtherDates(r, days[1..], weekday);
    }
  }

  lemma OnlyDatesShowDates(r: Renderer, s: Sheet, weekday: int)
    ensures DatesAt(Drawing(r, s), weekday) == DatesAt(AllDates(r, s.days), weekday)
  {
    var keep := DateFilter(weekday);
    DrawingParts(r, s, keep);
    OnlyAll(AllCells(r, s.days), keep);
    OnlyAll(AssignmentCommands(r, Texts(s.assignments)), keep);
    hide AllDates, AllCells, AssignmentCommands, Only, Drawing;
  }

  /** Every dated row shows its own date once, after its mask; an undated row shows none. */
  lemma RowShowsDate(r: Renderer, s: Sheet, i: nat)
    requires OnePerCell(s) && i < |s.days|
    ensures DatesAt(Drawing(r, s), s.days[i].weekday) == DateShown(r, s.days[i].weekday, s.days[i].date)
  {
    hide Drawing, DateShown, DatesAt;
    OnlyDatesShowDates(r, s, s.days[i].weekday);
    DatesDrawn(r, s.days, i);
  }

  // ---------------------------------------------------------------- assignments

  const TaskFilter: Command -> bool := (c: Command) => c.AssignmentLine?

  /** The assignment lines, in drawing order. */
  function TasksIn(commands: seq<Command>): seq<Command> { Only(commands, TaskFilter) }

  lemma OnlyTasksAreTasks(r: Renderer, s: Sheet)
    ensures TasksIn(Drawing(r, s)) == AssignmentCommands(r, Texts(s.assignments))
  {
    DrawingParts(r, s, TaskFilter);
    OnlyAll(AllDates(r, s.days), TaskFilter);
    OnlyAll(AllCells(r, s.days), TaskFilter);
    OnlyAll(AssignmentCommands(r, Texts(s.assignments)), TaskFilter);
    hide AllDates, AllCells, AssignmentCommands, Only, Drawing;
  }

  /** All the assignments, by rising order. */
  predicate Listed(items: seq<Assignment>, assignments: seq<Assignment>) {
    multiset(items) == multiset(assignments) && forall i, j :: 0 <= i < j < |items| ==> items[i].order <= items[j].order
  }

  function Numbered(r: Renderer, items: seq<Assignment>): seq<string> {
    seq(|items|, i requires 0 <= i < |items| => r.numbered(i + 1, items[i].text))
  }

  function Joined(groups: seq<seq<string>>, separator: string): seq<string> {
    seq(|groups|, i requires 0 <= i < |groups| => Join(groups[i], separator))
  }

  /** The lines that fit on the rules; without rules all of them. */
  function OnRules(r: Renderer, lines: seq<string>): seq<string> {
    if 0 < r.rules < |lines| then lines[..r.rules] else lines
  }

  function TaskLines(lines: seq<string>, size: int): seq<Command> {
    seq(|lines|, i requires 0 <= i < |lines| => AssignmentLine(i, lines[i], size))
  }

  lemma SortedTexts(r: Renderer, assignments: seq<Assignment>) returns (items: seq<Assignment>)
    ensures Listed(items, assignments) && NumberedTexts(r, Texts(assignments)) == Numbered(r, items)
    ensures |items| == |assignments| == |Texts(assignments)|
  {
    items := SortBy(OrderOf, assignments);
    SortMultiset(ByKey(OrderOf), assignments);
    assert TotalPreorder(ByKey(OrderOf));
    SortSorted(ByKey(OrderOf), assignments);
    forall i, j | 0 <= i < j < |items| ensures items[i].order <= items[j].order {
      assert ByKey(OrderOf)(items[i], items[j]);
    }
  }

  /** The numbered assignments are joined in groups, one after the other, no more than there are rules, and then fitted. */
  lemma AssignmentsAreDrawn(r: Renderer, s: Sheet) returns (items: seq<Assignment>, groups: seq<seq<string>>)
    requires s.assignments != []
    ensures Listed(items, s.assignments) && Flatten(groups) == Numbered(r, items)
    ensures |groups| <= (if r.rules < 1 then 1 else r.rules) && [] !in groups
    ensures var fit := r.fitAssignments(Joined(groups, r.separator));
            TasksIn(Drawing(r, s)) == TaskLines(OnRules(r, fit.lines), fit.size)
  {
    OnlyTasksAreTasks(r, s);
    items := SortedTexts(r, s.assignments);
    groups := LineItems(Numbered(r, items), r.rules);
    NothingDropped(Numbered(r, items), r.rules);
    assert JoinAll(groups, r.separator) == Joined(groups, r.separator);
    hide LineItems, Texts, Drawing, TasksIn, NumberedTexts;
  }

  /** No assignments, no lines. */
  lemma NoAssignmentsNoLines(r: Renderer, s: Sheet)
    requires s.assignments == []
    ensures TasksIn(Drawing(r, s)) == []
  {
    OnlyTasksAreTasks(r, s);
    var items := SortedTexts(r, s.assignments);
  }

  lemma {:induction false} InkJoin(parts: seq<string>, separator: string)
    requires Ink(separator) == ""
    ensures Ink(Join(parts, separator)) == InkOf(parts)
  {
    if |parts| == 1 {
      InkOfCons(parts);
    } else if |parts| > 1 {
      InkOfCons(parts);
      InkJoin(parts[1..], separator);
      InkConcat(parts[0] + separator, Join(parts[1..], separator));
      InkConcat(parts[0], separator);
    }
  }

  lemma {:induction false} InkJoined(groups: seq<seq<string>>, separator: string)
    requires Ink(separator) == ""
    ensures InkOf(Joined(groups, separator)) == InkOf(Flatten(groups))
  {
    if groups == [] {
      assert Joined(groups, separator) == [];
    } else {
      assert Joined(groups, separator)[1..] == Joined(groups[1..], separator);
      InkOfCons(Joined(groups, separator));
      InkJoin(groups[0], separator);
      InkJoined(groups[1..], separator);
      InkOfConcat(groups[0], Flatten(groups[1..]));
    }
  }

  function TaskTexts(commands: seq<Command>): seq<string>
    requires forall c <- commands :: c.AssignmentLine?
  {
    seq(|commands|, i requires 0 <= i < |commands| => commands[i].text)
  }

  /**
   With a separator of white space the assignment lines carry the ink of all the numbered assignments, in order, exactly
   when the fitted lines beyond the last rule carry none.
   */
  lemma AssignmentsCarryInk(r: Renderer, s: Sheet) returns (items: seq<Assignment>, lines: seq<string>)
    requires s.assignments != [] && KeepsInk(r) && Ink(r.separator) == ""
    ensures Listed(items, s.assignments) && InkOf(lines) == InkOf(Numbered(r, items))
    ensures forall c <- TasksIn(Drawing(r, s)) :: c.AssignmentLine?
    ensures TaskTexts(TasksIn(Drawing(r, s))) == OnRules(r, lines)
    ensures InkOf(TaskTexts(TasksIn(Drawing(r, s)))) == InkOf(Numbered(r, items))
       <==> (0 < r.rules < |lines| ==> InkOf(lines[r.rules..]) == "")
  {
    var groups;
    items, groups := AssignmentsAreDrawn(r, s);
    InkJoined(groups, r.separator);
    lines := r.fitAssignments(Joined(groups, r.separator)).lines;
    var size := r.fitAssignments(Joined(groups, r.separator)).size;
    hide Drawing, TasksIn, InkOf, Joined, Numbered, TaskTexts, TaskLines, OnRules, Listed;
    LinesHaveTexts(OnRules(r, lines), size);
    RulesKeepInk(r, lines);
  }

  lemma LinesHaveTexts(lines: seq<string>, size: int)
    ensures forall c <- TaskLines(lines, size) :: c.AssignmentLine?
    ensures TaskTexts(TaskLines(lines, size)) == lines
  {}

  lemma RulesKeepInk(r: Renderer, lines: seq<string>)
    ensures InkOf(OnRules(r, lines)) == InkOf(lines) <==> (0 < r.rules < |lines| ==> InkOf(lines[r.rules..]) == "")
  {
    hide InkOf;
    if 0 < r.rules < |lines| {
      assert lines == lines[..r.rules] + lines[r.rules..];
      InkOfConcat(lines[..r.rules], lines[r.rules..]);
    }
  }
}
