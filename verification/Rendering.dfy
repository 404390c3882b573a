/**
 What is drawn on a sheet, and the payload that is hashed to name its files.

 Drawing is a list of commands. Text shaping, fitting and date formatting are functions of the renderer, so
 a command depends on nothing but the texts, weekdays, slots and dates that reach it.
 */
module Rendering {
  import opened Prelude
  import opened Strings
  import opened Calendar
  import opened Sorting
  import opened PlanDomain
  import opened Assignments

  /** The plan as the renderer receives it. */
  datatype Sheet = Sheet(
    student: string, studentId: string, weekStart: Option<Day>, weekEnd: Option<Day>, days: seq<PlanDay>,
    assignments: seq<Assignment>, template: string, version: int)

  datatype Fitted = Fitted(lines: seq<string>, size: int)

  datatype Renderer = Renderer(
    version: string,                              // of the template
    signature: string,                            // of the backend
    normal: string -> string,                     // digits and letters of a drawn text
    numbered: (nat, string) -> string,            // an assignment with its number
    separator: string,
    rules: nat,                                   // ruled assignment lines of the template
    masked: bool,                                 // dates are painted over a mask
    dateText: Day -> string,
    dateSize: (int, string) -> int,
    fitCell: (int, int, seq<string>) -> Fitted,
    fitAssignments: seq<string> -> Fitted)

  datatype Command =
    | Mask(weekday: int)
    | DateLine(weekday: int, text: string, size: int)
    | CellLine(weekday: int, slot: int, index: nat, text: string, size: int, bold: bool)
    | AssignmentLine(index: nat, text: string, size: int)

  // ---------------------------------------------------------------- drawing

  function DateCommands(r: Renderer, day: PlanDay): seq<Command> {
    match day.date
    case None => []
    case Some(d) =>
      var text := r.dateText(d);
      (if r.masked then [Mask(day.weekday)] else []) + [DateLine(day.weekday, text, r.dateSize(day.weekday, text))]
  }

  /** The four drawn parts of a cell and its slot. */
  datatype CellKey = CellKey(slot: int, parts: seq<string>)

  function KeyOf(a: Activity): CellKey { CellKey(a.slot, [a.subject, a.topic, a.description, a.duration]) }

  /** `render_lines`: the stripped parts that are not empty. */
  function RenderLines(parts: seq<string>): seq<string> {
    if parts == [] then [] else (if Strip(parts[0]) == "" then [] else [Strip(parts[0])]) + RenderLines(parts[1..])
  }

  function NormalAll(r: Renderer, lines: seq<string>): seq<string> {
    seq(|lines|, i requires 0 <= i < |lines| => r.normal(lines[i]))
  }

  function KeyCommands(r: Renderer, weekday: int, key: CellKey): seq<Command> {
    var fit := r.fitCell(weekday, key.slot, NormalAll(r, RenderLines(key.parts)));
    var subject := key.parts != [] && Strip(key.parts[0]) != "";
    seq(|fit.lines|, i requires 0 <= i < |fit.lines| =>
      CellLine(weekday, key.slot, i, fit.lines[i], fit.size, subject && i == 0))
  }

  /** The keys of the activities that are not empty, in the order of the list. */
  function Keys(activities: seq<Activity>): seq<CellKey> {
    if activities == [] then []
    else (if activities[0].IsEmpty() then [] else [KeyOf(activities[0])]) + Keys(activities[1..])
  }

  function CellCommands(r: Renderer, weekday: int, keys: seq<CellKey>): seq<Command> {
    if keys == [] then [] else KeyCommands(r, weekday, keys[0]) + CellCommands(r, weekday, keys[1..])
  }

  const OrderOf: Assignment -> int := (a: Assignment) => a.order

  /** The assignment texts in order. */
  function Texts(assignments: seq<Assignment>): seq<string> {
    var sorted := SortBy(OrderOf, assignments);
    seq(|sorted|, i requires 0 <= i < |sorted| => sorted[i].text)
  }

  function NumberedTexts(r: Renderer, texts: seq<string>): seq<string> {
    seq(|texts|, i requires 0 <= i < |texts| => r.numbered(i + 1, texts[i]))
  }

  function AssignmentCommands(r: Renderer, texts: seq<string>): seq<Command> {
    if texts == [] then []
    else
      var fit := r.fitAssignments(JoinAll(LineItems(NumberedTexts(r, texts), r.rules), r.separator));
      var n := if r.rules > 0 && r.rules < |fit.lines| then r.rules else |fit.lines|;
      seq(n, i requires 0 <= i < n => AssignmentLine(i, fit.lines[i], fit.size))
  }

  function AllDates(r: Renderer, days: seq<PlanDay>): seq<Command> {
    if days == [] then [] else DateCommands(r, days[0]) + AllDates(r, days[1..])
  }

  function AllCells(r: Renderer, days: seq<PlanDay>): seq<Command> {
    if days == [] then []
    else CellCommands(r, days[0].weekday, Keys(days[0].activities)) + AllCells(r, days[1..])
  }

  /** Everything drawn for a sheet, in drawing order. */
  function Drawing(r: Renderer, s: Sheet): seq<Command> {
    AllDates(r, s.days) + AllCells(r, s.days) + AssignmentCommands(r, Texts(s.assignments))
  }

  function ActivityCommands(r: Renderer, weekday: int, a: Activity): seq<Command> {
    if a.IsEmpty() then [] else KeyCommands(r, weekday, KeyOf(a))
  }

  lemma CellsOfFirst(r: Renderer, weekday: int, activities: seq<Activity>, j: nat)
    requires j < |activities|
    ensures CellCommands(r, weekday, Keys(activities[j..]))
         == ActivityCommands(r, weekday, activities[j]) + CellCommands(r, weekday, Keys(activities[j + 1..]))
  {
    var a, tail := activities[j], activities[j..];
    assert tail[0] == a && tail[1..] == activities[j + 1..];
    var rest := Keys(activities[j + 1..]);
    if a.IsEmpty() {
      assert Keys(tail) == [] + rest == rest;
      assert [] + CellCommands(r, weekday, rest) == CellCommands(r, weekday, rest);
    } else {
      var keys := [KeyOf(a)] + rest;
      assert keys[0] == KeyOf(a) && keys[1..] == rest;
      assert Keys(tail) == keys;
      assert CellCommands(r, weekday, keys) == KeyCommands(r, weekday, keys[0]) + CellCommands(r, weekday, keys[1..]);
    }
  }

  method DrawDay(r: Renderer, day: PlanDay) returns (drawn: seq<Command>)
    ensures drawn == CellCommands(r, day.weekday, Keys(day.activities))
  {
    drawn := [];
    for j := 0 to |day.activities|
      invariant drawn + CellCommands(r, day.weekday, Keys(day.activities[j..]))
             == CellCommands(r, day.weekday, Keys(day.activities))
    {
      var activity := day.activities[j];
      CellsOfFirst(r, day.weekday, day.activities, j);
      ghost var rest := CellCommands(r, day.weekday, Keys(day.activities[j + 1..]));
      if activity.IsEmpty() {
        assert [] + rest == rest;
        continue;
      }
      var commands := KeyCommands(r, day.weekday, KeyOf(activity));
      ConcatAssoc(drawn, commands, rest);
      drawn := drawn + commands;
    }
    assert Keys(day.activities[|day.activities|..]) == [];
    assert drawn + [] == drawn;
  }

  /** `_draw_cells`, one activity after the other. */
  method DrawCells(r: Renderer, days: seq<PlanDay>) returns (out: seq<Command>)
    ensures out == AllCells(r, days)
  {
    out := [];
    for i := 0 to |days|
      invariant out + AllCells(r, days[i..]) == AllCells(r, days)
    {
      assert days[i..][0] == days[i] && days[i..][1..] == days[i + 1..];
      var drawn := DrawDay(r, days[i]);
      ConcatAssoc(out, drawn, AllCells(r, days[i + 1..]));
      out := out + drawn;
    }
  }

  // ---------------------------------------------------------------- the payload

  /** String comparison by code points. */
  predicate TextLess(a: string, b: string) {
    if b == "" then false
    else if a == "" then true
    else if a[0] != b[0] then a[0] < b[0]
    else TextLess(a[1..], b[1..])
  }

  predicate PartsLess(a: seq<string>, b: seq<string>) {
    if b == [] then false
    else if a == [] then true
    else if a[0] != b[0] then TextLess(a[0], b[0])
    else PartsLess(a[1..], b[1..])
  }

  /** The order in which the cells of the payload are listed. */
  predicate KeyLess(a: CellKey, b: CellKey) {
    a.slot < b.slot || (a.slot == b.slot && PartsLess(a.parts, b.parts))
  }

  const KeyLeq: (CellKey, CellKey) -> bool := (a: CellKey, b: CellKey) => !KeyLess(b, a)

  datatype DayPayload = DayPayload(weekday: int, date: Option<Day>, cells: seq<CellKey>)

  datatype Payload = Payload(
    student: string, weekStart: Option<Day>, weekEnd: Option<Day>, days: seq<DayPayload>,
    assignments: seq<string>, template: string, renderer: string)

  function DayPayloads(days: seq<PlanDay>): seq<DayPayload> {
    seq(|days|, i requires 0 <= i < |days| =>
      DayPayload(days[i].weekday, days[i].date, Sort(KeyLeq, Keys(days[i].activities))))
  }

  /** What `content_hash` hashes. */
  function PayloadOf(r: Renderer, s: Sheet): Payload {
    Payload(s.student, s.weekStart, s.weekEnd, DayPayloads(s.days), Texts(s.assignments), r.version, r.signature)
  }

  lemma {:induction false} TextTrichotomy(a: string, b: string)
    ensures !(TextLess(a, b) && TextLess(b, a))
    ensures a != b ==> TextLess(a, b) || TextLess(b, a)
    ensures !TextLess(a, a)
  {
    if a != "" {
      TextTrichotomy(a[1..], if b == "" then b else b[1..]);
    }
    if a != "" && b != "" && a[0] == b[0] {
      assert a == [a[0]] + a[1..] && b == [b[0]] + b[1..];
    }
  }

  lemma {:induction false} TextTransitive(a: string, b: string, c: string)
    requires TextLess(a, b) && TextLess(b, c)
    ensures TextLess(a, c)
  {
    if a != "" && b != "" && c != "" && a[0] == b[0] == c[0] {
      TextTransitive(a[1..], b[1..], c[1..]);
    }
  }

  lemma {:induction false} PartsTrichotomy(a: seq<string>, b: seq<string>)
    ensures !(PartsLess(a, b) && PartsLess(b, a))
    ensures a != b ==> PartsLess(a, b) || PartsLess(b, a)
    ensures !PartsLess(a, a)
  {
    if a != [] {
      PartsTrichotomy(a[1..], if b == [] then b else b[1..]);
    }
    if a != [] && b != [] {
      TextTrichotomy(a[0], b[0]);
      assert a == [a[0]] + a[1..] && b == [b[0]] + b[1..];
    }
  }

  lemma {:induction false} PartsTransitive(a: seq<string>, b: seq<string>, c: seq<string>)
    requires PartsLess(a, b) && PartsLess(b, c)
    ensures PartsLess(a, c)
  {
    if a != [] {
      if a[0] == b[0] == c[0] {
        PartsTransitive(a[1..], b[1..], c[1..]);
      } else if a[0] != b[0] && b[0] != c[0] {
        TextTransitive(a[0], b[0], c[0]);
        TextTrichotomy(a[0], c[0]);
      }
    }
  }

  lemma KeyTransitive(a: CellKey, b: CellKey, c: CellKey)
    requires KeyLeq(a, b) && KeyLeq(b, c)
    ensures KeyLeq(a, c)
  {
    PartsTrichotomy(a.parts, b.parts);
    PartsTrichotomy(b.parts, c.parts);
    PartsTrichotomy(c.parts, a.parts);
    if a.slot == b.slot == c.slot && PartsLess(a.parts, b.parts) && PartsLess(b.parts, c.parts) {
      PartsTransitive(a.parts, b.parts, c.parts);
    }
  }

  /** The listing order is total, so a listing is determined by what it lists. */
  lemma KeyOrderIsTotal()
    ensures TotalOrder(KeyLeq)
  {
    forall a, b ensures KeyLeq(a, b) || KeyLeq(b, a) {
      PartsTrichotomy(a.parts, b.parts);
    }
    forall a, b | KeyLeq(a, b) && KeyLeq(b, a) ensures a == b {
      PartsTrichotomy(a.parts, b.parts);
    }
    forall a, b, c | KeyLeq(a, b) && KeyLeq(b, c) ensures KeyLeq(a, c) {
      KeyTransitive(a, b, c);
    }
  }
}
