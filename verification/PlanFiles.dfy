/**
 Stored plans and their files together: what the image a plan points to shows, whatever is edited, generated, drawn again
 or served from the cache in between, for this plan and for others.
 */
module PlanFiles {
  import opened Prelude
  import opened Calendar
  import opened PlanDomain
  import opened Rendering
  import opened RenderCache
  import PlanStore

  type Stored = PlanStore.State

  type Content = PlanStore.Content

  /** What a sheet takes from outside the plan's content. */
  datatype Head = Head(
    student: string, studentId: string, weekStart: Option<Day>, weekEnd: Option<Day>, dates: map<int, Day>, template: string)

  /** Where the files of a record lie, and the head they were drawn with. */
  datatype Shown = Shown(path: string, head: Head)

  /** A plan row; `shown[i]` belongs to the file record `stored.files[i]`. */
  datatype Item = Item(head: Head, stored: Stored, shown: seq<Shown>)

  /** All plans, and every request to the generator so far; the files on disk are those the requests left. */
  datatype World = World(plans: map<int, Item>, requests: seq<Request>)

  datatype Event =
    | Open(id: int, head: Head, weekdays: set<int>)
    | ChangeHead(id: int, head: Head)
    | Edit(id: int, step: PlanStore.Step)
    | Render(id: int, force: bool)
    | Drop(id: int)

  // ---------------------------------------------------------------- the sheet of a stored plan

  lemma SomeElement<T>(s: set<T>) returns (x: T)
    requires s != {}
    ensures x in s
  {
    x :| x in s;
  }

  lemma LeastExists(s: set<int>)
    requires s != {}
    ensures exists m :: m in s && forall x <- s :: m <= x
  {
    var x := SomeElement(s);
    var rest := s - {x};
    var least := x;
    if rest != {} {
      LeastExists(rest);
      var m :| m in rest && forall y <- rest :: m <= y;
      least := if x < m then x else m;
    }
    forall y | y in s ensures least <= y {
      assert y == x || y in rest;
    }
    assert least in s;
  }

  /** The elements of a set in ascending order. */
  ghost function Ascending(s: set<int>): (r: seq<int>)
    ensures forall x :: x in r <==> x in s
    ensures forall i, j :: 0 <= i < j < |r| ==> r[i] < r[j]
  {
    if s == {} then []
    else
      LeastExists(s);
      var m :| m in s && forall x <- s :: m <= x;
      [m] + Ascending(s - {m})
  }

  function ActivityOf(slot: int, c: PlanStore.Cell): Activity {
    Activity(slot, c.subject, c.topic, c.description, c.duration, c.notes)
  }

  /** The cells of a day in slot order. */
  ghost function Activities(slots: PlanStore.Slots): seq<Activity> {
    var order := Ascending(slots.Keys);
    seq(|order|, i requires 0 <= i < |order| => ActivityOf(order[i], slots[order[i]]))
  }

  ghost function DayRow(head: Head, content: Content, weekday: int): PlanDay {
    PlanDay(weekday, if weekday in head.dates then Some(head.dates[weekday]) else None,
            Activities(PlanStore.SlotsOf(content, weekday)))
  }

  /** The seven rows in order, and the assignments in the order they are stored. */
  ghost function SheetOf(head: Head, version: int, content: Content): Sheet {
    Sheet(
      head.student, head.studentId, head.weekStart, head.weekEnd,
      seq(7, w requires 0 <= w < 7 => DayRow(head, content, w)),
      seq(|content.assignments|, i requires 0 <= i < |content.assignments| => Assignment(content.assignments[i], i)),
      head.template, version)
  }

  lemma SheetIsOrdered(head: Head, version: int, content: Content)
    ensures AllSlotOrdered(SheetOf(head, version, content).days)
  {}

  // ---------------------------------------------------------------- steps

  /** What is stored after the generator has run: the resolved template and a new record. */
  function Recorded(n: Naming, item: Item, path: string): Item {
    Item(Resolved(n, item.head), PlanStore.Apply(item.stored, PlanStore.Generate), item.shown + [Shown(path, item.head)])
  }

  /** The template version the generator reports is stored with the plan. */
  function Resolved(n: Naming, head: Head): Head { head.(template := n.rendererFor(head.template).version) }

  ghost function SheetFor(item: Item): Sheet { SheetOf(item.head, item.stored.version, item.stored.content) }

  /** One step; a step that raises changes nothing. */
  ghost function Apply(n: Naming, w: World, e: Event): World {
    match e
    case Open(id, head, weekdays) =>
      if id in w.plans then w else w.(plans := w.plans[id := Item(head, PlanStore.Created(weekdays), [])])
    case ChangeHead(id, head) =>
      if id !in w.plans then w else w.(plans := w.plans[id := w.plans[id].(head := head)])
    case Edit(id, step) =>
      if id !in w.plans || step.Generate? then w
      else w.(plans := w.plans[id := w.plans[id].(stored := PlanStore.Apply(w.plans[id].stored, step))])
    case Render(id, force) =>
      if id !in w.plans || HasErrors(SheetFor(w.plans[id])) then w
      else
        var sheet := SheetFor(w.plans[id]);
        World(w.plans[id := Recorded(n, w.plans[id], n.PathOf(sheet))], w.requests + [Request(sheet, force)])
    case Drop(id) => w.(plans := w.plans - {id})
  }

  ghost function Run(n: Naming, events: seq<Event>): World
    decreases |events|
  {
    if events == [] then World(map[], []) else Apply(n, Run(n, events[..|events| - 1]), events[|events| - 1])
  }

  // ---------------------------------------------------------------- what every run keeps

  /** The sheet record `i` was drawn from. */
  ghost function RecordSheet(item: Item, i: nat): Sheet
    requires i < |item.shown| && i < |item.stored.files|
  {
    SheetOf(item.shown[i].head, item.stored.files[i].version, item.stored.files[i].rendered)
  }

  /** The record was made for a request without errors, and points to the path of its sheet. */
  ghost predicate WasAsked(n: Naming, requests: seq<Request>, item: Item, i: nat)
    requires i < |item.shown| && i < |item.stored.files|
  {
    && item.shown[i].path == n.PathOf(RecordSheet(item, i)) && !HasErrors(RecordSheet(item, i))
    && exists q <- requests :: q.sheet == RecordSheet(item, i)
  }

  ghost predicate ItemOk(n: Naming, requests: seq<Request>, item: Item) {
    && PlanStore.Consistent(item.stored)
    && |item.shown| == |item.stored.files|
    && (item.stored.status == PlanStore.Generated ==>
          var last := |item.stored.files| - 1;
          last >= 0 && item.stored.files[last] == PlanStore.FileRecord(item.stored.version, item.stored.content))
    && forall i :: 0 <= i < |item.shown| ==> WasAsked(n, requests, item, i)
  }

  ghost predicate Ok(n: Naming, w: World) {
    forall id <- w.plans :: ItemOk(n, w.requests, w.plans[id])
  }

  lemma AskedStays(n: Naming, requests: seq<Request>, q: Request, item: Item)
    requires ItemOk(n, requests, item)
    ensures ItemOk(n, requests + [q], item)
  {
    hide PlanStore.Consistent;
    forall i | 0 <= i < |item.shown| ensures WasAsked(n, requests + [q], item, i) {
      assert WasAsked(n, requests, item, i);
      var p :| p in requests && p.sheet == RecordSheet(item, i);
      assert p in requests + [q];
    }
  }

  /** Editing leaves the records alone. */
  lemma EditKeepsItem(n: Naming, requests: seq<Request>, item: Item, step: PlanStore.Step)
    requires ItemOk(n, requests, item) && !step.Generate?
    ensures ItemOk(n, requests, item.(stored := PlanStore.Apply(item.stored, step)))
  {
    var after := item.(stored := PlanStore.Apply(item.stored, step));
    PlanStore.StepKeepsConsistent(item.stored, step);
    assert after.stored.files == item.stored.files;
    hide PlanStore.Consistent;
    forall i | 0 <= i < |after.shown| ensures WasAsked(n, requests, after, i) {
      assert WasAsked(n, requests, item, i);
    }
  }

  lemma HeadKeepsItem(n: Naming, requests: seq<Request>, item: Item, head: Head)
    requires ItemOk(n, requests, item)
    ensures ItemOk(n, requests, item.(head := head))
  {
    hide PlanStore.Consistent;
    forall i | 0 <= i < |item.shown| ensures WasAsked(n, requests, item.(head := head), i) {
      assert WasAsked(n, requests, item, i);
    }
  }

  lemma RenderKeepsItem(n: Naming, requests: seq<Request>, item: Item, force: bool)
    requires ItemOk(n, requests, item) && !HasErrors(SheetFor(item))
    ensures ItemOk(n, requests + [Request(SheetFor(item), force)], Recorded(n, item, n.PathOf(SheetFor(item))))
  {
    var q := Request(SheetFor(item), force);
    var after := Recorded(n, item, n.PathOf(q.sheet));
    PlanStore.StepKeepsConsistent(item.stored, PlanStore.Generate);
    AskedStays(n, requests, q, item);
    hide PlanStore.Consistent, HasErrors, SheetOf, Naming.PathOf;
    forall i | 0 <= i < |after.shown| ensures WasAsked(n, requests + [q], after, i) {
      if i < |item.shown| {
        assert WasAsked(n, requests + [q], item, i);
      } else {
        assert RecordSheet(after, i) == q.sheet && q in requests + [q];
      }
    }
  }

  lemma StepKeepsOk(n: Naming, w: World, e: Event)
    requires Ok(n, w)
    ensures Ok(n, Apply(n, w, e))
  {
    hide ItemOk, HasErrors, SheetFor, Recorded, Naming.PathOf;
    match e
    case Open(id, head, weekdays) =>
      NewItem(n, w.requests, head, weekdays);
    case ChangeHead(id, head) =>
      if id in w.plans {
        HeadKeepsItem(n, w.requests, w.plans[id], head);
      }
    case Edit(id, step) =>
      if id in w.plans && !step.Generate? {
        EditKeepsItem(n, w.requests, w.plans[id], step);
      }
    case Render(id, force) =>
      if id in w.plans && !HasErrors(SheetFor(w.plans[id])) {
        RenderKeepsItem(n, w.requests, w.plans[id], force);
        forall k | k in w.plans ensures ItemOk(n, w.requests + [Request(SheetFor(w.plans[id]), force)], w.plans[k]) {
          AskedStays(n, w.requests, Request(SheetFor(w.plans[id]), force), w.plans[k]);
        }
      }
    case Drop(id) =>
  }

  lemma NewItem(n: Naming, requests: seq<Request>, head: Head, weekdays: set<int>)
    ensures ItemOk(n, requests, Item(head, PlanStore.Created(weekdays), []))
  {}

  lemma {:induction false} RunsAreOk(n: Naming, events: seq<Event>)
    ensures Ok(n, Run(n, events))
    decreases |events|
  {
    hide Ok, Apply;
    if events != [] {
      RunsAreOk(n, events[..|events| - 1]);
      StepKeepsOk(n, Run(n, events[..|events| - 1]), events[|events| - 1]);
    } else {
      NoPlans(n);
    }
  }

  lemma NoPlans(n: Naming)
    ensures Ok(n, World(map[], []))
  {}

  // ---------------------------------------------------------------- what the files show

  ghost function FilesOf(n: Naming, w: World): Store { RenderCache.Run(n, w.requests) }

  /** The file is there, and what was drawn into it is what the sheet calls for, command by command. */
  ghost predicate Shows(n: Naming, files: Store, path: string, sheet: Sheet) {
    path in files && n.Drawn(files[path]) == n.Drawn(sheet)
  }

  /** All requested sheets were sheets of stored plans. */
  lemma {:induction false} RequestsAreOrdered(n: Naming, events: seq<Event>)
    ensures forall q <- Run(n, events).requests :: AllSlotOrdered(q.sheet.days)
    decreases |events|
  {
    hide AllSlotOrdered, SheetOf, HasErrors, Naming.PathOf, Recorded;
    if events != [] {
      var init := Run(n, events[..|events| - 1]);
      var e := events[|events| - 1];
      RequestsAreOrdered(n, events[..|events| - 1]);
      if e.Render? && e.id in init.plans {
        var item := init.plans[e.id];
        SheetIsOrdered(item.head, item.stored.version, item.stored.content);
      }
    }
  }

  /**
   In every run without collisions, and for every record of every plan: the file it points to shows the content that
   version had, under the head of that time, no matter what was edited, generated or drawn again since.
   */
  lemma EveryRecordStaysTrue(n: Naming, events: seq<Event>, id: int, i: nat)
    requires n.Sound() && CollisionFree(n, Run(n, events).requests)
    requires id in Run(n, events).plans && i < |Run(n, events).plans[id].stored.files|
    ensures var item := Run(n, events).plans[id];
            && i < |item.shown|
            && Shows(n, FilesOf(n, Run(n, events)), item.shown[i].path, RecordSheet(item, i))
  {
    var w := Run(n, events);
    var item := w.plans[id];
    RunsAreOk(n, events);
    RequestsAreOrdered(n, events);
    assert ItemOk(n, w.requests, item);
    assert WasAsked(n, w.requests, item, i);
    hide Run, Ok, ItemOk, HasErrors, CollisionFree, AllSlotOrdered, RecordSheet, Naming.PathOf, Naming.Drawn, Naming.Sound, RenderCache.Run;
    var q :| q in w.requests && q.sheet == RecordSheet(item, i);
    FilesStayTrue(n, w.requests, q);
    StoredFilesHaveSources(n, w.requests);
    var p :| p in w.requests && p.sheet == RenderCache.Run(n, w.requests)[n.PathOf(q.sheet)];
  }

  /** A template version stands for the renderer that reports it. */
  ghost predicate Resolves(n: Naming) {
    forall t :: n.rendererFor(n.rendererFor(t).version) == n.rendererFor(t)
  }

  /**
   In every run without collisions: while a plan counts as generated and its head has not changed since, the image it
   points to shows its present content.
   */
  lemma GeneratedPlansAreCurrent(n: Naming, events: seq<Event>, id: int)
    requires n.Sound() && Resolves(n) && CollisionFree(n, Run(n, events).requests)
    requires id in Run(n, events).plans && Run(n, events).plans[id].stored.status == PlanStore.Generated
    ensures var item := Run(n, events).plans[id];
            && item.shown != []
            && var last := item.shown[|item.shown| - 1];
               item.head == Resolved(n, last.head) ==> Shows(n, FilesOf(n, Run(n, events)), last.path, SheetFor(item))
  {
    var w := Run(n, events);
    var item := w.plans[id];
    RunsAreOk(n, events);
    LastRecord(n, w, id);
    var last := |item.shown| - 1;
    EveryRecordStaysTrue(n, events, id, last);
    hide Run, Ok, CollisionFree, FilesOf, Shows, SheetFor, RecordSheet;
    if item.head == Resolved(n, item.shown[last].head) {
      CurrentShows(n, FilesOf(n, w), item);
    }
  }

  lemma LastRecord(n: Naming, w: World, id: int)
    requires Ok(n, w) && id in w.plans && w.plans[id].stored.status == PlanStore.Generated
    ensures HasLast(w.plans[id])
  {
    assert ItemOk(n, w.requests, w.plans[id]);
    hide PlanStore.Consistent, WasAsked;
  }

  /** The last record is of the present version and content. */
  ghost predicate HasLast(item: Item) {
    && |item.shown| == |item.stored.files| > 0
    && item.stored.files[|item.shown| - 1] == PlanStore.FileRecord(item.stored.version, item.stored.content)
  }

  lemma CurrentShows(n: Naming, files: Store, item: Item)
    requires Resolves(n) && HasLast(item)
    requires var last := |item.shown| - 1;
             item.head == Resolved(n, item.shown[last].head) && Shows(n, files, item.shown[last].path, RecordSheet(item, last))
    ensures Shows(n, files, item.shown[|item.shown| - 1].path, SheetFor(item))
  {
    hide SheetOf, Resolved, Resolves, Naming.Drawn;
    SameDrawing(n, item.shown[|item.shown| - 1].head, item.stored.version, item.stored.content);
  }

  lemma SameDrawing(n: Naming, head: Head, version: int, content: Content)
    requires Resolves(n)
    ensures n.Drawn(SheetOf(Resolved(n, head), version, content)) == n.Drawn(SheetOf(head, version, content))
  {
    var a, b := SheetOf(Resolved(n, head), version, content), SheetOf(head, version, content);
    assert a.days == b.days;
    assert a == b.(template := a.template);
    assert n.rendererFor(a.template) == n.rendererFor(b.template);
  }
}
