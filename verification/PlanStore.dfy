/**
 The stored plan: edits start a new version once files exist, generated files are only ever appended, and files of
 one version always show the same content. A step that raises is rolled back with its transaction.
 */
module PlanStore {
  import opened Prelude
  import opened Strings

  datatype Status = Draft | Ready | Generated | Sent | Archived

  datatype Cell = Cell(subject: string, topic: string, description: string, duration: string, notes: string)
  {
    /** The domain's notion: notes alone do not fill a cell. */
    predicate IsEmpty() {
      Strip(subject) == "" && Strip(topic) == "" && Strip(description) == "" && Strip(duration) == ""
    }

    /** The store's notion: a cell is kept when any of its five texts holds something. */
    predicate IsBlank() { IsEmpty() && Strip(notes) == "" }
  }

  type Slots = map<int, Cell>

  /** What a rendering shows: the cells of the stored days and the assignments. */
  datatype Content = Content(days: map<int, Slots>, assignments: seq<string>)

  /** One generated version; `rendered` is the content the files were drawn from. */
  datatype FileRecord = FileRecord(version: int, rendered: Content)

  datatype State = State(version: int, status: Status, content: Content, files: seq<FileRecord>)

  datatype Step =
    | SetSlot(weekday: int, slot: int, cell: Option<Cell>)
    | ClearDay(weekday: int)
    | CopyDay(src: int, dst: int)
    | CopyWeek(previous: Option<Content>)
    | SetAssignments(texts: seq<string>)
    | Generate
    | MarkSent

  // ---------------------------------------------------------------- the specification

  /** Editing a generated or sent plan starts a new draft version. */
  function Bumped(s: State): State {
    if s.status == Generated || s.status == Sent then s.(version := s.version + 1, status := Draft) else s
  }

  function NonBlank(slots: Slots): Slots { map k | k in slots && !slots[k].IsBlank() :: slots[k] }

  function NonEmpty(slots: Slots): Slots { map k | k in slots && !slots[k].IsEmpty() :: slots[k] }

  function SlotsOf(c: Content, weekday: int): Slots { if weekday in c.days then c.days[weekday] else map[] }

  function WithDay(c: Content, weekday: int, slots: Slots): Content { c.(days := c.days[weekday := slots]) }

  /** The day rows after the weekdays below `upTo` have been filled from another plan. */
  function WeekCopied(days: map<int, Slots>, source: Content, upTo: int): map<int, Slots> {
    map w | w in days :: if 0 <= w < upTo then NonEmpty(SlotsOf(source, w)) else days[w]
  }

  /** Stripped assignment texts, without the empty ones. */
  function CleanTexts(texts: seq<string>): seq<string> {
    if texts == [] then []
    else (if Strip(texts[0]) == "" then [] else [Strip(texts[0])]) + CleanTexts(texts[1..])
  }

  /** The content an edit leaves behind; a missing day row is an error as soon as a cell has to go there. */
  function Edited(c: Content, step: Step): Option<Content> {
    match step
    case SetSlot(weekday, slot, cell) =>
      if weekday !in c.days then None
      else
        var rest := c.days[weekday] - {slot};
        Some(WithDay(c, weekday, if cell.None? || cell.value.IsEmpty() then rest else rest[slot := cell.value]))
    case ClearDay(weekday) =>
      Some(if weekday in c.days then WithDay(c, weekday, map[]) else c)
    case CopyDay(src, dst) =>
      if !(0 <= src < 7 && 0 <= dst < 7) then None
      else if dst in c.days then Some(WithDay(c, dst, NonBlank(SlotsOf(c, src))))
      else if SlotsOf(c, src) == map[] then Some(c)
      else None
    case CopyWeek(previous) =>
      if previous.None? then Some(c)
      else if exists w :: 0 <= w < 7 && w !in c.days && NonEmpty(SlotsOf(previous.value, w)) != map[] then None
      else Some(Content(
                  WeekCopied(c.days, previous.value, 7),
                  CleanTexts(previous.value.assignments)))
    case SetAssignments(texts) => Some(c.(assignments := CleanTexts(texts)))
    case _ => Some(c)
  }

  /** One step; a step that raises leaves the stored plan as it was. */
  function Apply(s: State, step: Step): State {
    match step
    case Generate => s.(status := Generated, files := s.files + [FileRecord(s.version, s.content)])
    case MarkSent => s.(status := Sent)
    case CopyWeek(None) => s
    case _ =>
      (match Edited(s.content, step)
       case None => s
       case Some(content) => Bumped(s).(content := content))
  }

  // ---------------------------------------------------------------- what the edits mean

  /** Some of the four drawn texts holds something. */
  predicate Holds(c: Cell) {
    Strip(c.subject) != "" || Strip(c.topic) != "" || Strip(c.description) != "" || Strip(c.duration) != ""
  }

  /** Some of the five stored texts holds something. */
  predicate HoldsAny(c: Cell) { Holds(c) || Strip(c.notes) != "" }

  /** A new version is started unless the plan is a draft already; no file record is touched. */
  predicate StartsDraft(before: State, after: State) {
    && after.status == Draft && after.files == before.files
    && after.version == if before.status == Draft then before.version else before.version + 1
  }

  /** `days` are the old rows, except that the one of `weekday`, if there is one, now holds `slots`. */
  predicate OneDay(before: map<int, Slots>, days: map<int, Slots>, weekday: int, slots: Slots) {
    && days.Keys == before.Keys
    && forall w :: w in days ==> days[w] == if w == weekday then slots else before[w]
  }

  /** One cell is replaced, or removed when none of its four drawn texts holds anything; a missing row is refused. */
  predicate SetsSlot(before: State, after: State, ok: bool, weekday: int, slot: int, cell: Option<Cell>) {
    && (ok <==> weekday in before.content.days)
    && (!ok ==> after == before)
    && (ok ==>
          && StartsDraft(before, after) && after.content.assignments == before.content.assignments
          && var row := before.content.days[weekday];
             OneDay(before.content.days, after.content.days, weekday,
                    if cell.Some? && Holds(cell.value) then row[slot := cell.value] else row - {slot}))
  }

  predicate ClearsDay(before: State, after: State, weekday: int) {
    && StartsDraft(before, after) && after.content.assignments == before.content.assignments
    && OneDay(before.content.days, after.content.days, weekday, map[])
  }

  /** The cells of the source row that hold anything, notes included, are now the cells of the target row. */
  predicate CopiesDay(before: State, after: State, ok: bool, src: int, dst: int) {
    var days := before.content.days;
    var source := if src in days then days[src] else map[];
    && (ok <==> 0 <= src < 7 && 0 <= dst < 7 && (dst in days || source == map[]))
    && (!ok ==> after == before)
    && (ok ==>
          && StartsDraft(before, after) && after.content.assignments == before.content.assignments
          && OneDay(days, after.content.days, dst, map k | k in source && HoldsAny(source[k]) :: source[k]))
  }

  /** The rows Saturday to Friday now hold the drawn cells of the other plan's rows, and its assignments are taken over. */
  predicate CopiesWeek(before: State, after: State, ok: bool, previous: Option<Content>) {
    var days := before.content.days;
    match previous
    case None => ok && after == before
    case Some(p) =>
      && (ok <==> forall w :: 0 <= w < 7 && w in p.days && w !in days ==> forall k :: k in p.days[w] ==> !Holds(p.days[w][k]))
      && (!ok ==> after == before)
      && (ok ==>
            && StartsDraft(before, after) && after.content.assignments == CleanTexts(p.assignments)
            && after.content.days.Keys == days.Keys
            && forall w :: w in days ==>
                 if !(0 <= w < 7) then after.content.days[w] == days[w]
                 else if w !in p.days then after.content.days[w] == map[]
                 else after.content.days[w] == map k | k in p.days[w] && Holds(p.days[w][k]) :: p.days[w][k])
  }

  lemma CellsMean(c: Cell)
    ensures c.IsEmpty() <==> !Holds(c)
    ensures c.IsBlank() <==> !HoldsAny(c)
  {}

  lemma SlotsMean(slots: Slots)
    ensures NonEmpty(slots) == map k | k in slots && Holds(slots[k]) :: slots[k]
    ensures NonBlank(slots) == map k | k in slots && HoldsAny(slots[k]) :: slots[k]
  {
    forall k | k in slots { CellsMean(slots[k]); }
    hide Holds, HoldsAny;
  }

  lemma SetSlotMeans(s: State, weekday: int, slot: int, cell: Option<Cell>)
    requires Consistent(s)
    ensures SetsSlot(s, Apply(s, SetSlot(weekday, slot, cell)), Edited(s.content, SetSlot(weekday, slot, cell)).Some?,
                     weekday, slot, cell)
  {
    if cell.Some? {
      CellsMean(cell.value);
      hide Holds;
      if weekday in s.content.days {
        PutIsUpdate(s.content.days[weekday], slot, cell.value);
      }
    }
  }

  lemma ClearDayMeans(s: State, weekday: int)
    requires Consistent(s)
    ensures ClearsDay(s, Apply(s, ClearDay(weekday)), weekday)
  {}

  lemma CopyDayMeans(s: State, src: int, dst: int)
    requires Consistent(s)
    ensures CopiesDay(s, Apply(s, CopyDay(src, dst)), Edited(s.content, CopyDay(src, dst)).Some?, src, dst)
  {
    SlotsMean(SlotsOf(s.content, src));
    hide Holds, HoldsAny, NonBlank, NonEmpty;
  }

  lemma CopyWeekMeans(s: State, previous: Option<Content>)
    requires Consistent(s)
    ensures CopiesWeek(s, Apply(s, CopyWeek(previous)), Edited(s.content, CopyWeek(previous)).Some?, previous)
  {
    if previous.Some? {
      var p := previous.value;
      forall w | 0 <= w < 7
        ensures NonEmpty(SlotsOf(p, w)) ==
                if w in p.days then map k | k in p.days[w] && Holds(p.days[w][k]) :: p.days[w][k] else map[]
      {
        SlotsMean(SlotsOf(p, w));
      }
      forall w | 0 <= w < 7 && w in p.days
        ensures NonEmpty(SlotsOf(p, w)) == map[] <==> forall k :: k in p.days[w] ==> !Holds(p.days[w][k])
      {
        NoneHolds(p.days[w]);
      }
      ConsistentStatus(s);
      hide Holds, NonEmpty, CleanTexts, Consistent;
    }
  }

  lemma NoneHolds(slots: Slots)
    ensures NonEmpty(slots) == map[] <==> forall k :: k in slots ==> !Holds(slots[k])
  {
    forall k | k in slots ensures k in NonEmpty(slots) <==> Holds(slots[k]) { CellsMean(slots[k]); }
    hide Holds, NonEmpty;
    NonEmptyKeys(slots);
    if forall k :: k in slots ==> !Holds(slots[k]) {
      assert NonEmpty(slots).Keys == {};
    }
  }

  lemma NonEmptyKeys(slots: Slots)
    ensures forall k :: k in NonEmpty(slots) ==> k in slots
  {}

  lemma ConsistentStatus(s: State)
    requires Consistent(s)
    ensures s.status in {Draft, Generated, Sent}
  {}

  // ---------------------------------------------------------------- the stored object

  /** The version never decreases and file records are only appended. */
  predicate Grew(before: State, after: State) {
    before.version <= after.version && before.files <= after.files
  }

  /** A plan row with its day rows, assignments and file records. */
  class StoredPlan {
    var version: int
    var status: Status
    var days: map<int, Slots>
    var assignments: seq<string>
    var files: seq<FileRecord>

    function Current(): State
      reads this
    {
      State(version, status, Content(days, assignments), files)
    }

    /** File versions never exceed the plan's, a draft is newer than its files, files of one version agree. */
    ghost predicate Valid()
      reads this
    {
      Consistent(Current())
    }

    /** A new plan: a draft of version 1 with empty days and no files. */
    constructor (weekdays: set<int>)
      ensures Valid() && Current() == Created(weekdays)
      ensures version == 1 && status == Draft && assignments == [] && files == []
      ensures days.Keys == weekdays && forall w :: w in weekdays ==> days[w] == map[]
    {
      version, status := 1, Draft;
      days := map w | w in weekdays :: map[];
      assignments, files := [], [];
    }

    /** Before an edit: afterwards the plan is a draft newer than all its files, of the same version if it was one already. */
    method BumpVersion()
      requires Valid()
      modifies this`version, this`status
      ensures Valid() && Current() == Bumped(old(Current()))
      ensures status == Draft && forall i :: 0 <= i < |files| ==> files[i].version < version
      ensures version == old(version) <==> old(status) == Draft
      ensures version == if old(status) == Draft then old(version) else old(version) + 1
    {
      if status == Generated || status == Sent {
        version := version + 1;
        status := Draft;
      }
    }

    /** The repository's cell update; it raises when the day row does not exist. */
    method PutCell(weekday: int, slot: int, cell: Option<Cell>) returns (ok: bool)
      modifies this`days
      ensures cell.Some? ==> (cell.value.IsBlank() <==> !HoldsAny(cell.value))
      ensures ok <==> weekday in old(days)
      ensures !ok ==> days == old(days)
      ensures ok ==> days == old(days)[weekday :=
                       if cell.None? || cell.value.IsBlank() then old(days)[weekday] - {slot}
                       else old(days)[weekday][slot := cell.value]]
    {
      if cell.Some? {
        CellsMean(cell.value);
      }
      if weekday !in days {
        return false;
      }
      days := days[weekday := days[weekday] - {slot}];
      if cell.Some? && !cell.value.IsBlank() {
        days := days[weekday := days[weekday][slot := cell.value]];
        assert (old(days)[weekday] - {slot})[slot := cell.value] == old(days)[weekday][slot := cell.value];
      }
      return true;
    }

    method EditSlot(weekday: int, slot: int, cell: Option<Cell>) returns (ok: bool)
      requires Valid()
      modifies this
      ensures Valid() && Grew(old(Current()), Current())
      ensures Current() == Apply(old(Current()), SetSlot(weekday, slot, cell))
      ensures ok <==> Edited(old(Current()).content, SetSlot(weekday, slot, cell)).Some?
      ensures SetsSlot(old(Current()), Current(), ok, weekday, slot, cell)
    {
      hide Consistent, SetsSlot, Grew, Apply, Edited;
      ghost var before := Current();
      var version0, status0 := version, status;
      BumpVersion();
      ok := PutCell(weekday, slot, if cell.Some? && cell.value.IsEmpty() then None else cell);
      if !ok {
        version, status := version0, status0;
      }
      EditDone(before, weekday, slot, cell, ok, Current());
    }

    method EmptyDay(weekday: int)
      requires Valid()
      modifies this
      ensures Valid() && Grew(old(Current()), Current())
      ensures Current() == Apply(old(Current()), ClearDay(weekday))
      ensures ClearsDay(old(Current()), Current(), weekday)
    {
      ClearDayMeans(Current(), weekday);
      hide ClearsDay;
      BumpVersion();
      if weekday in days {
        days := days[weekday := map[]];
      }
      StepKeepsConsistent(old(Current()), ClearDay(weekday));
    }

    /** Adds copies of `slots` to a day, cell by cell; raises when there is a cell and no day row. */
    method FillDay(weekday: int, slots: Slots) returns (ok: bool)
      requires weekday in days ==> days[weekday] == map[]
      modifies this`days
      ensures ok <==> weekday in old(days) || slots == map[]
      ensures ok && weekday in old(days) ==> days == old(days)[weekday := NonBlank(slots)]
      ensures !ok || weekday !in old(days) ==> days == old(days)
    {
      var todo: set<int> := slots.Keys;
      ghost var done: set<int> := {};
      KeptAll(slots);
      while todo != {}
        invariant done + todo == slots.Keys && done !! todo
        invariant weekday in old(days) ==> days == old(days)[weekday := Kept(slots, done)]
        invariant weekday !in old(days) ==> days == old(days) && done == {}
        decreases |todo|
      {
        var k := Pick(todo);
        ok := PutCell(weekday, k, Some(slots[k]));
        if !ok {
          return;
        }
        KeptStep(slots, done, k);
        todo, done := todo - {k}, done + {k};
      }
      ok := true;
    }

    method DuplicateDay(src: int, dst: int) returns (ok: bool)
      requires Valid()
      modifies this
      ensures Valid() && Grew(old(Current()), Current())
      ensures Current() == Apply(old(Current()), CopyDay(src, dst))
      ensures ok <==> Edited(old(Current()).content, CopyDay(src, dst)).Some?
      ensures CopiesDay(old(Current()), Current(), ok, src, dst)
    {
      hide Consistent, NonBlank, CopiesDay, HoldsAny, Grew, Apply, Edited;
      ghost var before := Current();
      CopyOutside(before, src, dst);
      if !(0 <= src < 7 && 0 <= dst < 7) {
        return false;
      }
      var version0, status0, days0 := version, status, days;
      BumpVersion();
      var copies := if src in days then days[src] else map[];
      if dst in days {
        days := days[dst := map[]];
      }
      ok := FillDay(dst, copies);
      if !ok {
        version, status, days := version0, status0, days0;
      } else if dst in days0 {
        assert days == days0[dst := NonBlank(copies)];
      }
      DuplicateDone(before, src, dst, ok, Current());
    }

    /** Clears a day and fills it with the filled cells of another plan's day. */
    method RefillDay(weekday: int, source: Content) returns (ok: bool)
      modifies this`days
      ensures ok <==> weekday in old(days) || NonEmpty(SlotsOf(source, weekday)) == map[]
      ensures ok && weekday in old(days) ==>
                days == old(days)[weekday := map[]][weekday := NonEmpty(SlotsOf(source, weekday))]
      ensures weekday !in old(days) ==> days == old(days)
    {
      if weekday in days {
        days := days[weekday := map[]];
      }
      var copies := NonEmpty(if weekday in source.days then source.days[weekday] else map[]);
      NonEmptyIsNonBlank(SlotsOf(source, weekday));
      ok := FillDay(weekday, copies);
    }

    /** Fills this plan from the student's previous week, day by day. */
    method CopyPreviousWeek(previous: Option<Content>) returns (ok: bool)
      requires Valid()
      modifies this
      ensures Valid() && Grew(old(Current()), Current())
      ensures Current() == Apply(old(Current()), CopyWeek(previous))
      ensures ok <==> Edited(old(Current()).content, CopyWeek(previous)).Some?
      ensures CopiesWeek(old(Current()), Current(), ok, previous)
    {
      hide Consistent, WeekCopied, CleanTexts, CopiesWeek, HoldsAny, Grew, Apply, Edited, NonEmpty;
      ghost var before := Current();
      if previous.None? {
        NoPrevious(before);
        return true;
      }
      var source := previous.value;
      var version0, status0, days0 := version, status, days;
      BumpVersion();
      WeekCopiedStep(days0, source, 0);
      for w := 0 to 7
        invariant forall v :: 0 <= v < w && v !in days0 ==> NonEmpty(SlotsOf(source, v)) == map[]
        invariant days == WeekCopied(days0, source, w)
        invariant assignments == old(assignments) && files == old(files)
        invariant version == Bumped(old(Current())).version && status == Bumped(old(Current())).status
      {
        WeekCopiedStep(days0, source, w);
        ok := RefillDay(w, source);
        if !ok {
          version, status, days := version0, status0, days0;
          WeekDone(before, source, ok, Current());
          return;
        }
      }
      assignments := CleanTexts(source.assignments);
      ok := true;
      WeekDone(before, source, ok, Current());
    }

    /** The stored texts are trimmed, none is empty, and storing them once more would change nothing. */
    method ReplaceAssignments(texts: seq<string>)
      requires Valid()
      modifies this
      ensures Valid() && Grew(old(Current()), Current())
      ensures Current() == Apply(old(Current()), SetAssignments(texts))
      ensures StartsDraft(old(Current()), Current()) && days == old(days)
      ensures CleanTexts(assignments) == assignments && forall t <- assignments :: t != "" && Trimmed(t)
      ensures forall t <- texts :: Strip(t) != "" ==> Strip(t) in assignments
    {
      StepKeepsConsistent(old(Current()), SetAssignments(texts));
      CleanTextsAreClean(texts);
      BumpVersion();
      assignments := CleanTexts(texts);
    }

    /** Records the files drawn from the current content; every file of this version then shows that content. */
    method MarkGenerated()
      requires Valid()
      modifies this
      ensures Valid() && Grew(old(Current()), Current()) && |files| == |old(files)| + 1
      ensures forall i :: 0 <= i < |files| && files[i].version == version ==> files[i].rendered == Content(days, assignments)
      ensures files[|files| - 1].version == version
      ensures Current() == Apply(old(Current()), Generate)
      ensures version == old(version) && days == old(days) && assignments == old(assignments) && old(files) <= files
      ensures status == Generated
    {
      StepKeepsConsistent(old(Current()), Generate);
      status := Generated;
      files := files + [FileRecord(version, Content(days, assignments))];
    }

    /** Any plan can be marked as sent, also an edited draft. */
    method Send()
      requires Valid()
      modifies this
      ensures Valid() && Grew(old(Current()), Current())
      ensures Current() == Apply(old(Current()), MarkSent)
      ensures Current() == old(Current()).(status := Sent)
    {
      status := Sent;
    }
  }

  /** Putting the cell into its row, or taking it out, is the whole edit. */
  lemma EditDone(s: State, weekday: int, slot: int, cell: Option<Cell>, ok: bool, after: State)
    requires Consistent(s) && (ok <==> weekday in s.content.days) && (!ok ==> after == s)
    requires ok ==>
               var row := s.content.days[weekday];
               after == Bumped(s).(content := WithDay(s.content, weekday,
                 if cell.Some? && !cell.value.IsEmpty() then row[slot := cell.value] else row - {slot}))
    ensures Consistent(after) && Grew(s, after) && after == Apply(s, SetSlot(weekday, slot, cell))
    ensures ok <==> Edited(s.content, SetSlot(weekday, slot, cell)).Some?
    ensures SetsSlot(s, after, ok, weekday, slot, cell)
  {
    SetSlotMeans(s, weekday, slot, cell);
    hide Consistent, SetsSlot;
    StepKeepsConsistent(s, SetSlot(weekday, slot, cell));
    if ok && cell.Some? {
      PutIsUpdate(s.content.days[weekday], slot, cell.value);
    }
  }

  lemma CopyOutside(s: State, src: int, dst: int)
    requires Consistent(s)
    ensures !(0 <= src < 7 && 0 <= dst < 7) ==>
              && Grew(s, s) && s == Apply(s, CopyDay(src, dst)) && Edited(s.content, CopyDay(src, dst)).None?
              && CopiesDay(s, s, false, src, dst)
  {
    CopyDayMeans(s, src, dst);
    hide CopiesDay, Consistent;
  }

  lemma DuplicateDone(s: State, src: int, dst: int, ok: bool, after: State)
    requires Consistent(s) && 0 <= src < 7 && 0 <= dst < 7
    requires (ok <==> dst in s.content.days || SlotsOf(s.content, src) == map[]) && (!ok ==> after == s)
    requires ok ==> after == Bumped(s).(content :=
               if dst in s.content.days then WithDay(s.content, dst, NonBlank(SlotsOf(s.content, src))) else s.content)
    ensures Consistent(after) && Grew(s, after) && after == Apply(s, CopyDay(src, dst))
    ensures ok <==> Edited(s.content, CopyDay(src, dst)).Some?
    ensures CopiesDay(s, after, ok, src, dst)
  {
    CopyDayMeans(s, src, dst);
    hide Consistent, CopiesDay, NonBlank;
    StepKeepsConsistent(s, CopyDay(src, dst));
  }

  lemma NoPrevious(s: State)
    requires Consistent(s)
    ensures Grew(s, s) && s == Apply(s, CopyWeek(None)) && Edited(s.content, CopyWeek(None)).Some?
    ensures CopiesWeek(s, s, true, None)
  {}

  lemma WeekDone(s: State, p: Content, ok: bool, after: State)
    requires Consistent(s) && (!ok ==> after == s)
    requires ok <==> forall w :: 0 <= w < 7 && w !in s.content.days ==> NonEmpty(SlotsOf(p, w)) == map[]
    requires ok ==> after == Bumped(s).(content := Content(WeekCopied(s.content.days, p, 7), CleanTexts(p.assignments)))
    ensures Consistent(after) && Grew(s, after) && after == Apply(s, CopyWeek(Some(p)))
    ensures ok <==> Edited(s.content, CopyWeek(Some(p))).Some?
    ensures CopiesWeek(s, after, ok, Some(p))
  {
    CopyWeekMeans(s, Some(p));
    hide Consistent, CopiesWeek, WeekCopied, CleanTexts, NonEmpty;
    StepKeepsConsistent(s, CopyWeek(Some(p)));
  }

  lemma NonEmptyIsNonBlank(slots: Slots)
    ensures NonBlank(NonEmpty(slots)) == NonEmpty(slots)
  {
    assert forall k <- NonEmpty(slots) :: !NonEmpty(slots)[k].IsBlank();
  }

  lemma WeekCopiedStep(days: map<int, Slots>, source: Content, w: int)
    requires 0 <= w
    ensures w in days ==>
              WeekCopied(days, source, w + 1) == WeekCopied(days, source, w)[w := map[]][w := NonEmpty(SlotsOf(source, w))]
    ensures w !in days ==> WeekCopied(days, source, w + 1) == WeekCopied(days, source, w)
    ensures WeekCopied(days, source, 0) == days && WeekCopied(days, source, w).Keys == days.Keys
  {}

  lemma PutIsUpdate(slots: Slots, slot: int, cell: Cell)
    ensures (slots - {slot})[slot := cell] == slots[slot := cell]
  {}

  /** The cells among `done` that are kept when `slots` is copied. */
  function Kept(slots: Slots, done: set<int>): Slots {
    map k | k in slots && k in done && !slots[k].IsBlank() :: slots[k]
  }

  lemma KeptStep(slots: Slots, done: set<int>, k: int)
    requires k in slots && k !in done
    ensures Kept(slots, done + {k}) ==
            if slots[k].IsBlank() then Kept(slots, done) - {k} else Kept(slots, done)[k := slots[k]]
  {}

  lemma KeptAll(slots: Slots)
    ensures Kept(slots, slots.Keys) == NonBlank(slots) && Kept(slots, {}) == map[]
  {}

  // ---------------------------------------------------------------- runs

  function Created(weekdays: set<int>): State {
    State(1, Draft, Content(map w | w in weekdays :: map[], []), [])
  }

  function Run(s: State, steps: seq<Step>): State
    decreases |steps|
  {
    if steps == [] then s else Apply(Run(s, steps[..|steps| - 1]), steps[|steps| - 1])
  }

  /** What every step keeps. */
  predicate Consistent(s: State) {
    && s.status in {Draft, Generated, Sent}
    && (forall i :: 0 <= i < |s.files| ==> s.files[i].version <= s.version)
    && (forall i, j :: 0 <= i < j < |s.files| ==> s.files[i].version <= s.files[j].version)
    && (s.status == Draft ==> forall i :: 0 <= i < |s.files| ==> s.files[i].version < s.version)
    && (s.status != Draft ==>
          forall i :: 0 <= i < |s.files| && s.files[i].version == s.version ==> s.files[i].rendered == s.content)
    && (forall i, j :: 0 <= i < j < |s.files| && s.files[i].version == s.files[j].version ==>
          s.files[i].rendered == s.files[j].rendered)
  }

  /** Text after text: each one that holds something is stored, trimmed. */
  lemma {:induction false} CleanTextByText(a: seq<string>, b: seq<string>)
    ensures CleanTexts(a + b) == CleanTexts(a) + CleanTexts(b)
  {
    hide Strip;
    if a == [] {
      assert a + b == b;
    } else {
      assert (a + b)[0] == a[0] && (a + b)[1..] == a[1..] + b;
      CleanTextByText(a[1..], b);
      ConcatAssoc(if Strip(a[0]) == "" then [] else [Strip(a[0])], CleanTexts(a[1..]), CleanTexts(b));
    }
  }

  lemma OneCleanText(t: string)
    ensures CleanTexts([]) == [] && CleanTexts([t]) == if Strip(t) == "" then [] else [Strip(t)]
  {
    assert [t][1..] == [];
  }

  lemma {:induction false} CleanTextsAreClean(texts: seq<string>)
    ensures CleanTexts(CleanTexts(texts)) == CleanTexts(texts)
    ensures forall t <- CleanTexts(texts) :: t != "" && Trimmed(t)
    ensures forall t <- texts :: Strip(t) != "" ==> Strip(t) in CleanTexts(texts)
  {
    if texts != [] {
      CleanTextsAreClean(texts[1..]);
      var first := Strip(texts[0]);
      TrimmedStrips(first);
      if first != "" {
        assert CleanTexts(texts)[1..] == CleanTexts(texts[1..]);
      } else {
        assert CleanTexts(texts) == CleanTexts(texts[1..]);
      }
    }
  }

  lemma StepKeepsConsistent(s: State, step: Step)
    requires Consistent(s)
    ensures Consistent(Apply(s, step)) && Grew(s, Apply(s, step))
  {
    hide Edited, Bumped, Consistent;
    match step
    case Generate => GenerateKeepsConsistent(s);
    case MarkSent => SentKeepsConsistent(s);
    case CopyWeek(None) =>
    case _ =>
      if Edited(s.content, step).Some? {
        EditKeepsConsistent(s, Edited(s.content, step).value);
      }
  }

  lemma SentKeepsConsistent(s: State)
    requires Consistent(s)
    ensures Consistent(s.(status := Sent))
  {}

  lemma GenerateKeepsConsistent(s: State)
    requires Consistent(s)
    ensures Consistent(s.(status := Generated, files := s.files + [FileRecord(s.version, s.content)]))
  {}

  /** An edit leaves a draft that is newer than all files. */
  lemma EditKeepsConsistent(s: State, content: Content)
    requires Consistent(s)
    ensures Consistent(Bumped(s).(content := content)) && Grew(s, Bumped(s).(content := content))
  {}

  /**
   In every run of a new plan: file versions never decrease and never exceed the plan's version, a draft is newer than
   all its files, and files of one version were drawn from the same content.
   */
  lemma {:induction false} RunsAreConsistent(weekdays: set<int>, steps: seq<Step>)
    ensures Consistent(Run(Created(weekdays), steps))
    decreases |steps|
  {
    if steps != [] {
      RunsAreConsistent(weekdays, steps[..|steps| - 1]);
      StepKeepsConsistent(Run(Created(weekdays), steps[..|steps| - 1]), steps[|steps| - 1]);
    }
  }

  /** Along a run the version never decreases and file records are only appended. */
  lemma {:induction false} RunsOnlyGrow(weekdays: set<int>, steps: seq<Step>, i: nat)
    requires i <= |steps|
    ensures var before, after := Run(Created(weekdays), steps[..i]), Run(Created(weekdays), steps);
            Grew(before, after)
    decreases |steps|
  {
    if i < |steps| {
      var init := steps[..|steps| - 1];
      RunsOnlyGrow(weekdays, init, i);
      assert init[..i] == steps[..i];
      RunsAreConsistent(weekdays, init);
      StepKeepsConsistent(Run(Created(weekdays), init), steps[|steps| - 1]);
    } else {
      assert steps[..i] == steps;
    }
  }

  /** As long as a plan counts as generated, its last files were drawn from its present content. */
  lemma {:induction false} GeneratedPlanIsCurrent(weekdays: set<int>, steps: seq<Step>)
    ensures var s := Run(Created(weekdays), steps);
            s.status == Generated ==> s.files != [] && s.files[|s.files| - 1] == FileRecord(s.version, s.content)
    decreases |steps|
  {
    hide Edited;
    if steps != [] {
      GeneratedPlanIsCurrent(weekdays, steps[..|steps| - 1]);
    }
  }
}
