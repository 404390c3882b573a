/** The hashed payload determines what is drawn, so a cached file is never stale. */
module RenderCache {
  import opened Prelude
  import opened Strings
  import opened Calendar
  import opened Sorting
  import opened PlanDomain
  import opened Rendering

  // ---------------------------------------------------------------- payload and drawing

  lemma {:induction false} InsertedCommands(r: Renderer, weekday: int, k: CellKey, keys: seq<CellKey>)
    ensures multiset(CellCommands(r, weekday, Insert(KeyLeq, k, keys))) ==
            multiset(KeyCommands(r, weekday, k)) + multiset(CellCommands(r, weekday, keys))
  {
    if keys != [] && !KeyLeq(k, keys[0]) {
      InsertedCommands(r, weekday, k, keys[1..]);
    } else {
      assert ([k] + keys)[1..] == keys;
    }
  }

  /** The order in which the cells of a day are listed does not change what is drawn. */
  lemma {:induction false} SortedCommands(r: Renderer, weekday: int, keys: seq<CellKey>)
    ensures multiset(CellCommands(r, weekday, Sort(KeyLeq, keys))) == multiset(CellCommands(r, weekday, keys))
  {
    if keys != [] {
      SortedCommands(r, weekday, keys[1..]);
      InsertedCommands(r, weekday, keys[0], Sort(KeyLeq, keys[1..]));
    }
  }

  lemma {:induction false} SameDates(r: Renderer, a: seq<PlanDay>, b: seq<PlanDay>)
    requires DayPayloads(a) == DayPayloads(b)
    ensures AllDates(r, a) == AllDates(r, b)
  {
    assert |a| == |DayPayloads(a)| == |b|;
    if a != [] {
      TailPayloads(a);
      TailPayloads(b);
      SameDates(r, a[1..], b[1..]);
    }
  }

  lemma TailPayloads(days: seq<PlanDay>)
    requires days != []
    ensures DayPayloads(days)[1..] == DayPayloads(days[1..])
    ensures DayPayloads(days)[0] == DayPayload(days[0].weekday, days[0].date, Sort(KeyLeq, Keys(days[0].activities)))
  {}

  lemma {:induction false} SameCells(r: Renderer, a: seq<PlanDay>, b: seq<PlanDay>)
    requires DayPayloads(a) == DayPayloads(b)
    ensures multiset(AllCells(r, a)) == multiset(AllCells(r, b))
  {
    assert |a| == |DayPayloads(a)| == |b|;
    if a != [] {
      TailPayloads(a);
      TailPayloads(b);
      SameCells(r, a[1..], b[1..]);
      SortedCommands(r, a[0].weekday, Keys(a[0].activities));
      SortedCommands(r, b[0].weekday, Keys(b[0].activities));
    }
  }

  /** Sheets with equal payloads are drawn with exactly the same commands. */
  lemma PayloadDeterminesDrawing(r: Renderer, a: Sheet, b: Sheet)
    requires PayloadOf(r, a) == PayloadOf(r, b)
    ensures multiset(Drawing(r, a)) == multiset(Drawing(r, b))
  {
    SameDates(r, a.days, b.days);
    SameCells(r, a.days, b.days);
  }

  predicate AllSlotOrdered(days: seq<PlanDay>) {
    forall i :: 0 <= i < |days| ==> SlotOrdered(days[i].activities)
  }

  lemma {:induction false} KeysSlots(activities: seq<Activity>)
    requires SlotOrdered(activities)
    ensures forall k <- Keys(activities) :: exists a <- activities :: a.slot == k.slot
    ensures forall i, j :: 0 <= i < j < |Keys(activities)| ==> Keys(activities)[i].slot < Keys(activities)[j].slot
  {
    if activities != [] {
      KeysSlots(activities[1..]);
      var tail := Keys(activities[1..]);
      forall k | k in tail ensures SlotOf(activities[0]) < k.slot && exists a <- activities :: a.slot == k.slot {
        var a :| a in activities[1..] && a.slot == k.slot;
        assert a in activities;
        var i :| 0 <= i < |activities[1..]| && activities[1..][i] == a;
        assert SlotOf(activities[0]) < SlotOf(activities[i + 1]);
      }
      assert activities[0] in activities;
    }
  }

  lemma {:induction false} SameCellOrder(r: Renderer, a: seq<PlanDay>, b: seq<PlanDay>)
    requires DayPayloads(a) == DayPayloads(b) && AllSlotOrdered(a) && AllSlotOrdered(b)
    ensures AllCells(r, a) == AllCells(r, b)
  {
    assert |a| == |DayPayloads(a)| == |b|;
    if a != [] {
      TailPayloads(a);
      TailPayloads(b);
      SameCellOrder(r, a[1..], b[1..]);
      KeysSlots(a[0].activities);
      KeysSlots(b[0].activities);
      SortOfSorted(KeyLeq, Keys(a[0].activities));
      SortOfSorted(KeyLeq, Keys(b[0].activities));
    }
  }

  /** With one activity per slot, listed in slot order, even the order of the commands is the same. */
  lemma PayloadDeterminesDrawingOrder(r: Renderer, a: Sheet, b: Sheet)
    requires PayloadOf(r, a) == PayloadOf(r, b) && AllSlotOrdered(a.days) && AllSlotOrdered(b.days)
    ensures Drawing(r, a) == Drawing(r, b)
  {
    SameDates(r, a.days, b.days);
    SameCellOrder(r, a.days, b.days);
  }

  /** Two days list the same drawn cells, whatever their order, their notes and their empty activities. */
  predicate SameDrawnCells(a: PlanDay, b: PlanDay) {
    a.weekday == b.weekday && a.date == b.date && multiset(Keys(a.activities)) == multiset(Keys(b.activities))
  }

  /**
   Two sheets have the same payload exactly when they agree on the student, the week, the assignment texts in order,
   and the drawn cells of every day; the order, notes and empty activities of a day do not count.
   */
  lemma PayloadIsCanonical(r: Renderer, a: Sheet, b: Sheet)
    ensures PayloadOf(r, a) == PayloadOf(r, b) <==>
            && a.student == b.student && a.weekStart == b.weekStart && a.weekEnd == b.weekEnd
            && Texts(a.assignments) == Texts(b.assignments)
            && |a.days| == |b.days| && forall i :: 0 <= i < |a.days| ==> SameDrawnCells(a.days[i], b.days[i])
  {
    KeyOrderIsTotal();
    var pa, pb := DayPayloads(a.days), DayPayloads(b.days);
    forall i | 0 <= i < |a.days| && i < |b.days|
      ensures pa[i] == pb[i] <==> SameDrawnCells(a.days[i], b.days[i])
    {
      SortCanonical(KeyLeq, Keys(a.days[i].activities), Keys(b.days[i].activities));
    }
    assert |pa| == |a.days| && |pb| == |b.days|;
    if |a.days| == |b.days| && forall i :: 0 <= i < |a.days| ==> SameDrawnCells(a.days[i], b.days[i]) {
      assert pa == pb;
    }
    if pa == pb {
      assert forall i :: 0 <= i < |a.days| ==> pa[i] == pb[i];
    }
  }

  // ---------------------------------------------------------------- the cache

  const HASH_LENGTH := 20

  datatype Naming = Naming(
    hash: Payload -> string,
    stem: Sheet -> string,                // directory, student, date and version
    rendererFor: string -> Renderer)
  {
    /** The hash has a fixed length, and a template version names one renderer. */
    ghost predicate Sound() {
      && (forall p :: |hash(p)| == HASH_LENGTH)
      && (forall s, t :: rendererFor(s).version == rendererFor(t).version ==> rendererFor(s) == rendererFor(t))
    }

    function Paid(s: Sheet): Payload { PayloadOf(rendererFor(s.template), s) }

    function PathOf(s: Sheet): string { stem(s) + "_" + hash(Paid(s)) }

    function Drawn(s: Sheet): seq<Command> { Drawing(rendererFor(s.template), s) }

    /** Two sheets with different payloads and one hash. */
    predicate Collide(a: Sheet, b: Sheet) { Paid(a) != Paid(b) && hash(Paid(a)) == hash(Paid(b)) }
  }

  /** What is drawn for `b` looks the same as what is drawn for `a`; for days in slot order it is the same list. */
  ghost predicate LooksLike(n: Naming, a: Sheet, b: Sheet) {
    && multiset(n.Drawn(a)) == multiset(n.Drawn(b))
    && (AllSlotOrdered(a.days) && AllSlotOrdered(b.days) ==> n.Drawn(a) == n.Drawn(b))
  }

  /** Files of one path were drawn from sheets that look the same, unless these two sheets collide. */
  lemma SamePathSameDrawing(n: Naming, a: Sheet, b: Sheet)
    requires n.Sound() && n.PathOf(a) == n.PathOf(b) && !n.Collide(a, b)
    ensures LooksLike(n, a, b)
  {
    var pa, pb := n.Paid(a), n.Paid(b);
    assert |n.hash(pa)| == HASH_LENGTH == |n.hash(pb)|;
    assert n.PathOf(a)[|n.PathOf(a)| - HASH_LENGTH..] == n.hash(pa);
    assert n.PathOf(b)[|n.PathOf(b)| - HASH_LENGTH..] == n.hash(pb);
    assert n.hash(pa) == n.hash(pb);
    assert pa == pb;
    PayloadDeterminesDrawing(n.rendererFor(a.template), a, b);
    if AllSlotOrdered(a.days) && AllSlotOrdered(b.days) {
      PayloadDeterminesDrawingOrder(n.rendererFor(a.template), a, b);
    }
  }

  /** Sheets of different students, dates or versions never share a file. */
  lemma PathsDiffer(n: Naming, a: Sheet, b: Sheet)
    requires n.Sound() && n.PathOf(a) == n.PathOf(b)
    ensures n.stem(a) == n.stem(b) && n.hash(n.Paid(a)) == n.hash(n.Paid(b))
  {
    var path := n.PathOf(a);
    assert |n.hash(n.Paid(a))| == HASH_LENGTH == |n.hash(n.Paid(b))|;
    assert path[|path| - HASH_LENGTH..] == n.hash(n.Paid(a)) && path[|path| - HASH_LENGTH..] == n.hash(n.Paid(b));
    assert path[..|path| - HASH_LENGTH - 1] == n.stem(a) && path[..|path| - HASH_LENGTH - 1] == n.stem(b);
  }

  /** A sheet that may not be generated. */
  predicate HasErrors(s: Sheet) {
    || (s.student == "" && s.studentId == "")
    || s.weekStart.None? || s.weekEnd.None? || s.weekEnd.value <= s.weekStart.value
    || ActivityCount(s.days) == 0
  }

  /** A request: the sheet, and whether the files are drawn again in any case. */
  datatype Request = Request(sheet: Sheet, force: bool)

  /** The files of each path, with the sheet they were drawn from. */
  type Store = map<string, Sheet>

  predicate Reused(n: Naming, store: Store, q: Request) { !q.force && n.PathOf(q.sheet) in store }

  function After(n: Naming, store: Store, q: Request): Store {
    if HasErrors(q.sheet) || Reused(n, store, q) then store else store[n.PathOf(q.sheet) := q.sheet]
  }

  function Run(n: Naming, requests: seq<Request>): Store
    decreases |requests|
  {
    if requests == [] then map[] else After(n, Run(n, requests[..|requests| - 1]), requests[|requests| - 1])
  }

  /** Every stored file lies under the path of the sheet it was drawn from, and that sheet was asked for earlier. */
  lemma {:induction false} StoredFilesHaveSources(n: Naming, requests: seq<Request>)
    ensures forall path <- Run(n, requests) ::
              n.PathOf(Run(n, requests)[path]) == path && exists q <- requests :: q.sheet == Run(n, requests)[path]
    decreases |requests|
  {
    if requests != [] {
      var init, q := requests[..|requests| - 1], requests[|requests| - 1];
      StoredFilesHaveSources(n, init);
      assert q in requests && forall r <- init :: r in requests;
    }
  }

  /** No two of the requested sheets collide. */
  predicate CollisionFree(n: Naming, requests: seq<Request>) {
    forall p <- requests, q <- requests :: !n.Collide(p.sheet, q.sheet)
  }

  lemma {:induction false} StoredFilesStay(n: Naming, requests: seq<Request>, q: Request)
    requires q in requests && !HasErrors(q.sheet)
    ensures n.PathOf(q.sheet) in Run(n, requests)
    decreases |requests|
  {
    var init := requests[..|requests| - 1];
    if q in init {
      StoredFilesStay(n, init, q);
    }
  }

  /** In every run without collisions, each file that was ever handed out still looks like the sheet it was made for. */
  lemma FilesStayTrue(n: Naming, requests: seq<Request>, q: Request)
    requires n.Sound() && CollisionFree(n, requests) && q in requests && !HasErrors(q.sheet)
    ensures n.PathOf(q.sheet) in Run(n, requests) && LooksLike(n, Run(n, requests)[n.PathOf(q.sheet)], q.sheet)
  {
    StoredFilesStay(n, requests, q);
    StoredFilesHaveSources(n, requests);
    var path := n.PathOf(q.sheet);
    var p :| p in requests && p.sheet == Run(n, requests)[path];
    SamePathSameDrawing(n, p.sheet, q.sheet);
  }

  /** In every run without collisions, what the last request finds under its path looks like the sheet it asks for. */
  lemma RunsServeTheirSheets(n: Naming, requests: seq<Request>, q: Request)
    requires n.Sound() && CollisionFree(n, requests + [q]) && !HasErrors(q.sheet)
    ensures var store := After(n, Run(n, requests), q);
            n.PathOf(q.sheet) in store && LooksLike(n, store[n.PathOf(q.sheet)], q.sheet)
  {
    var store, path := Run(n, requests), n.PathOf(q.sheet);
    if Reused(n, store, q) {
      StoredFilesHaveSources(n, requests);
      var p :| p in requests && p.sheet == store[path];
      assert p in requests + [q] && q in requests + [q];
      SamePathSameDrawing(n, store[path], q.sheet);
    }
  }

  // ---------------------------------------------------------------- the service

  /** The generator with its files on disk; `sources` remembers the sheet each image was drawn from. */
  class PlanService {
    const naming: Naming
    var images: map<string, seq<Command>>
    var prints: set<string>
    ghost var sources: Store
    ghost var served: seq<Request>

    ghost predicate Valid()
      reads this
    {
      && naming.Sound()
      && sources == Run(naming, served)
      && images.Keys == sources.Keys == prints
      && forall path <- images :: images[path] == naming.Drawn(sources[path])
    }

    constructor (naming: Naming)
      requires naming.Sound()
      ensures Valid() && images == map[] && served == [] && this.naming == naming
    {
      this.naming := naming;
      images, prints, sources, served := map[], {}, map[], [];
    }

    /**
     Whether the stored files are reused or drawn again, what is handed out shows the sheet that was asked for, as long
     as its payload collides with that of no sheet asked for before. Nothing but the files of this path changes.
     */
    method Generate(sheet: Sheet, force: bool) returns (image: Option<seq<Command>>, cached: bool)
      requires Valid()
      modifies this
      ensures Valid() && served == old(served) + [Request(sheet, force)]
      ensures image.None? <==> HasErrors(sheet)
      ensures cached <==> image.Some? && !force && naming.PathOf(sheet) in old(images)
      ensures CollisionFree(naming, served) && image.Some? ==>
                && multiset(image.value) == multiset(naming.Drawn(sheet))
                && (AllSlotOrdered(sheet.days) && AllSlotOrdered(sources[naming.PathOf(sheet)].days) ==>
                      image.value == naming.Drawn(sheet))
      ensures !cached && image.Some? ==> image.value == naming.Drawn(sheet)
      ensures images == if cached || image.None? then old(images)
                        else old(images)[naming.PathOf(sheet) := image.value]
    {
      hide HasErrors, AllSlotOrdered, CollisionFree, Naming.PathOf, Naming.Drawn, Naming.Sound;
      ghost var q := Request(sheet, force);
      assert (served + [q])[..|served|] == served;
      served := served + [q];
      if HasErrors(sheet) {
        return None, false;
      }
      var path := naming.PathOf(sheet);
      cached := path in images && path in prints && !force;
      if !cached {
        images := images[path := naming.Drawn(sheet)];
        sources := sources[path := sheet];
        prints := prints + {path};
      }
      image := Some(images[path]);
      if CollisionFree(naming, served) {
        RunsServeTheirSheets(naming, old(served), q);
      }
    }
  }

  // ---------------------------------------------------------------- an example

  const SAMPLE_RENDERER: Renderer := Renderer(
    "v", "s", (t: string) => t, (n: nat, t: string) => t, ", ", 0, false, (d: Day) => "d", (w: int, t: string) => 8,
    (w: int, s: int, lines: seq<string>) => Fitted(lines, 8), (lines: seq<string>) => Fitted(lines, 8))

  /** A hash of the right length that tells apart students with short and with long names. */
  const SAMPLE_NAMING: Naming := Naming(
    (p: Payload) => if |p.student| <= 1 then "aaaaaaaaaaaaaaaaaaaa" else "bbbbbbbbbbbbbbbbbbbb",
    (s: Sheet) => "plan", (t: string) => SAMPLE_RENDERER)

  function SampleSheet(student: string): Sheet {
    Sheet(student, "1", Some(1), Some(7), [PlanDay(0, Some(1), [Activity(0, "x", "", "", "", "")])], [], "v", 1)
  }

  /** Two sheets with different files, generated in turn: the first one is then served from the cache. */
  lemma FirstIsReused(n: Naming, a: Sheet, b: Sheet)
    requires !HasErrors(a) && !HasErrors(b) && n.PathOf(a) != n.PathOf(b) && !n.Collide(a, b)
    ensures var requests := [Request(a, false), Request(b, false)];
            && CollisionFree(n, requests + [Request(a, false)])
            && Reused(n, Run(n, requests), Request(a, false))
  {
    hide HasErrors, Naming.PathOf, Naming.Paid;
    var p, q := Request(a, false), Request(b, false);
    assert [p, q][..1] == [p] && [p][..0] == [];
    assert Run(n, [p]) == After(n, Run(n, []), p);
    assert Run(n, [p, q]) == After(n, Run(n, [p]), q);
    assert forall x <- [p, q] + [p] :: x == p || x == q;
  }

  /** The hypotheses of the run theorem can be met, with requests that are drawn and requests that are served again. */
  lemma CacheExample()
    ensures var n, a, b := SAMPLE_NAMING, SampleSheet("a"), SampleSheet("bb");
            var requests := [Request(a, false), Request(b, false)];
            && n.Sound() && !HasErrors(a) && !HasErrors(b) && n.PathOf(a) != n.PathOf(b)
            && CollisionFree(n, requests + [Request(a, false)])
            && Reused(n, Run(n, requests), Request(a, false))
  {
    SampleHasActivity("a");
    SampleHasActivity("bb");
    SampleHashes("a");
    SampleHashes("bb");
    hide ActivityCount, Naming.Paid, CollisionFree, Run, Reused;
    FirstIsReused(SAMPLE_NAMING, SampleSheet("a"), SampleSheet("bb"));
  }

  lemma SampleHashes(student: string)
    ensures SAMPLE_NAMING.Sound()
    ensures var s := SampleSheet(student);
            && SAMPLE_NAMING.PathOf(s)[5..] == SAMPLE_NAMING.hash(SAMPLE_NAMING.Paid(s))
            && SAMPLE_NAMING.hash(SAMPLE_NAMING.Paid(s))[0] == if |student| <= 1 then 'a' else 'b'
  {
    var s := SampleSheet(student);
    assert SAMPLE_NAMING.PathOf(s) == ("plan" + "_") + SAMPLE_NAMING.hash(SAMPLE_NAMING.Paid(s));
  }

  lemma SampleHasActivity(student: string)
    ensures ActivityCount(SampleSheet(student).days) > 0
  {
    var days := SampleSheet(student).days;
    assert Strip("x") == "x" by {
      TrimmedStrips("x");
    }
    assert days[0].date.Some? && days[1..] == [];
    assert WithDate(days) == [days[0]] + WithDate([]);
    assert PlanDays(days) == Sort(ByKey(DateOf), days) == days;
    assert days[0].activities[1..] == [];
    assert Filled(days[0].activities) == 1 + Filled([]);
    assert SumFilled(days) == 1 + SumFilled([]);
  }
}
