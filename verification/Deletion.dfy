/**
 Deleting students and advisors from a database with foreign keys.

 The tables are maps from row ids. Rows that must refer to something (plans, links, the children of a plan) are deleted
 with what they refer to; references that may be empty are cleared instead. A step that raises changes nothing.
 */
module Deletion {
  import opened Prelude
  import opened Accounts

  /** `listed` says that the row's Telegram id is one of the configured admins. */
  datatype Person = Person(role: Role, listed: bool, active: bool, createdBy: Option<int>)

  datatype Link = Link(advisor: int, student: int)

  datatype Plan = Plan(student: int, advisor: int, draft: bool)

  /** Days, assignments and files name their plan, activities their day; the last three tables name a user or nobody. */
  datatype Db = Db(
    users: map<int, Person>, links: map<int, Link>, plans: map<int, Plan>,
    days: map<int, int>, activities: map<int, int>, assignments: map<int, int>, files: map<int, int>,
    requests: map<int, Option<int>>, backups: map<int, Option<int>>, audit: seq<Option<int>>)

  datatype Report = Report(
    plans: nat, drafts: nat, versions: nat, links: nat, students: nat, transferred: nat, detached: nat)

  datatype Problem = Forbidden | Inactive | Unknown | Unassigned | Oneself | NoTarget | BadTarget

  predicate AdminPower(u: Person) { u.listed || u.role == Admin }

  // ---------------------------------------------------------------- foreign keys

  predicate Names(users: map<int, Person>, reference: Option<int>) {
    reference.Some? ==> reference.value in users
  }

  predicate UniquePairs(links: map<int, Link>) {
    forall a, b :: a in links && b in links && links[a] == links[b] ==> a == b
  }

  /** Every reference finds its row, and an advisor has a student at most once. */
  ghost predicate Intact(db: Db) {
    && (forall u :: u in db.users ==> Names(db.users, db.users[u].createdBy))
    && (forall l :: l in db.links ==> db.links[l].advisor in db.users && db.links[l].student in db.users)
    && UniquePairs(db.links)
    && (forall p :: p in db.plans ==> db.plans[p].advisor in db.users && db.plans[p].student in db.users)
    && (forall d :: d in db.days ==> db.days[d] in db.plans)
    && (forall a :: a in db.activities ==> db.activities[a] in db.days)
    && (forall a :: a in db.assignments ==> db.assignments[a] in db.plans)
    && (forall f :: f in db.files ==> db.files[f] in db.plans)
    && (forall r :: r in db.requests ==> Names(db.users, db.requests[r]))
    && (forall b :: b in db.backups ==> Names(db.users, db.backups[b]))
    && (forall i :: 0 <= i < |db.audit| ==> Names(db.users, db.audit[i]))
  }

  // ---------------------------------------------------------------- the specification

  function Forget(reference: Option<int>, u: int): Option<int> {
    if reference == Some(u) then None else reference
  }

  /** Rows of a table whose parent is not among `gone`. */
  function Without(rows: map<int, int>, gone: set<int>): map<int, int> {
    map r | r in rows && rows[r] !in gone :: rows[r]
  }

  function ActivitiesWithout(activities: map<int, int>, days: map<int, int>, gone: set<int>): map<int, int> {
    map a | a in activities && !(activities[a] in days && days[activities[a]] in gone) :: activities[a]
  }

  /** Without some plans and everything below them. */
  function WithoutPlans(db: Db, gone: set<int>): Db {
    db.(plans := db.plans - gone,
        days := Without(db.days, gone),
        activities := ActivitiesWithout(db.activities, db.days, gone),
        assignments := Without(db.assignments, gone),
        files := Without(db.files, gone))
  }

  function PlansOf(db: Db, u: int): set<int> {
    set p | p in db.plans && (db.plans[p].student == u || db.plans[p].advisor == u)
  }

  function UsersWithout(users: map<int, Person>, u: int): map<int, Person> {
    map k | k in users && k != u :: users[k].(createdBy := Forget(users[k].createdBy, u))
  }

  function LinksWithout(links: map<int, Link>, u: int): map<int, Link> {
    map l | l in links && links[l].advisor != u && links[l].student != u :: links[l]
  }

  function Forgetting(rows: map<int, Option<int>>, u: int): map<int, Option<int>> {
    map r | r in rows :: Forget(rows[r], u)
  }

  function ForgettingAll(entries: seq<Option<int>>, u: int): seq<Option<int>> {
    seq(|entries|, i requires 0 <= i < |entries| => Forget(entries[i], u))
  }

  function WithoutRow(db: Db, u: int): Db {
    db.(users := UsersWithout(db.users, u), links := LinksWithout(db.links, u), requests := Forgetting(db.requests, u),
        backups := Forgetting(db.backups, u), audit := ForgettingAll(db.audit, u))
  }

  /** Without a user row, as the foreign keys prescribe it. */
  function WithoutUser(db: Db, u: int): Db { WithoutRow(WithoutPlans(db, PlansOf(db, u)), u) }

  function Logged(db: Db, actor: int): Db { db.(audit := db.audit + [Some(actor)]) }

  function LinksTo(db: Db, student: int): set<int> { set l | l in db.links && db.links[l].student == student }

  function LinksBy(db: Db, advisor: int): set<int> { set l | l in db.links && db.links[l].advisor == advisor }

  function Authored(db: Db, advisor: int): set<int> { set p | p in db.plans && db.plans[p].advisor == advisor }

  function PlansFor(db: Db, student: int): set<int> { set p | p in db.plans && db.plans[p].student == student }

  function Drafts(db: Db, plans: set<int>): set<int> { set p | p in plans && p in db.plans && db.plans[p].draft }

  function FilesOf(db: Db, plans: set<int>): set<int> { set f | f in db.files && db.files[f] in plans }

  function PairsOf(links: map<int, Link>): set<Link> { set l | l in links :: links[l] }

  function StudentsOf(db: Db, advisor: int): set<int> {
    set l | l in db.links && db.links[l].advisor == advisor :: db.links[l].student
  }

  function Moved(link: Link, advisor: int, target: int): Link {
    if link.advisor == advisor then link.(advisor := target) else link
  }

  /** `after` gives the students of `advisor` to `target` and leaves the other rows alone. */
  ghost predicate HandedOver(before: map<int, Link>, after: map<int, Link>, advisor: int, target: int) {
    && UniquePairs(after)
    && (forall l :: l in before && before[l].advisor != advisor ==> l in after && after[l] == before[l])
    && (forall l :: l in after ==> after[l].advisor != advisor)
    && PairsOf(after) == set l | l in before :: Moved(before[l], advisor, target)
  }

  function Repointed(db: Db, advisor: int, target: int, links: map<int, Link>): Db {
    db.(links := links,
        plans := map p | p in db.plans ::
          if db.plans[p].advisor == advisor then db.plans[p].(advisor := target) else db.plans[p])
  }

  function StudentProblem(db: Db, actor: int, student: int): Option<Problem>
    requires actor in db.users
  {
    if AdminPower(db.users[actor]) then
      if student !in db.users || db.users[student].role != Student then Some(Unknown) else None
    else if !db.users[actor].active then Some(Inactive)
    else if student !in db.users then Some(Unknown)
    else if Link(actor, student) !in PairsOf(db.links) then Some(Unassigned)
    else None
  }

  function AdvisorProblem(db: Db, actor: int, advisor: int): Option<Problem>
    requires actor in db.users
  {
    if !AdminPower(db.users[actor]) then Some(Forbidden)
    else if advisor !in db.users || db.users[advisor].role == Student then Some(Unknown)
    else if advisor == actor || AdminPower(db.users[advisor]) then Some(Oneself)
    else None
  }

  function TargetProblem(db: Db, advisor: int, target: Option<int>): Option<Problem> {
    if target.None? then Some(NoTarget)
    else if target.value !in db.users || db.users[target.value].role == Student || target.value == advisor then Some(BadTarget)
    else None
  }

  ghost predicate IsTransfer(before: Db, after: Db, links: map<int, Link>, advisor: int, target: int) {
    && HandedOver(before.links, links, advisor, target)
    && after == WithoutUser(Repointed(before, advisor, target, links), advisor)
  }

  function StudentDeletionProblem(db: Db, actor: int, student: int): Option<Problem>
    requires actor in db.users
  {
    var problem := StudentProblem(db, actor, student);
    if problem.Some? then problem else if student == actor then Some(Oneself) else None
  }

  function AdvisorDeletionProblem(db: Db, actor: int, advisor: int, strategy: string, target: Option<int>): (r: Option<Problem>)
    requires actor in db.users
    ensures r.None? && strategy == "transfer" ==> target.Some?
  {
    var problem := AdvisorProblem(db, actor, advisor);
    if problem.Some? then problem
    else if strategy == "transfer" then TargetProblem(db, advisor, target)
    else None
  }

  function TransferProblem(db: Db, actor: int, student: int, target: int): Option<Problem>
    requires actor in db.users
  {
    if !AdminPower(db.users[actor]) then Some(Forbidden)
    else if student !in db.users || db.users[student].role != Student then Some(Unknown)
    else if target !in db.users || db.users[target].role == Student then Some(BadTarget)
    else None
  }

  // ---------------------------------------------------------------- who may do what

  /** Stored as an admin, or listed as one. */
  predicate IsBoss(u: Person) { u.role == Admin || u.listed }

  predicate IsLinked(db: Db, advisor: int, student: int) {
    exists l :: l in db.links && db.links[l] == Link(advisor, student)
  }

  /** An admin may delete every student row, an active user the rows they are linked to, nobody their own. */
  predicate MayDeleteStudent(db: Db, actor: int, student: int) {
    && actor in db.users && student in db.users && student != actor
    && if IsBoss(db.users[actor]) then db.users[student].role == Student
       else db.users[actor].active && IsLinked(db, actor, student)
  }

  /** Only an admin may delete, only an advisor without admin power; a transfer needs another advisor or admin. */
  predicate MayDeleteAdvisor(db: Db, actor: int, advisor: int, strategy: string, target: Option<int>) {
    && actor in db.users && IsBoss(db.users[actor])
    && advisor in db.users && advisor != actor && db.users[advisor].role == Advisor && !IsBoss(db.users[advisor])
    && (strategy == "transfer" ==>
          target.Some? && target.value in db.users && db.users[target.value].role != Student && target.value != advisor)
  }

  /** Only an admin may move a student, and only to an advisor or admin. */
  predicate MayTransferStudent(db: Db, actor: int, student: int, target: int) {
    && actor in db.users && IsBoss(db.users[actor])
    && student in db.users && db.users[student].role == Student && target in db.users && db.users[target].role != Student
  }

  lemma RefusalsMean(db: Db, actor: int, u: int, strategy: string, target: Option<int>)
    requires actor in db.users
    ensures StudentDeletionProblem(db, actor, u).None? <==> MayDeleteStudent(db, actor, u)
    ensures AdvisorDeletionProblem(db, actor, u, strategy, target).None? <==>
            MayDeleteAdvisor(db, actor, u, strategy, target)
    ensures target.Some? ==>
              (TransferProblem(db, actor, u, target.value).None? <==> MayTransferStudent(db, actor, u, target.value))
  {
    assert Link(actor, u) in PairsOf(db.links) <==> IsLinked(db, actor, u);
  }

  /** What the report on a deleted student counts. */
  predicate CountsStudent(db: Db, r: Report, u: int) {
    && r.plans == |set p | p in db.plans && db.plans[p].student == u|
    && r.drafts == |set p | p in db.plans && db.plans[p].student == u && db.plans[p].draft|
    && r.versions == |set f | f in db.files && db.files[f] in db.plans && db.plans[db.files[f]].student == u|
    && r.links == |set l | l in db.links && db.links[l].student == u|
    && r.students == r.transferred == r.detached == 0
  }

  /** What the report on a deleted advisor counts: nothing of the advisor's goes by transfer. */
  predicate CountsAdvisor(db: Db, r: Report, u: int, strategy: string) {
    var students := |set l | l in db.links && db.links[l].advisor == u|;
    && r.students == students && r.versions == r.links == 0
    && if strategy == "transfer" then r.plans == r.drafts == r.detached == 0 && r.transferred == students
       else
         && r.detached == students && r.transferred == 0
         && r.plans == |set p | p in db.plans && db.plans[p].advisor == u|
         && r.drafts == |set p | p in db.plans && db.plans[p].advisor == u && db.plans[p].draft|
  }

  lemma ReportsMean(db: Db, u: int, strategy: string)
    ensures CountsStudent(db, StudentReport(db, u), u)
    ensures CountsAdvisor(db, AdvisorReport(db, u, strategy), u, strategy)
  {
    assert Drafts(db, PlansFor(db, u)) == set p | p in db.plans && db.plans[p].student == u && db.plans[p].draft;
    assert Drafts(db, Authored(db, u)) == set p | p in db.plans && db.plans[p].advisor == u && db.plans[p].draft;
    assert FilesOf(db, PlansFor(db, u)) ==
           set f | f in db.files && db.files[f] in db.plans && db.plans[db.files[f]].student == u;
  }

  function StudentReport(db: Db, student: int): Report {
    var theirs := PlansFor(db, student);
    Report(|theirs|, |Drafts(db, theirs)|, |FilesOf(db, theirs)|, |LinksTo(db, student)|, 0, 0, 0)
  }

  function AdvisorReport(db: Db, advisor: int, strategy: string): Report {
    var students := |LinksBy(db, advisor)|;
    if strategy == "transfer" then Report(0, 0, 0, 0, students, students, 0)
    else
      var authored := Authored(db, advisor);
      Report(|authored|, |Drafts(db, authored)|, 0, 0, students, 0, students)
  }

  function Reassigned(db: Db, student: int, target: int, id: int): Db {
    db.(links := (db.links - LinksTo(db, student))[id := Link(target, student)])
  }

  // ---------------------------------------------------------------- what the specification means

  lemma WithoutPlansIsIntact(db: Db, gone: set<int>)
    requires Intact(db)
    ensures Intact(WithoutPlans(db, gone))
  {
    var after := WithoutPlans(db, gone);
    forall a | a in after.activities ensures after.activities[a] in after.days {
      assert a in db.activities && db.activities[a] in db.days;
    }
  }

  lemma WithoutRowIsIntact(db: Db, u: int)
    requires Intact(db) && PlansOf(db, u) == {}
    ensures Intact(WithoutRow(db, u))
  {
    hide Names, Forget;
    forall reference ensures Names(db.users, reference) ==> Names(UsersWithout(db.users, u), Forget(reference, u)) {
      ForgetNames(db.users, reference, u);
    }
    forall p | p in db.plans ensures db.plans[p].student != u && db.plans[p].advisor != u {
      assert p !in PlansOf(db, u);
    }
  }

  lemma ForgetNames(users: map<int, Person>, reference: Option<int>, u: int)
    ensures Names(users, reference) ==> Names(UsersWithout(users, u), Forget(reference, u))
  {}

  lemma WithoutRowNamesNothing(db: Db, u: int)
    requires PlansOf(db, u) == {}
    ensures NothingNames(WithoutRow(db, u), u)
  {
    forall p | p in db.plans ensures db.plans[p].student != u && db.plans[p].advisor != u {
      assert p !in PlansOf(db, u);
    }
  }

  /** The foreign keys keep the database intact, and nothing names the deleted user any more. */
  lemma WithoutUserIsIntact(db: Db, u: int)
    requires Intact(db)
    ensures Intact(WithoutUser(db, u))
    ensures NothingNames(WithoutUser(db, u), u)
  {
    WithoutPlansIsIntact(db, PlansOf(db, u));
    var mid := WithoutPlans(db, PlansOf(db, u));
    assert PlansOf(mid, u) == {};
    WithoutRowIsIntact(mid, u);
    WithoutRowNamesNothing(mid, u);
  }

  /** No row refers to a user. */
  ghost predicate NothingNames(db: Db, u: int) {
    && u !in db.users
    && (forall k :: k in db.users ==> db.users[k].createdBy != Some(u))
    && (forall l :: l in db.links ==> db.links[l].advisor != u && db.links[l].student != u)
    && (forall p :: p in db.plans ==> db.plans[p].advisor != u && db.plans[p].student != u)
    && (forall r :: r in db.requests ==> db.requests[r] != Some(u))
    && (forall b :: b in db.backups ==> db.backups[b] != Some(u))
    && (forall i :: 0 <= i < |db.audit| ==> db.audit[i] != Some(u))
  }

  /** Rows below a plan, for saying that the plan is untouched. */
  ghost predicate SamePlan(before: Db, after: Db, p: int)
    requires p in before.plans
  {
    && p in after.plans && after.plans[p] == before.plans[p]
    && SameParts(before, after, p)
  }

  ghost predicate SameParts(before: Db, after: Db, p: int) {
    && (forall d :: d in before.days && before.days[d] == p ==> d in after.days && after.days[d] == p)
    && (forall a :: a in before.activities && before.activities[a] in before.days && before.days[before.activities[a]] == p
          ==> a in after.activities && after.activities[a] == before.activities[a])
    && (forall a :: a in before.assignments && before.assignments[a] == p ==> a in after.assignments && after.assignments[a] == p)
    && (forall f :: f in before.files && before.files[f] == p ==> f in after.files && after.files[f] == p)
  }

  /** Plans and links that do not involve the deleted user are untouched, and so is every other user. */
  lemma UnrelatedRowsAreUntouched(db: Db, u: int)
    ensures var after := WithoutUser(db, u);
            && (forall p :: p in db.plans && db.plans[p].student != u && db.plans[p].advisor != u ==> SamePlan(db, after, p))
            && (forall l :: l in db.links && db.links[l].student != u && db.links[l].advisor != u ==>
                  l in after.links && after.links[l] == db.links[l])
            && (forall k :: k in db.users && k != u && db.users[k].createdBy != Some(u) ==>
                  k in after.users && after.users[k] == db.users[k])
            && (forall k :: k in db.users && k != u ==> k in after.users && after.users[k].role == db.users[k].role)
  {}

  /** A reference to the deleted user is cleared, any other is as before. */
  predicate Cleared(before: Option<int>, after: Option<int>, u: int) {
    after == if before == Some(u) then None else before
  }

  /**
   All users but one are as before, and so are the requests and backups, with references to that user cleared; no row
   below a plan is new.
   */
  ghost predicate OthersKept(before: Db, after: Db, u: int) {
    && after.users.Keys == before.users.Keys - {u}
    && (forall k :: k in after.users ==>
          && after.users[k] == before.users[k].(createdBy := after.users[k].createdBy)
          && Cleared(before.users[k].createdBy, after.users[k].createdBy, u))
    && after.requests.Keys == before.requests.Keys && after.backups.Keys == before.backups.Keys
    && (forall r :: r in after.requests ==> Cleared(before.requests[r], after.requests[r], u))
    && (forall b :: b in after.backups ==> Cleared(before.backups[b], after.backups[b], u))
    && (forall d :: d in after.days ==> d in before.days && after.days[d] == before.days[d])
    && (forall a :: a in after.activities ==> a in before.activities && after.activities[a] == before.activities[a])
    && (forall a :: a in after.assignments ==> a in before.assignments && after.assignments[a] == before.assignments[a])
    && (forall f :: f in after.files ==> f in before.files && after.files[f] == before.files[f])
  }

  lemma WithoutUserKeepsOthers(db: Db, u: int)
    ensures OthersKept(db, WithoutUser(db, u), u)
  {}

  lemma OthersKeptFrom(a: Db, b: Db, after: Db, u: int)
    requires OthersKept(b, after, u) && b.users == a.users && b.requests == a.requests && b.backups == a.backups
    requires b.days == a.days && b.activities == a.activities && b.assignments == a.assignments && b.files == a.files
    ensures OthersKept(a, after, u)
  {}

  lemma LoggedKeepsOthers(before: Db, after: Db, actor: int, u: int)
    ensures OthersKept(before, Logged(after, actor), u) == OthersKept(before, after, u)
  {}

  /** Deleting a user: everything that names the user is gone, all other users and plans stay as they were. */
  ghost predicate DeletesOnly(before: Db, after: Db, u: int) {
    && Intact(after) && NothingNames(after, u) && OthersKept(before, after, u)
    && (forall p :: p in before.plans ==>
          (p in after.plans <==> before.plans[p].advisor != u && before.plans[p].student != u))
    && (forall p :: p in after.plans ==> p in before.plans && SamePlan(before, after, p))
    && (forall a :: a != u ==> StudentsOf(after, a) == StudentsOf(before, a) - {u})
  }

  /** Deleting an advisor whose students and plans go to `target`. */
  ghost predicate TransfersTo(before: Db, after: Db, advisor: int, target: int) {
    && Intact(after) && NothingNames(after, advisor) && OthersKept(before, after, advisor)
    && StudentsOf(after, target) == StudentsOf(before, target) + StudentsOf(before, advisor) - {advisor}
    && (forall a :: a != advisor && a != target ==> StudentsOf(after, a) == StudentsOf(before, a) - {advisor})
    && (forall p :: p in before.plans ==> (p in after.plans <==> before.plans[p].student != advisor))
    && (forall p :: p in after.plans ==>
          && p in before.plans && SameParts(before, after, p)
          && after.plans[p].student == before.plans[p].student && after.plans[p].draft == before.plans[p].draft
          && after.plans[p].advisor == if before.plans[p].advisor == advisor then target else before.plans[p].advisor)
  }

  /** Writing the audit entry changes none of this, as long as the actor still exists. */
  lemma LoggedDeletion(before: Db, after: Db, actor: int, u: int, target: int)
    requires actor in after.users
    ensures DeletesOnly(before, after, u) ==> DeletesOnly(before, Logged(after, actor), u)
    ensures TransfersTo(before, after, u, target) ==> TransfersTo(before, Logged(after, actor), u, target)
  {
    LoggedKeepsOthers(before, after, actor, u);
    hide Intact, NothingNames, StudentsOf, SameParts, OthersKept;
    if Intact(after) && NothingNames(after, u) {
      LoggedIsIntact(after, actor);
      LoggedNames(after, actor, u);
      GoneFromUsers(after, u);
    }
    LoggedStudents(after, actor);
    LoggedParts(before, after, actor);
  }

  lemma GoneFromUsers(db: Db, u: int)
    requires NothingNames(db, u)
    ensures u !in db.users
  {}

  lemma LoggedParts(before: Db, after: Db, actor: int)
    ensures forall p :: SameParts(before, Logged(after, actor), p) == SameParts(before, after, p)
  {}

  /**
   Deleting an advisor by transfer: a plan survives with all its parts exactly when it is not a plan for the deleted
   user, under the new author; the target has the students of both; references stay intact.
   */
  lemma TransferKeepsPlans(db: Db, after: Db, links: map<int, Link>, advisor: int, target: int)
    requires Intact(db) && advisor in db.users && target in db.users && target != advisor
    requires IsTransfer(db, after, links, advisor, target)
    ensures TransfersTo(db, after, advisor, target)
  {
    hide WithoutUser, Intact, NothingNames, HandedOver, StudentsOf, SameParts;
    var mid := Repointed(db, advisor, target, links);
    HandedOverIsIntact(db, links, advisor, target);
    WithoutUserIsIntact(mid, advisor);
    WithoutUserKeepsOthers(mid, advisor);
    OthersKeptFrom(db, mid, after, advisor);
    hide OthersKept;
    HandedOverStudents(db, links, advisor, target);
    forall a | a != advisor ensures StudentsOf(after, a) == StudentsOf(mid, a) - {advisor} {
      StudentsWithout(mid, advisor, a);
    }
    RepointedPlans(db, links, advisor, target);
  }

  /** When every plan is for a student row, all plans survive a transfer. */
  lemma StudentPlansSurvive(db: Db, after: Db, actor: int, advisor: int, target: int)
    requires actor in db.users && Intact(db) && TransfersTo(db, after, advisor, target)
    requires AdvisorDeletionProblem(db, actor, advisor, "transfer", Some(target)).None?
    requires forall p :: p in db.plans ==> db.users[db.plans[p].student].role == Student
    ensures after.plans.Keys == db.plans.Keys
  {
    hide SameParts, StudentsOf, NothingNames;
    assert db.users[advisor].role != Student;
    forall p | p in db.plans ensures p in after.plans {
      assert db.plans[p].student in db.users && db.plans[p].student != advisor;
    }
    forall p | p in after.plans ensures p in db.plans {}
  }

  /** Who may start a plan for a user: an active advisor for assigned students, an active admin for every row there is. */
  predicate MayPlan(db: Db, actor: int, student: int)
    requires actor in db.users
  {
    && db.users[actor].active && student in db.users
    && (db.users[actor].role == Admin || Link(actor, student) in PairsOf(db.links))
  }

  function Planned(db: Db, id: int, actor: int, student: int): Db {
    db.(plans := db.plans[id := Plan(student, actor, true)])
  }

  lemma PlannedIsIntact(db: Db, id: int, actor: int, student: int)
    requires Intact(db) && actor in db.users && MayPlan(db, actor, student)
    ensures Intact(Planned(db, id, actor, student))
  {}

  /** An admin, the advisor 2 and the advisor 3. */
  const STAFF: Db := Db(
    map[1 := Person(Admin, true, true, None), 2 := Person(Advisor, false, true, None),
        3 := Person(Advisor, false, true, None)],
    map[], map[], map[], map[], map[], map[], map[], map[], [])

  /** The admin may start a plan for advisor 2; when advisor 2 is deleted by transfer, the plan goes. */
  lemma PlanForAdvisorIsLost(after: Db)
    ensures var db := Planned(STAFF, 7, 1, 2);
            && Intact(STAFF) && MayPlan(STAFF, 1, 2) && Intact(db)
            && AdvisorDeletionProblem(db, 1, 2, "transfer", Some(3)).None?
            && (TransfersTo(db, after, 2, 3) ==> 7 in db.plans && 7 !in after.plans)
  {
    assert MayPlan(STAFF, 1, 2);
    PlannedIsIntact(STAFF, 7, 1, 2);
    var db := Planned(STAFF, 7, 1, 2);
    hide Intact, NothingNames, StudentsOf, SameParts;
    assert db.plans[7].student == 2;
  }

  lemma RepointedPlans(db: Db, links: map<int, Link>, advisor: int, target: int)
    requires target != advisor
    ensures var mid := Repointed(db, advisor, target, links);
            && PlansOf(mid, advisor) == PlansFor(db, advisor)
            && WithoutUser(mid, advisor).plans == mid.plans - PlansFor(db, advisor)
            && (forall p :: p in db.plans && p !in PlansFor(db, advisor) ==> SameParts(db, WithoutUser(mid, advisor), p))
  {}

  lemma StudentsWithout(db: Db, u: int, a: int)
    requires a != u
    ensures StudentsOf(WithoutUser(db, u), a) == StudentsOf(db, a) - {u}
  {
    var after := WithoutUser(db, u);
    forall s | s in StudentsOf(db, a) - {u} ensures s in StudentsOf(after, a) {
      var l :| l in db.links && db.links[l] == Link(a, s);
      assert after.links[l] == Link(a, s);
    }
    forall s | s in StudentsOf(after, a) ensures s in StudentsOf(db, a) - {u} {
      var l :| l in after.links && after.links[l] == Link(a, s);
      assert db.links[l] == Link(a, s);
    }
  }

  lemma HandedOverIsIntact(db: Db, links: map<int, Link>, advisor: int, target: int)
    requires Intact(db) && target in db.users
    requires HandedOver(db.links, links, advisor, target)
    ensures Intact(Repointed(db, advisor, target, links))
  {
    forall l | l in links ensures links[l].advisor in db.users && links[l].student in db.users {
      assert links[l] in PairsOf(links);
      var k :| k in db.links && Moved(db.links[k], advisor, target) == links[l];
    }
  }

  lemma OtherStudentsStay(db: Db, links: map<int, Link>, advisor: int, target: int, a: int)
    requires HandedOver(db.links, links, advisor, target) && a != advisor && a != target
    ensures StudentsOf(Repointed(db, advisor, target, links), a) == StudentsOf(db, a)
  {
    var mid := Repointed(db, advisor, target, links);
    forall s | s in StudentsOf(mid, a) ensures s in StudentsOf(db, a) {
      var l :| l in links && links[l] == Link(a, s);
      assert links[l] in PairsOf(links);
      var k :| k in db.links && Moved(db.links[k], advisor, target) == links[l];
    }
    forall s | s in StudentsOf(db, a) ensures s in StudentsOf(mid, a) {
      var k :| k in db.links && db.links[k].advisor == a && db.links[k].student == s;
      assert k in links && links[k] == db.links[k];
    }
  }

  lemma HandedOverStudents(db: Db, links: map<int, Link>, advisor: int, target: int)
    requires target != advisor
    requires HandedOver(db.links, links, advisor, target)
    ensures StudentsOf(Repointed(db, advisor, target, links), target) == StudentsOf(db, target) + StudentsOf(db, advisor)
    ensures forall a :: a != advisor && a != target ==>
              StudentsOf(Repointed(db, advisor, target, links), a) == StudentsOf(db, a)
  {
    var mid := Repointed(db, advisor, target, links);
    forall a | a != advisor && a != target ensures StudentsOf(mid, a) == StudentsOf(db, a) {
      OtherStudentsStay(db, links, advisor, target, a);
    }
    forall s | s in StudentsOf(mid, target) ensures s in StudentsOf(db, target) + StudentsOf(db, advisor) {
      var l :| l in links && links[l] == Link(target, s);
      assert links[l] in PairsOf(links);
      var k :| k in db.links && Moved(db.links[k], advisor, target) == links[l];
    }
    forall s | s in StudentsOf(db, target) + StudentsOf(db, advisor) ensures s in StudentsOf(mid, target) {
      var k :| k in db.links && db.links[k].student == s && db.links[k].advisor in {advisor, target};
      assert Moved(db.links[k], advisor, target) == Link(target, s);
      assert Link(target, s) in PairsOf(links);
    }
  }

  /** What the foreign keys delete: all other users stay, and of the plans exactly those that do not name the user. */
  lemma DeletionKeepsOthers(db: Db, u: int)
    requires Intact(db)
    ensures DeletesOnly(db, WithoutUser(db, u), u)
  {
    WithoutUserIsIntact(db, u);
    UnrelatedRowsAreUntouched(db, u);
    WithoutUserKeepsOthers(db, u);
    hide OthersKept;
    forall a | a != u ensures StudentsOf(WithoutUser(db, u), a) == StudentsOf(db, a) - {u} {
      StudentsWithout(db, u, a);
    }
    hide Intact, NothingNames, StudentsOf;
  }

  /** The audit entry written after a deletion names the actor, so it is sound exactly when nobody deletes themselves. */
  lemma DeletionLogIsIntact(db: Db, actor: int, u: int)
    requires Intact(db) && actor in db.users
    ensures Intact(Logged(WithoutUser(db, u), actor)) <==> actor != u
    ensures NothingNames(Logged(WithoutUser(db, u), actor), u) <==> actor != u
  {
    hide WithoutUser, Intact, NothingNames;
    WithoutUserIsIntact(db, u);
    UsersStay(db, u);
    LoggedIsIntact(WithoutUser(db, u), actor);
    LoggedNames(WithoutUser(db, u), actor, u);
  }

  /** Somebody else deletes the user and the audit entry is written. */
  lemma DeletionIsLogged(db: Db, actor: int, u: int)
    requires Intact(db) && actor in db.users && actor != u
    ensures var after := Logged(WithoutUser(db, u), actor);
            DeletesOnly(db, after, u) && Intact(after) && after.audit == ForgettingAll(db.audit, u) + [Some(actor)]
  {
    hide DeletesOnly, Intact, WithoutUser;
    DeletionKeepsOthers(db, u);
    UsersStay(db, u);
    LoggedDeletion(db, WithoutUser(db, u), actor, u, u);
    DeletesIsIntact(db, Logged(WithoutUser(db, u), actor), u, u);
  }

  lemma TransferIsLogged(db: Db, after: Db, links: map<int, Link>, actor: int, advisor: int, target: int)
    requires Intact(db) && actor in db.users && actor != advisor && advisor in db.users
    requires target in db.users && target != advisor && IsTransfer(db, after, links, advisor, target)
    ensures TransfersTo(db, Logged(after, actor), advisor, target) && Intact(Logged(after, actor))
  {
    hide TransfersTo, Intact, IsTransfer;
    TransferKeepsPlans(db, after, links, advisor, target);
    TransferUsers(db, after, links, advisor, target);
    LoggedDeletion(db, after, actor, advisor, target);
    DeletesIsIntact(db, Logged(after, actor), advisor, target);
  }

  lemma DeletesIsIntact(before: Db, after: Db, u: int, target: int)
    ensures DeletesOnly(before, after, u) || TransfersTo(before, after, u, target) ==> Intact(after)
  {}

  lemma IntactIsUnique(db: Db)
    requires Intact(db)
    ensures UniquePairs(db.links)
  {}

  lemma TransferUsers(db: Db, after: Db, links: map<int, Link>, advisor: int, target: int)
    requires IsTransfer(db, after, links, advisor, target)
    ensures after.users.Keys == db.users.Keys - {advisor}
  {
    UsersStay(Repointed(db, advisor, target, links), advisor);
  }

  lemma LoggedStudents(db: Db, actor: int)
    ensures forall a :: StudentsOf(Logged(db, actor), a) == StudentsOf(db, a)
  {}

  lemma UsersStay(db: Db, u: int)
    ensures WithoutUser(db, u).users.Keys == db.users.Keys - {u}
    ensures WithoutUser(db, u).audit == ForgettingAll(db.audit, u)
  {}

  lemma LoggedIsIntact(db: Db, actor: int)
    requires Intact(db)
    ensures Intact(Logged(db, actor)) <==> actor in db.users
  {
    var after := Logged(db, actor);
    assert after.audit[|db.audit|] == Some(actor);
    assert forall i :: 0 <= i < |db.audit| ==> after.audit[i] == db.audit[i];
  }

  lemma LoggedNames(db: Db, actor: int, u: int)
    requires NothingNames(db, u)
    ensures NothingNames(Logged(db, actor), u) <==> actor != u
  {
    var after := Logged(db, actor);
    assert after.audit[|db.audit|] == Some(actor);
    assert forall i :: 0 <= i < |db.audit| ==> after.audit[i] == db.audit[i];
  }

  /** After a change of advisor the student has exactly the new one, everyone else's students are as before. */
  lemma ReassignedHasOneAdvisor(db: Db, student: int, target: int, id: int)
    requires Intact(db) && student in db.users && target in db.users
    requires id !in db.links.Keys - LinksTo(db, student)
    ensures var after := Reassigned(db, student, target, id);
            && Intact(after)
            && StudentsOf(after, target) == StudentsOf(db, target) + {student}
            && (forall a :: a != target ==> StudentsOf(after, a) == StudentsOf(db, a) - {student})
  {
    var after := Reassigned(db, student, target, id);
    assert after.links[id] == Link(target, student);
    forall a, s | s in StudentsOf(db, a) && s != student ensures s in StudentsOf(after, a) {
      var l :| l in db.links && db.links[l] == Link(a, s);
      assert after.links[l] == Link(a, s);
    }
    forall a, s | s in StudentsOf(after, a) && s != student ensures s in StudentsOf(db, a) {
      var l :| l in after.links && after.links[l] == Link(a, s);
      assert db.links[l] == Link(a, s);
    }
  }

  // ---------------------------------------------------------------- steps of a deletion

  lemma WithoutTwice(rows: map<int, int>, one: set<int>, two: set<int>)
    ensures Without(Without(rows, one), two) == Without(rows, one + two)
  {}

  lemma ActivitiesWithoutTwice(activities: map<int, int>, days: map<int, int>, one: set<int>, two: set<int>)
    ensures ActivitiesWithout(ActivitiesWithout(activities, days, one), Without(days, one), two)
         == ActivitiesWithout(activities, days, one + two)
  {}

  lemma PlansGoOneByOne(db: Db, gone: set<int>, p: int)
    ensures WithoutPlans(WithoutPlans(db, gone), {p}) == WithoutPlans(db, gone + {p})
  {
    WithoutTwice(db.days, gone, {p});
    WithoutTwice(db.assignments, gone, {p});
    WithoutTwice(db.files, gone, {p});
    ActivitiesWithoutTwice(db.activities, db.days, gone, {p});
    assert db.plans - gone - {p} == db.plans - (gone + {p});
  }

  lemma NoPlansGone(db: Db)
    ensures WithoutPlans(db, {}) == db
  {
    var same := WithoutPlans(db, {});
    assert same.plans == db.plans && same.days == db.days && same.activities == db.activities;
    assert same.assignments == db.assignments && same.files == db.files;
  }

  /** Deleting some of a user's plans and links first makes no difference to deleting the user. */
  lemma CascadeSubsumes(db: Db, u: int, gone: set<int>, links: map<int, Link>)
    requires gone <= PlansOf(db, u)
    requires forall l :: l in links ==> l in db.links && links[l] == db.links[l]
    requires forall l :: l in db.links && l !in links ==> db.links[l].advisor == u || db.links[l].student == u
    ensures WithoutUser(WithoutPlans(db, gone).(links := links), u) == WithoutUser(db, u)
  {
    var mid := WithoutPlans(db, gone).(links := links);
    assert gone + PlansOf(mid, u) == PlansOf(db, u);
    var all := PlansOf(mid, u);
    WithoutTwice(db.days, gone, all);
    WithoutTwice(db.assignments, gone, all);
    WithoutTwice(db.files, gone, all);
    ActivitiesWithoutTwice(db.activities, db.days, gone, all);
    assert db.plans - gone - all == db.plans - (gone + all);
    LinksWithoutSome(db.links, links, u);
  }

  lemma LinksWithoutSome(all: map<int, Link>, some: map<int, Link>, u: int)
    requires forall l :: l in some ==> l in all && some[l] == all[l]
    requires forall l :: l in all && l !in some ==> all[l].advisor == u || all[l].student == u
    ensures LinksWithout(some, u) == LinksWithout(all, u)
  {
    var one, two := LinksWithout(some, u), LinksWithout(all, u);
    forall l ensures l in one <==> l in two {
      assert l in some ==> l in all && some[l] == all[l];
    }
    forall l | l in one ensures one[l] == two[l] {
      assert some[l] == all[l];
    }
  }

  lemma FilesAddUp(db: Db, done: set<int>, p: int)
    requires p !in done
    ensures |FilesOf(db, done + {p})| == |FilesOf(db, done)| + |FilesOf(db, {p})|
  {
    assert FilesOf(db, done + {p}) == FilesOf(db, done) + FilesOf(db, {p});
    assert FilesOf(db, done) !! FilesOf(db, {p});
  }

  /** One link given to the target: the pairs reached so far plus the ones still to move stay the same. */
  lemma HandOverStep(links: map<int, Link>, next: map<int, Link>, l: int, id: int, target: int)
    requires UniquePairs(links) && l in links && id !in links && links[l].advisor != target
    requires next == (if Link(target, links[l].student) in PairsOf(links) then links - {l}
                      else links[id := Link(target, links[l].student)] - {l})
    ensures UniquePairs(next)
    ensures PairsOf(next) == PairsOf(links) - {links[l]} + {Link(target, links[l].student)}
  {
    var moved := Link(target, links[l].student);
    if moved in PairsOf(links) {
      var k :| k in links && links[k] == moved;
      assert next[k] == moved;
    } else {
      assert next[id] == moved;
    }
    forall pair | pair in PairsOf(links) - {links[l]} + {moved} ensures pair in PairsOf(next) {
      if pair != moved {
        var k :| k in links && links[k] == pair;
        assert next[k] == pair;
      }
    }
    forall pair | pair in PairsOf(next) ensures pair in PairsOf(links) - {links[l]} + {moved} {
      var k :| k in next && next[k] == pair;
      assert k != l;
      assert k != id ==> k in links && links[k] == pair;
    }
  }

  /** The pairs when the links in `todo` are still to be moved. */
  function HalfMoved(links: map<int, Link>, todo: set<int>, advisor: int, target: int): set<Link> {
    set l | l in links :: if l in todo then links[l] else Moved(links[l], advisor, target)
  }

  lemma NothingMoved(links: map<int, Link>, advisor: int, target: int)
    ensures HalfMoved(links, (set l | l in links && links[l].advisor == advisor), advisor, target) == PairsOf(links)
  {
    var todo := set l | l in links && links[l].advisor == advisor;
    forall l | l in links ensures links[l] in HalfMoved(links, todo, advisor, target) {
      assert (if l in todo then links[l] else Moved(links[l], advisor, target)) == links[l];
    }
  }

  lemma AllMoved(links: map<int, Link>, advisor: int, target: int)
    ensures HalfMoved(links, {}, advisor, target) == set l | l in links :: Moved(links[l], advisor, target)
  {}

  lemma HalfMovedStep(links: map<int, Link>, todo: set<int>, l: int, advisor: int, target: int)
    requires UniquePairs(links) && l in todo && l in links && links[l].advisor == advisor && advisor != target
    ensures HalfMoved(links, todo - {l}, advisor, target)
         == HalfMoved(links, todo, advisor, target) - {links[l]} + {Link(target, links[l].student)}
  {
    var one, two := HalfMoved(links, todo, advisor, target), HalfMoved(links, todo - {l}, advisor, target);
    forall k | k in links && k != l
      ensures (if k in todo then links[k] else Moved(links[k], advisor, target)) in one - {links[l]}
      ensures (if k in todo then links[k] else Moved(links[k], advisor, target)) in two
    {
      assert (if k in todo then links[k] else Moved(links[k], advisor, target))
          == (if k in todo - {l} then links[k] else Moved(links[k], advisor, target));
    }
    assert l !in todo - {l} && Moved(links[l], advisor, target) == Link(target, links[l].student);
  }

  // ---------------------------------------------------------------- the database

  /** Some id that no row has. */
  method FreshId<T>(rows: map<int, T>) returns (id: int)
    ensures id !in rows
  {
    var todo: set<int> := rows.Keys;
    id := 1;
    while todo != {}
      invariant todo <= rows.Keys
      invariant forall k :: k in rows && k !in todo ==> k < id
      decreases |todo|
    {
      var k := Pick(todo);
      if k >= id {
        id := k + 1;
      }
      todo := todo - {k};
    }
  }

  class Database {
    var users: map<int, Person>
    var links: map<int, Link>
    var plans: map<int, Plan>
    var days: map<int, int>
    var activities: map<int, int>
    var assignments: map<int, int>
    var files: map<int, int>
    var requests: map<int, Option<int>>
    var backups: map<int, Option<int>>
    var audit: seq<Option<int>>

    function Current(): Db
      reads this
    {
      Db(users, links, plans, days, activities, assignments, files, requests, backups, audit)
    }

    constructor (db: Db)
      ensures Current() == db
    {
      users, links, plans, days := db.users, db.links, db.plans, db.days;
      activities, assignments, files := db.activities, db.assignments, db.files;
      requests, backups, audit := db.requests, db.backups, db.audit;
    }

    /** Deletes a plan with its days, activities, assignments and file records. */
    method DeletePlan(p: int)
      modifies this
      ensures Current() == WithoutPlans(old(Current()), {p})
    {
      activities := map a | a in activities && !(activities[a] in days && days[activities[a]] == p) :: activities[a];
      assert activities == ActivitiesWithout(old(activities), old(days), {p});
      days := map d | d in days && days[d] != p :: days[d];
      assert days == Without(old(days), {p});
      assignments := map a | a in assignments && assignments[a] != p :: assignments[a];
      assert assignments == Without(old(assignments), {p});
      files := map f | f in files && files[f] != p :: files[f];
      assert files == Without(old(files), {p});
      plans := plans - {p};
    }

    /** Deletes plans one after the other. */
    method DeletePlans(gone: set<int>)
      modifies this
      ensures Current() == WithoutPlans(old(Current()), gone)
    {
      var todo := gone;
      ghost var done: set<int> := {};
      NoPlansGone(Current());
      while todo != {}
        invariant done + todo == gone && done !! todo
        invariant Current() == WithoutPlans(old(Current()), done)
        decreases |todo|
      {
        var p := Pick(todo);
        PlansGoOneByOne(old(Current()), done, p);
        DeletePlan(p);
        todo, done := todo - {p}, done + {p};
      }
      assert done == gone;
    }

    /** Deletes a user row; the database cascades to plans and links and clears the optional references. */
    method DeleteUser(u: int)
      modifies this
      ensures Current() == WithoutUser(old(Current()), u)
    {
      DeletePlans(set p | p in plans && (plans[p].student == u || plans[p].advisor == u));
      links := map l | l in links && links[l].advisor != u && links[l].student != u :: links[l];
      requests := Forgetting(requests, u);
      backups := Forgetting(backups, u);
      audit := ForgettingAll(audit, u);
      users := UsersWithout(users, u);
    }

    /** How many file records some plans have, plan by plan. */
    method CountFiles(some: set<int>) returns (n: nat)
      ensures n == |FilesOf(Current(), some)|
    {
      var todo := some;
      ghost var done: set<int> := {};
      n := 0;
      while todo != {}
        invariant done + todo == some && done !! todo
        invariant n == |FilesOf(Current(), done)|
        decreases |todo|
      {
        var p := Pick(todo);
        FilesAddUp(Current(), done, p);
        n := n + |FilesOf(Current(), {p})|;
        todo, done := todo - {p}, done + {p};
      }
      assert done == some;
    }

    /** Plans and links go by hand, then the row. */
    method RemoveStudent(student: int) returns (report: Report)
      modifies this
      ensures Current() == WithoutUser(old(Current()), student) && report == StudentReport(old(Current()), student)
    {
      hide WithoutUser;
      ghost var db := Current();
      var theirs := PlansFor(Current(), student);
      var drafts := |Drafts(Current(), theirs)|;
      var versions := CountFiles(theirs);
      DeletePlans(theirs);
      var gone := LinksTo(Current(), student);
      links := links - gone;
      CascadeSubsumes(db, student, theirs, links);
      DeleteUser(student);
      return Report(|theirs|, drafts, versions, |gone|, 0, 0, 0);
    }

    /**
     Removes a student with everything that belongs to them: afterwards nothing names the student, every other user and
     plan is as before, and the report counts what went.
     */
    method DeleteStudent(actor: int, student: int) returns (r: Result<Report, Problem>)
      requires actor in users && Intact(Current())
      modifies this
      ensures Intact(Current())
      ensures r.Ok? <==> MayDeleteStudent(old(Current()), actor, student)
      ensures r.Ok? ==> CountsStudent(old(Current()), r.value, student)
      ensures match StudentDeletionProblem(old(Current()), actor, student)
              case Some(why) => r == Err(why) && Current() == old(Current())
              case None =>
                && r == Ok(StudentReport(old(Current()), student))
                && DeletesOnly(old(Current()), Current(), student)
                && audit == ForgettingAll(old(audit), student) + [Some(actor)]
    {
      RefusalsMean(Current(), actor, student, "", None);
      ReportsMean(Current(), student, "");
      hide Intact, DeletesOnly, WithoutUser, MayDeleteStudent, MayDeleteAdvisor, MayTransferStudent, CountsStudent, CountsAdvisor, AdvisorReport, AdvisorDeletionProblem, TransferProblem;
      var problem := StudentProblem(Current(), actor, student);
      if problem.Some? {
        return Err(problem.value);
      }
      if student == actor {
        return Err(Oneself);
      }
      DeletionIsLogged(Current(), actor, student);
      var report := RemoveStudent(student);
      audit := audit + [Some(actor)];
      return Ok(report);
    }

    /** Gives the students of one advisor to another, link by link. */
    method HandOver(advisor: int, target: int) returns (moved: nat)
      requires UniquePairs(links) && advisor != target
      modifies this`links
      ensures HandedOver(old(links), links, advisor, target)
      ensures moved == |LinksBy(old(Current()), advisor)|
    {
      ghost var before := links;
      var todo := LinksBy(Current(), advisor);
      moved := 0;
      assert PairsOf(links) == HalfMoved(before, todo, advisor, target) by {
        NothingMoved(before, advisor, target);
      }
      while todo != {}
        invariant todo <= links.Keys * before.Keys
        invariant forall l :: l in todo ==> links[l] == before[l] && before[l].advisor == advisor
        invariant forall l :: l in links && links[l].advisor == advisor ==> l in todo
        invariant forall l :: l in before && before[l].advisor != advisor ==> l in links && links[l] == before[l]
        invariant UniquePairs(links)
        invariant PairsOf(links) == HalfMoved(before, todo, advisor, target)
        invariant moved + |todo| == |LinksBy(old(Current()), advisor)|
        decreases |todo|
      {
        var l := Pick(todo);
        var student := links[l].student;
        ghost var was := links;
        var id := FreshId(links);
        if Link(target, student) !in PairsOf(links) {
          links := links[id := Link(target, student)];
        }
        links := links - {l};
        HandOverStep(was, links, l, id, target);
        HalfMovedStep(before, todo, l, advisor, target);
        todo := todo - {l};
        moved := moved + 1;
      }
      AllMoved(before, advisor, target);
    }

    /** Plans follow their students: the new advisor becomes their author. */
    method MovePlans(advisor: int, target: int)
      modifies this`plans
      ensures Current() == Repointed(old(Current()), advisor, target, links)
    {
      plans := map p | p in plans :: if plans[p].advisor == advisor then plans[p].(advisor := target) else plans[p];
    }

    /** Students and plans go to the target, then the row is deleted. */
    method RemoveByTransfer(advisor: int, target: int) returns (moved: nat)
      requires UniquePairs(links) && advisor != target
      modifies this
      ensures moved == |LinksBy(old(Current()), advisor)|
      ensures exists handed :: IsTransfer(old(Current()), Current(), handed, advisor, target)
    {
      ghost var db := Current();
      moved := HandOver(advisor, target);
      ghost var handed := links;
      MovePlans(advisor, target);
      ghost var mid := Current();
      assert mid == Repointed(db, advisor, target, handed);
      DeleteUser(advisor);
      assert IsTransfer(db, Current(), handed, advisor, target);
    }

    /** The advisor's plans and links are deleted with the row. */
    method RemoveByDetaching(advisor: int) returns (detached: nat)
      modifies this
      ensures detached == |LinksBy(old(Current()), advisor)|
      ensures Current() == WithoutUser(old(Current()), advisor)
    {
      ghost var db := Current();
      var theirs, authored := LinksBy(Current(), advisor), Authored(Current(), advisor);
      DeletePlans(authored);
      links := links - theirs;
      CascadeSubsumes(db, advisor, authored, links);
      DeleteUser(advisor);
      return |theirs|;
    }

    /** The deletion itself, with its audit entry. */
    method RemoveAdvisor(actor: int, advisor: int, strategy: string, target: Option<int>) returns (report: Report)
      requires actor in users && actor != advisor && advisor in users && Intact(Current())
      requires strategy == "transfer" ==> target.Some? && target.value in users && target.value != advisor
      modifies this
      ensures Intact(Current()) && report == AdvisorReport(old(Current()), advisor, strategy)
      ensures if strategy == "transfer" then TransfersTo(old(Current()), Current(), advisor, target.value)
              else DeletesOnly(old(Current()), Current(), advisor)
    {
      IntactIsUnique(Current());
      hide Intact, DeletesOnly, TransfersTo, WithoutUser, IsTransfer;
      ghost var db := Current();
      var students := |LinksBy(Current(), advisor)|;
      var authored := Authored(Current(), advisor);
      var drafts := |Drafts(Current(), authored)|;
      if strategy == "transfer" {
        var moved := RemoveByTransfer(advisor, target.value);
        ghost var handed :| IsTransfer(db, Current(), handed, advisor, target.value);
        TransferIsLogged(db, Current(), handed, actor, advisor, target.value);
        audit := audit + [Some(actor)];
        return Report(0, 0, 0, 0, students, moved, 0);
      }
      DeletionIsLogged(db, actor, advisor);
      var detached := RemoveByDetaching(advisor);
      audit := audit + [Some(actor)];
      return Report(|authored|, drafts, 0, 0, students, 0, detached);
    }

    /**
     Deletes an advisor. By transfer the target has the students of both and the plans survive, unless they are plans for
     the deleted user; otherwise the advisor's plans go and everybody else's stay.
     */
    method DeleteAdvisor(actor: int, advisor: int, strategy: string, target: Option<int>) returns (r: Result<Report, Problem>)
      requires actor in users && Intact(Current())
      modifies this
      ensures Intact(Current())
      ensures r.Ok? <==> MayDeleteAdvisor(old(Current()), actor, advisor, strategy, target)
      ensures r.Ok? ==> CountsAdvisor(old(Current()), r.value, advisor, strategy)
      ensures match AdvisorDeletionProblem(old(Current()), actor, advisor, strategy, target)
              case Some(why) => r == Err(why) && Current() == old(Current())
              case None =>
                && r == Ok(AdvisorReport(old(Current()), advisor, strategy))
                && (if strategy == "transfer" then TransfersTo(old(Current()), Current(), advisor, target.value)
                    else DeletesOnly(old(Current()), Current(), advisor))
    {
      RefusalsMean(Current(), actor, advisor, strategy, target);
      ReportsMean(Current(), advisor, strategy);
      hide Intact, DeletesOnly, TransfersTo, WithoutUser, IsTransfer, MayDeleteStudent, MayDeleteAdvisor, MayTransferStudent;
      hide CountsStudent, CountsAdvisor, StudentReport, StudentDeletionProblem, TransferProblem;
      var problem := AdvisorProblem(Current(), actor, advisor);
      if problem.Some? {
        return Err(problem.value);
      }
      if strategy == "transfer" {
        var wrong := TargetProblem(Current(), advisor, target);
        if wrong.Some? {
          return Err(wrong.value);
        }
      }
      var report := RemoveAdvisor(actor, advisor, strategy, target);
      return Ok(report);
    }

    /**
     Moves a student to another advisor: the target gets the student and every other advisor loses them, and nothing else
     changes; plans keep their author.
     */
    method TransferStudent(actor: int, student: int, target: int) returns (r: Result<int, Problem>)
      requires actor in users && Intact(Current())
      modifies this
      ensures Intact(Current())
      ensures r.Ok? <==> MayTransferStudent(old(Current()), actor, student, target)
      ensures match TransferProblem(old(Current()), actor, student, target)
              case Some(why) => r == Err(why) && Current() == old(Current())
              case None =>
                && r.Ok? && Current() == old(Current()).(links := links, audit := old(audit) + [Some(actor)])
                && (forall a :: StudentsOf(Current(), a) == if a == target then StudentsOf(old(Current()), a) + {student}
                                                            else StudentsOf(old(Current()), a) - {student})
    {
      RefusalsMean(Current(), actor, student, "", Some(target));
      hide Intact, StudentsOf, MayDeleteStudent, MayDeleteAdvisor, MayTransferStudent, StudentDeletionProblem, AdvisorDeletionProblem;
      if !AdminPower(users[actor]) {
        return Err(Forbidden);
      }
      if student !in users || users[student].role != Student {
        return Err(Unknown);
      }
      if target !in users || users[target].role == Student {
        return Err(BadTarget);
      }
      ghost var db := Current();
      links := links - LinksTo(Current(), student);
      var id := FreshId(links);
      ReassignedHasOneAdvisor(db, student, target, id);
      LoggedIsIntact(Reassigned(db, student, target, id), actor);
      LoggedStudents(Reassigned(db, student, target, id), actor);
      links := links[id := Link(target, student)];
      audit := audit + [Some(actor)];
      return Ok(id);
    }
  }
}
