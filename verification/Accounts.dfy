/**
 Accounts: who a Telegram id belongs to, invitations, access requests.

 The database is a map of account rows; a step that raises is rolled back with its transaction. Row ids and invitation
 tokens are drawn by the database and by a random generator, so they are parameters of the steps that use them.
 */
module Accounts {
  import opened Prelude

  datatype Role = Admin | Advisor | Student

  datatype User = User(role: Role, telegram: Option<int>, active: bool, token: Option<string>, expires: Option<int>)

  datatype RequestStatus = Pending | Approved | Rejected

  /** `drawn` and `issued` hold every row id and token ever drawn; the database only keeps the current ones. */
  datatype State = State(
    users: map<int, User>, links: set<(int, int)>, requests: map<int, RequestStatus>, drawn: set<int>,
    issued: set<string>)

  datatype Outcome = Linked | AlreadySelf | RoleConflict | CrossStudent | AlreadyLinked | Expired | Invalid

  datatype Refusal =
    NoAccount | NotAllowed | NotFound | NotAssigned | Suspended | BadName | BadRole | Taken | Connected | Handled | BadKey
    | OwnAccount | BadAdvisor

  datatype Reply = Done | Visitor | Refused(why: Refusal) | Claimed(outcome: Outcome) | Raised

  /** Invitations live for fourteen days; times are seconds. */
  const INVITE_TTL := 14 * 86_400

  /** Shorter tokens are not even looked up. */
  const MIN_TOKEN := 16

  // ---------------------------------------------------------------- look-ups

  /** Telegram ids and tokens are unique among the rows that have one. */
  ghost predicate Unique(users: map<int, User>) {
    && (forall a, b :: a in users && b in users && users[a].telegram.Some? && users[a].telegram == users[b].telegram ==> a == b)
    && (forall a, b :: a in users && b in users && users[a].token.Some? && users[a].token == users[b].token ==> a == b)
  }

  ghost function ByTelegram(users: map<int, User>, tg: int): (r: Option<int>)
    ensures r.Some? ==> r.value in users && users[r.value].telegram == Some(tg)
    ensures r.None? ==> forall id :: id in users ==> users[id].telegram != Some(tg)
  {
    if exists id :: id in users && users[id].telegram == Some(tg) then
      var id :| id in users && users[id].telegram == Some(tg);
      Some(id)
    else
      None
  }

  ghost function ByToken(users: map<int, User>, token: string): (r: Option<int>)
    ensures r.Some? ==> |token| >= MIN_TOKEN && r.value in users && users[r.value].token == Some(token)
    ensures r.None? ==> |token| < MIN_TOKEN || forall id :: id in users ==> users[id].token != Some(token)
  {
    if |token| >= MIN_TOKEN && exists id :: id in users && users[id].token == Some(token) then
      var id :| id in users && users[id].token == Some(token);
      Some(id)
    else
      None
  }

  /** Admin power: listed in the environment, or stored as an admin. */
  predicate IsAdmin(admins: set<int>, u: User) {
    (u.telegram.Some? && u.telegram.value in admins) || u.role == Admin
  }

  /** Why `actor` may not manage `student`, if so. */
  function OwnershipProblem(s: State, actor: int, student: int): Option<Refusal> {
    if actor !in s.users then Some(NoAccount)
    else if student !in s.users then Some(NotFound)
    else if s.users[actor].role == Admin || (actor, student) in s.links then None
    else Some(NotAssigned)
  }

  function NotAdmin(admins: set<int>, s: State, actor: int): Option<Refusal> {
    if actor !in s.users then Some(NoAccount)
    else if !IsAdmin(admins, s.users[actor]) then Some(NotAllowed)
    else None
  }

  function Cleared(u: User): User { u.(token := None, expires := None) }

  // ---------------------------------------------------------------- the specification, step by step

  datatype Step =
    | Arrive(tg: int, id: int, opensInvite: bool)
    | CreateStudent(actor: int, id: int, nameOk: bool, telegram: Option<int>, token: string, now: int)
    | NewInvite(actor: int, student: int, token: string, now: int)
    | RevokeInvite(actor: int, student: int)
    | LinkTelegram(actor: int, student: int, tg: int)
    | Claim(tg: int, token: string, now: int)
    | ApproveRequest(actor: int, tg: int, role: Role, id: int, advisor: Option<int>)
    | RejectRequest(actor: int, tg: int)
    | CreateAdvisor(actor: int, id: int, nameOk: bool, tg: int)
    | UnlinkTelegram(actor: int, student: int)
    | ToggleActive(actor: int, id: int)
    | RemoveStudent(actor: int, student: int)
    | RemoveAdvisor(actor: int, leaving: int, successor: Option<int>)
    | Detach(actor: int, student: int)
    | Reassign(actor: int, student: int, target: int)
    | EditTelegram(actor: int, id: int, tg: int)

  /** The middleware: admins are created or promoted, unknown visitors are queued. */
  ghost function Arrived(admins: set<int>, s: State, tg: int, id: int, opensInvite: bool): (State, Reply) {
    match ByTelegram(s.users, tg)
    case Some(row) =>
      if tg in admins then (s.(users := s.users[row := s.users[row].(role := Admin, active := true)]), Done)
      else (s, Done)
    case None =>
      if tg in admins then (s.(users := s.users[id := User(Admin, Some(tg), true, None, None)], drawn := s.drawn + {id}), Done)
      else if opensInvite || tg in s.requests then (s, Visitor)
      else (s.(requests := s.requests[tg := Pending]), Visitor)
  }

  ghost function Created(admins: set<int>, s: State, step: Step): (State, Reply)
    requires step.CreateStudent?
  {
    var CreateStudent(actor, id, nameOk, telegram, token, now) := step;
    if actor !in s.users then (s, Refused(NoAccount))
    else if s.users[actor].role == Student then (s, Refused(NotAllowed))
    else if !s.users[actor].active && !IsAdmin(admins, s.users[actor]) then (s, Refused(Suspended))
    else if !nameOk then (s, Refused(BadName))
    else if telegram.Some? && ByTelegram(s.users, telegram.value).Some? then (s, Refused(Taken))
    else
      var row :=
        if telegram.Some? then User(Student, telegram, true, None, None)
        else User(Student, None, true, Some(token), Some(now + INVITE_TTL));
      (s.(users := s.users[id := row], links := s.links + {(actor, id)}, drawn := s.drawn + {id},
          issued := if telegram.Some? then s.issued else s.issued + {token}), Done)
  }

  function Invited(s: State, actor: int, student: int, token: string, now: int): (State, Reply) {
    match OwnershipProblem(s, actor, student)
    case Some(why) => (s, Refused(why))
    case None =>
      if s.users[student].telegram.Some? then (s, Refused(Connected))
      else (s.(users := s.users[student := s.users[student].(token := Some(token), expires := Some(now + INVITE_TTL))],
               issued := s.issued + {token}), Done)
  }

  function Revoked(s: State, actor: int, student: int): (State, Reply) {
    match OwnershipProblem(s, actor, student)
    case Some(why) => (s, Refused(why))
    case None => (s.(users := s.users[student := Cleared(s.users[student])]), Done)
  }

  ghost function ManuallyLinked(s: State, actor: int, student: int, tg: int): (State, Reply) {
    match OwnershipProblem(s, actor, student)
    case Some(why) => (s, Refused(why))
    case None =>
      var other := ByTelegram(s.users, tg);
      if s.users[student].telegram == Some(tg) then (s, Done)
      else if other.Some? && other.value != student then (s, Refused(Taken))
      else (s.(users := s.users[student := Cleared(s.users[student]).(telegram := Some(tg))]), Done)
  }

  /** The repository's binding of a row, folding another student row away; None when it raises. */
  ghost function BoundRow(users: map<int, User>, student: int, tg: int): Option<map<int, User>>
    requires student in users
  {
    var other := ByTelegram(users, tg);
    if other.Some? && other.value != student then
      if users[other.value].role != Student then None
      else
        var folded := users[other.value := users[other.value].(telegram := None, active := false)];
        Some(folded[student := Cleared(users[student]).(telegram := Some(tg))])
    else
      Some(users[student := Cleared(users[student]).(telegram := Some(tg))])
  }

  ghost function ClaimResult(admins: set<int>, s: State, tg: int, token: string, now: int): (State, Reply) {
    var actor := ByTelegram(s.users, tg);
    var holder := ByToken(s.users, token);
    if tg in admins || (actor.Some? && s.users[actor.value].role != Student) then (s, Claimed(RoleConflict))
    else if holder.None? then (s, Claimed(Invalid))
    else
      var student := holder.value;
      var row := s.users[student];
      if row.expires.Some? && row.expires.value < now then (s, Claimed(Expired))
      else if row.telegram == Some(tg) then (s.(users := s.users[student := Cleared(row)]), Claimed(AlreadySelf))
      else if row.telegram.Some? then (s, Claimed(AlreadyLinked))
      else if actor.Some? && actor.value != student then (s, Claimed(CrossStudent))
      else
        match BoundRow(s.users, student, tg)
        case None => (s, Raised)
        case Some(users) => (s.(users := users), Claimed(Linked))
  }

  ghost function ApprovalResult(admins: set<int>, s: State, step: Step): (State, Reply)
    requires step.ApproveRequest?
  {
    var ApproveRequest(actor, tg, role, id, advisor) := step;
    var problem := NotAdmin(admins, s, actor);
    var guide := if advisor.Some? then advisor.value else actor;
    if problem.Some? then (s, Refused(problem.value))
    else if role == Admin then (s, Refused(BadRole))
    else if tg !in s.requests then (s, Refused(NotFound))
    else if s.requests[tg] == Approved then (s, Refused(Handled))
    else if ByTelegram(s.users, tg).Some? then (s, Refused(Taken))
    else if role == Student && guide !in s.users then (s, Refused(BadKey))
    else
      (s.(users := s.users[id := User(role, Some(tg), true, None, None)],
          links := if role == Student then s.links + {(guide, id)} else s.links,
          drawn := s.drawn + {id},
          requests := s.requests[tg := Approved]), Done)
  }

  function RejectionResult(admins: set<int>, s: State, actor: int, tg: int): (State, Reply) {
    var problem := NotAdmin(admins, s, actor);
    if problem.Some? then (s, Refused(problem.value))
    else if tg !in s.requests then (s, Refused(NotFound))
    else (s.(requests := s.requests[tg := Rejected]), Done)
  }

  ghost function AdvisorCreated(admins: set<int>, s: State, step: Step): (State, Reply)
    requires step.CreateAdvisor?
  {
    var CreateAdvisor(actor, id, nameOk, tg) := step;
    var problem := NotAdmin(admins, s, actor);
    if problem.Some? then (s, Refused(problem.value))
    else if !nameOk then (s, Refused(BadName))
    else if ByTelegram(s.users, tg).Some? then (s, Refused(Taken))
    else
      (s.(users := s.users[id := User(Advisor, Some(tg), true, None, None)], drawn := s.drawn + {id},
          requests := if tg in s.requests then s.requests[tg := Approved] else s.requests), Done)
  }

  function Unlinked(admins: set<int>, s: State, actor: int, student: int): (State, Reply) {
    var problem := NotAdmin(admins, s, actor);
    if problem.Some? then (s, Refused(problem.value))
    else if student !in s.users || s.users[student].role != Student then (s, Refused(NotFound))
    else (s.(users := s.users[student := s.users[student].(telegram := None)]), Done)
  }

  function Toggled(admins: set<int>, s: State, actor: int, id: int): (State, Reply) {
    var problem := NotAdmin(admins, s, actor);
    if problem.Some? then (s, Refused(problem.value))
    else if id !in s.users then (s, Refused(NotFound))
    else if IsAdmin(admins, s.users[id]) then (s, Refused(NotAllowed))
    else (s.(users := s.users[id := s.users[id].(active := !s.users[id].active)]), Done)
  }

  /** What is left of the links when a row goes. */
  function LinksLeft(links: set<(int, int)>, id: int): set<(int, int)> {
    set l <- links | l.0 != id && l.1 != id
  }

  function LinksMoved(links: set<(int, int)>, advisor: int, target: int): set<(int, int)> {
    set l <- links :: if l.0 == advisor then (target, l.1) else l
  }

  function StudentScope(admins: set<int>, s: State, actor: int, student: int): Option<Refusal> {
    if actor !in s.users then Some(NoAccount)
    else if IsAdmin(admins, s.users[actor]) then
      if student !in s.users || s.users[student].role != Student then Some(NotFound) else None
    else if !s.users[actor].active then Some(Suspended)
    else OwnershipProblem(s, actor, student)
  }

  function StudentRemoved(admins: set<int>, s: State, actor: int, student: int): (State, Reply) {
    var problem := StudentScope(admins, s, actor, student);
    if problem.Some? then (s, Refused(problem.value))
    else if student == actor then (s, Refused(OwnAccount))
    else (s.(users := s.users - {student}, links := LinksLeft(s.links, student)), Done)
  }

  /** Without a target the students are only detached. */
  function AdvisorRemoved(admins: set<int>, s: State, actor: int, advisor: int, target: Option<int>): (State, Reply) {
    var problem := NotAdmin(admins, s, actor);
    if problem.Some? then (s, Refused(problem.value))
    else if advisor !in s.users || s.users[advisor].role == Student then (s, Refused(NotFound))
    else if advisor == actor || IsAdmin(admins, s.users[advisor]) then (s, Refused(OwnAccount))
    else if target.Some? && (target.value !in s.users || s.users[target.value].role == Student || target.value == advisor)
    then (s, Refused(BadAdvisor))
    else
      var links := if target.Some? then LinksMoved(s.links, advisor, target.value) else s.links;
      (s.(users := s.users - {advisor}, links := LinksLeft(links, advisor)), Done)
  }

  function Detached(s: State, actor: int, student: int): (State, Reply) {
    match OwnershipProblem(s, actor, student)
    case Some(why) => (s, Refused(why))
    case None => (s.(links := s.links - {(actor, student)}), Done)
  }

  function AdvisorChanged(admins: set<int>, s: State, actor: int, student: int, target: int): (State, Reply) {
    var problem := NotAdmin(admins, s, actor);
    if problem.Some? then (s, Refused(problem.value))
    else if student !in s.users || s.users[student].role != Student then (s, Refused(NotFound))
    else if target !in s.users || s.users[target].role == Student then (s, Refused(BadAdvisor))
    else (s.(links := (set l <- s.links | l.1 != student) + {(target, student)}), Done)
  }

  /** The admins' edit form: it sets a Telegram id without looking at the role or the pending token of the row. */
  ghost function TelegramEdited(admins: set<int>, s: State, actor: int, id: int, tg: int): (State, Reply) {
    var problem := NotAdmin(admins, s, actor);
    var taken := ByTelegram(s.users, tg);
    if problem.Some? then (s, Refused(problem.value))
    else if id !in s.users then (s, Refused(NotFound))
    else if taken.Some? && taken.value != id then (s, Refused(Taken))
    else (s.(users := s.users[id := s.users[id].(telegram := Some(tg))]), Done)
  }

  /** One step of the account system, with what it answers. */
  ghost function Apply(admins: set<int>, s: State, step: Step): (State, Reply) {
    match step
    case Arrive(tg, id, opensInvite) => Arrived(admins, s, tg, id, opensInvite)
    case CreateStudent(_, _, _, _, _, _) => Created(admins, s, step)
    case NewInvite(actor, student, token, now) => Invited(s, actor, student, token, now)
    case RevokeInvite(actor, student) => Revoked(s, actor, student)
    case LinkTelegram(actor, student, tg) => ManuallyLinked(s, actor, student, tg)
    case Claim(tg, token, now) => ClaimResult(admins, s, tg, token, now)
    case ApproveRequest(_, _, _, _, _) => ApprovalResult(admins, s, step)
    case RejectRequest(actor, tg) => RejectionResult(admins, s, actor, tg)
    case CreateAdvisor(_, _, _, _) => AdvisorCreated(admins, s, step)
    case UnlinkTelegram(actor, student) => Unlinked(admins, s, actor, student)
    case ToggleActive(actor, id) => Toggled(admins, s, actor, id)
    case RemoveStudent(actor, student) => StudentRemoved(admins, s, actor, student)
    case RemoveAdvisor(actor, leaving, successor) => AdvisorRemoved(admins, s, actor, leaving, successor)
    case Detach(actor, student) => Detached(s, actor, student)
    case Reassign(actor, student, target) => AdvisorChanged(admins, s, actor, student, target)
    case EditTelegram(actor, id, tg) => TelegramEdited(admins, s, actor, id, tg)
  }

  // ---------------------------------------------------------------- look-ups by scanning the table

  /** The row with a Telegram id, by a scan of the table. */
  method FindTelegram(users: map<int, User>, tg: int) returns (r: Option<int>)
    requires Unique(users)
    ensures r == ByTelegram(users, tg)
  {
    var todo: set<int> := users.Keys;
    while todo != {}
      invariant todo <= users.Keys
      invariant forall id :: id in users && id !in todo ==> users[id].telegram != Some(tg)
      decreases |todo|
    {
      var id := Pick(todo);
      if users[id].telegram == Some(tg) {
        return Some(id);
      }
      todo := todo - {id};
    }
    return None;
  }

  method FindToken(users: map<int, User>, token: string) returns (r: Option<int>)
    requires Unique(users)
    ensures r == ByToken(users, token)
  {
    if |token| < MIN_TOKEN {
      return None;
    }
    var todo: set<int> := users.Keys;
    while todo != {}
      invariant todo <= users.Keys
      invariant forall id :: id in users && id !in todo ==> users[id].token != Some(token)
      decreases |todo|
    {
      var id := Pick(todo);
      if users[id].token == Some(token) {
        return Some(id);
      }
      todo := todo - {id};
    }
    return None;
  }
}
