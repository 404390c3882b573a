/**
 The stored accounts. Every method keeps the invariant of the runs and lowers no role, so whatever calls are made on a new
 directory, the theorems about runs hold of it.
 */
module AccountDirectory {
  import opened Prelude
  import opened Accounts
  import opened AccountRuns

  // ---------------------------------------------------------------- what the steps mean

  /** Nobody has this Telegram id. */
  predicate IsFree(s: State, tg: int) { forall k :: k in s.users ==> s.users[k].telegram != Some(tg) }

  /** The row can be claimed with the token until the given time. */
  ghost predicate WaitsUntil(s: State, id: int, token: string, until: int) {
    forall now :: now <= until ==> Waiting(s, id, token, now)
  }

  /** The Telegram id belongs to an active admin. */
  predicate HasAdmin(s: State, tg: int) {
    exists k :: k in s.users && s.users[k].telegram == Some(tg) && s.users[k].role == Admin && s.users[k].active
  }

  /** One row becomes connected and loses its token; every other row is as before. */
  predicate ConnectsOnly(before: State, after: State, id: int, tg: int) {
    && id in before.users && before.users[id].role == Student && before.users[id].telegram.None?
    && after.users == before.users[id := before.users[id].(telegram := Some(tg), token := None, expires := None)]
  }

  lemma StepIsSound(admins: set<int>, s: State, step: Step)
    requires Consistent(s) && Legal(s, step)
    ensures Consistent(Apply(admins, s, step).0) && RolesKept(s, Apply(admins, s, step).0) && Unique(s.users)
  {
    StepKeepsConsistent(admins, s, step);
    StepKeepsRoles(admins, s, step);
  }

  /** Stored as an admin, or listed as one. */
  predicate HasPower(admins: set<int>, u: User) {
    u.role == Admin || (u.telegram.Some? && u.telegram.value in admins)
  }

  predicate MayAdminister(admins: set<int>, s: State, actor: int) {
    actor in s.users && HasPower(admins, s.users[actor])
  }

  /** Stored admins manage every row, everybody else the rows they are linked to. */
  predicate Manages(s: State, actor: int, student: int) {
    actor in s.users && student in s.users && (s.users[actor].role == Admin || (actor, student) in s.links)
  }

  /** The accounts are now `users`; links and requests are as before. */
  predicate OnlyUsers(before: State, after: State, users: map<int, User>) {
    after.users == users && after.links == before.links && after.requests == before.requests
  }

  /** Only the accounts or only the links or only the requests. */
  predicate OnlyLinks(before: State, after: State, links: set<(int, int)>) {
    after.users == before.users && after.links == links && after.requests == before.requests
  }

  predicate OnlyRequests(before: State, after: State, requests: map<int, RequestStatus>) {
    after.users == before.users && after.links == before.links && after.requests == requests
  }

  /** Done under exactly one condition; otherwise nothing changes. */
  predicate DoneIff(condition: bool, before: State, after: State, reply: Reply) {
    (reply == Done <==> condition) && (reply != Done ==> after == before)
  }

  // ---------------------------------------------------------------- arrival

  /** A listed id gets its row promoted and activated, or a new one; anybody else changes no account. */
  predicate Arrives(admins: set<int>, s: State, after: State, reply: Reply, tg: int, id: int, opensInvite: bool) {
    && (reply == Visitor <==> tg !in admins && IsFree(s, tg))
    && (tg in admins && IsFree(s, tg) ==> OnlyUsers(s, after, s.users[id := User(Admin, Some(tg), true, None, None)]))
    && (tg in admins ==> forall k :: k in s.users && s.users[k].telegram == Some(tg) ==>
          OnlyUsers(s, after, s.users[k := s.users[k].(role := Admin, active := true)]))
    && (tg !in admins ==>
          OnlyRequests(s, after, if reply == Visitor && !opensInvite && tg !in s.requests then s.requests[tg := Pending]
                                 else s.requests))
  }

  lemma ArrivalMeans(admins: set<int>, s: State, tg: int, id: int, opensInvite: bool)
    requires Consistent(s) && id !in s.drawn
    ensures var (after, reply) := Arrived(admins, s, tg, id, opensInvite);
            && Apply(admins, s, Arrive(tg, id, opensInvite)) == (after, reply)
            && Arrives(admins, s, after, reply, tg, id, opensInvite)
            && (tg in admins ==> HasAdmin(after, tg))
            && (reply == Visitor && !opensInvite ==> tg in after.requests)
  {
    var (after, reply) := Arrived(admins, s, tg, id, opensInvite);
    if tg in admins {
      var k := if ByTelegram(s.users, tg).Some? then ByTelegram(s.users, tg).value else id;
      assert k in after.users && after.users[k].telegram == Some(tg);
    }
  }

  // ---------------------------------------------------------------- new accounts

  /** An active advisor or an admin adds one student row under a link of their own. */
  predicate AddsStudent(
    admins: set<int>, s: State, after: State, reply: Reply, actor: int, id: int, nameOk: bool, telegram: Option<int>,
    token: string, now: int)
  {
    && DoneIff(
         && actor in s.users && s.users[actor].role != Student && (s.users[actor].active || HasPower(admins, s.users[actor]))
         && nameOk && (telegram.Some? ==> IsFree(s, telegram.value)), s, after, reply)
    && (reply == Done ==>
          && after.users == s.users[id :=
               if telegram.Some? then User(Student, telegram, true, None, None)
               else User(Student, None, true, Some(token), Some(now + 14 * 86_400))]
          && after.links == s.links + {(actor, id)} && after.requests == s.requests)
  }

  lemma StudentMeans(admins: set<int>, s: State, step: Step)
    requires step.CreateStudent? && Consistent(s) && Legal(s, step)
    ensures var (after, reply) := Created(admins, s, step);
            var CreateStudent(actor, id, nameOk, telegram, token, now) := step;
            && Apply(admins, s, step) == (after, reply)
            && AddsStudent(admins, s, after, reply, actor, id, nameOk, telegram, token, now)
            && (reply == Done && telegram.None? && |token| >= 16 ==> WaitsUntil(after, id, token, now + 14 * 86_400))
  {}

  /** Only an admin grants, only a waiting or rejected request without account, never an admin role. */
  predicate Grants(
    admins: set<int>, s: State, after: State, reply: Reply, actor: int, tg: int, role: Role, id: int, advisor: Option<int>)
  {
    var guide := if advisor.Some? then advisor.value else actor;
    && DoneIff(
         && MayAdminister(admins, s, actor) && role != Admin && tg in s.requests && s.requests[tg] != Approved
         && IsFree(s, tg) && (role == Student ==> guide in s.users), s, after, reply)
    && (reply == Done ==>
          && after.users == s.users[id := User(role, Some(tg), true, None, None)]
          && after.links == (if role == Student then s.links + {(guide, id)} else s.links)
          && after.requests == s.requests[tg := Approved])
  }

  lemma ApprovalMeans(admins: set<int>, s: State, step: Step)
    requires step.ApproveRequest? && Consistent(s) && Legal(s, step)
    ensures var (after, reply) := ApprovalResult(admins, s, step);
            var ApproveRequest(actor, tg, role, id, advisor) := step;
            && Apply(admins, s, step) == (after, reply)
            && Grants(admins, s, after, reply, actor, tg, role, id, advisor)
            && (reply == Done ==> forall again: Step :: again.ApproveRequest? && again.tg == tg ==>
                  Apply(admins, after, again).1 != Done)
  {}

  /** Only an admin adds an advisor, with a free id; a request of that id is closed. */
  predicate AddsAdvisor(
    admins: set<int>, s: State, after: State, reply: Reply, actor: int, id: int, nameOk: bool, tg: int)
  {
    && DoneIff(MayAdminister(admins, s, actor) && nameOk && IsFree(s, tg), s, after, reply)
    && (reply == Done ==>
          && after.users == s.users[id := User(Advisor, Some(tg), true, None, None)] && after.links == s.links
          && after.requests == if tg in s.requests then s.requests[tg := Approved] else s.requests)
  }

  lemma AdvisorMeans(admins: set<int>, s: State, step: Step)
    requires step.CreateAdvisor? && Consistent(s) && Legal(s, step)
    ensures var (after, reply) := AdvisorCreated(admins, s, step);
            && Apply(admins, s, step) == (after, reply)
            && AddsAdvisor(admins, s, after, reply, step.actor, step.id, step.nameOk, step.tg)
  {}

  // ---------------------------------------------------------------- invitations

  /** The row waits with the new token for fourteen days. */
  predicate Invites(s: State, after: State, reply: Reply, actor: int, student: int, token: string, now: int) {
    && DoneIff(Manages(s, actor, student) && s.users[student].telegram.None?, s, after, reply)
    && (reply == Done ==>
          OnlyUsers(s, after,
                    s.users[student := s.users[student].(token := Some(token), expires := Some(now + 14 * 86_400))]))
  }

  lemma InviteMeans(s: State, actor: int, student: int, token: string, now: int)
    requires Consistent(s) && token !in s.issued
    ensures forall admins :: Apply(admins, s, NewInvite(actor, student, token, now)) == Invited(s, actor, student, token, now)
    ensures var (after, reply) := Invited(s, actor, student, token, now);
            && Invites(s, after, reply, actor, student, token, now)
            && (reply == Done && |token| >= 16 ==> WaitsUntil(after, student, token, now + 14 * 86_400))
            && (reply == Done && s.users[student].token.Some? ==> Spent(after, s.users[student].token.value))
  {}

  predicate Revokes(s: State, after: State, reply: Reply, actor: int, student: int) {
    && DoneIff(Manages(s, actor, student), s, after, reply)
    && (reply == Done ==> OnlyUsers(s, after, s.users[student := s.users[student].(token := None, expires := None)]))
  }

  lemma RevokeMeans(s: State, actor: int, student: int)
    requires Consistent(s)
    ensures forall admins :: Apply(admins, s, RevokeInvite(actor, student)) == Revoked(s, actor, student)
    ensures var (after, reply) := Revoked(s, actor, student);
            && Revokes(s, after, reply, actor, student)
            && (reply == Done && s.users[student].token.Some? ==> Spent(after, s.users[student].token.value))
  {}

  /** An id that is free connects the row and ends its invitation; its own id changes nothing. */
  predicate LinksId(s: State, after: State, reply: Reply, actor: int, student: int, tg: int) {
    && DoneIff(Manages(s, actor, student) && (IsFree(s, tg) || s.users[student].telegram == Some(tg)), s, after, reply)
    && (reply == Done && s.users[student].telegram == Some(tg) ==> after == s)
    && (reply == Done && s.users[student].telegram != Some(tg) ==>
          OnlyUsers(s, after,
                    s.users[student := s.users[student].(telegram := Some(tg), token := None, expires := None)]))
  }

  lemma LinkMeans(s: State, actor: int, student: int, tg: int)
    requires Consistent(s)
    ensures forall admins :: Apply(admins, s, LinkTelegram(actor, student, tg)) == ManuallyLinked(s, actor, student, tg)
    ensures var (after, reply) := ManuallyLinked(s, actor, student, tg);
            && LinksId(s, after, reply, actor, student, tg)
            && (reply == Done && s.users[student].token.Some? ==> Spent(after, s.users[student].token.value))
  {}

  /** An admin, listed or stored, or an advisor. */
  predicate IsStaff(admins: set<int>, s: State, tg: int) {
    tg in admins || exists k :: k in s.users && s.users[k].telegram == Some(tg) && s.users[k].role != Student
  }

  /** Some row was sent this token, which is no longer valid. */
  predicate IsLate(s: State, token: string, now: int) {
    |token| >= 16 && exists k :: k in s.users && s.users[k].token == Some(token)
                                 && s.users[k].expires.Some? && s.users[k].expires.value < now
  }

  /** Which answer a claim gets. */
  ghost predicate Answers(admins: set<int>, s: State, reply: Reply, tg: int, token: string, now: int) {
    && (reply == Claimed(RoleConflict) <==> IsStaff(admins, s, tg))
    && (reply == Claimed(Expired) <==> !IsStaff(admins, s, tg) && IsLate(s, token, now))
    && (reply == Claimed(CrossStudent) <==>
          !IsStaff(admins, s, tg) && !IsFree(s, tg) && exists id :: Waiting(s, id, token, now))
    && (reply == Claimed(Linked) <==> Newcomer(admins, s, tg) && exists id :: Waiting(s, id, token, now))
    && reply in {Claimed(RoleConflict), Claimed(Expired), Claimed(CrossStudent), Claimed(Linked), Claimed(Invalid)}
  }

  lemma ClaimAnswers(admins: set<int>, s: State, tg: int, token: string, now: int)
    requires Consistent(s)
    ensures Answers(admins, s, ClaimResult(admins, s, tg, token, now).1, tg, token, now)
  {
    ClaimKeeps(admins, s, tg, token, now);
    ClaimLinksExactlyNewcomers(admins, s, tg, token, now);
    var holder := ByToken(s.users, token);
    var actor := ByTelegram(s.users, tg);
    if holder.Some? {
      assert IsLate(s, token, now) <==> s.users[holder.value].expires.Some? && s.users[holder.value].expires.value < now;
      assert Waiting(s, holder.value, token, now) <==> !IsLate(s, token, now);
    }
    assert forall id :: Waiting(s, id, token, now) ==> holder == Some(id);
  }

  lemma ClaimMeans(admins: set<int>, s: State, tg: int, token: string, now: int)
    requires Consistent(s)
    ensures var (after, reply) := ClaimResult(admins, s, tg, token, now);
            && Apply(admins, s, Claim(tg, token, now)) == (after, reply)
            && Answers(admins, s, reply, tg, token, now)
            && (reply == Claimed(Linked) ==>
                  && Spent(after, token) && after.links == s.links && after.requests == s.requests
                  && exists id :: Waiting(s, id, token, now) && ConnectsOnly(s, after, id, tg))
            && (reply != Claimed(Linked) ==> after == s)
            && !Unexpected(reply)
  {
    ClaimKeeps(admins, s, tg, token, now);
    ClaimAnswers(admins, s, tg, token, now);
    hide Answers;
    ClaimLinksExactlyNewcomers(admins, s, tg, token, now);
    var (after, reply) := ClaimResult(admins, s, tg, token, now);
    if reply == Claimed(Linked) {
      var id :| Waiting(s, id, token, now);
      ClaimConnectsOneStudent(admins, s, tg, token, now, id);
      assert ConnectsOnly(s, after, id, tg);
    }
  }

  // ---------------------------------------------------------------- other steps

  predicate Rejects(admins: set<int>, s: State, after: State, reply: Reply, actor: int, tg: int) {
    && DoneIff(MayAdminister(admins, s, actor) && tg in s.requests, s, after, reply)
    && (reply == Done ==> OnlyRequests(s, after, s.requests[tg := Rejected]))
  }

  /** Admins cannot be suspended. */
  predicate Toggles(admins: set<int>, s: State, after: State, reply: Reply, actor: int, id: int) {
    && DoneIff(MayAdminister(admins, s, actor) && id in s.users && !HasPower(admins, s.users[id]), s, after, reply)
    && (reply == Done ==> OnlyUsers(s, after, s.users[id := s.users[id].(active := !s.users[id].active)]))
  }

  lemma RejectionMeans(admins: set<int>, s: State, actor: int, tg: int)
    ensures Apply(admins, s, RejectRequest(actor, tg)) == RejectionResult(admins, s, actor, tg)
    ensures var (after, reply) := RejectionResult(admins, s, actor, tg); Rejects(admins, s, after, reply, actor, tg)
  {}

  lemma ToggleMeans(admins: set<int>, s: State, actor: int, id: int)
    ensures Apply(admins, s, ToggleActive(actor, id)) == Toggled(admins, s, actor, id)
    ensures var (after, reply) := Toggled(admins, s, actor, id); Toggles(admins, s, after, reply, actor, id)
  {}

  predicate Disconnects(admins: set<int>, s: State, after: State, reply: Reply, actor: int, student: int) {
    && DoneIff(MayAdminister(admins, s, actor) && student in s.users && s.users[student].role == Student, s, after, reply)
    && (reply == Done ==> OnlyUsers(s, after, s.users[student := s.users[student].(telegram := None)]))
  }

  lemma UnlinkMeans(admins: set<int>, s: State, actor: int, student: int)
    requires Consistent(s)
    ensures var (after, reply) := Unlinked(admins, s, actor, student);
            && Apply(admins, s, UnlinkTelegram(actor, student)) == (after, reply)
            && Disconnects(admins, s, after, reply, actor, student)
            && (reply == Done && s.users[student].telegram.Some? ==> IsFree(after, s.users[student].telegram.value))
  {}

  /** The row is gone for good: its token is spent and its Telegram id is free. */
  ghost predicate Gone(before: State, after: State, id: int) {
    && after.users == before.users - {id} && id in before.users && id in after.drawn && after.requests == before.requests
    && (before.users[id].token.Some? ==> Spent(after, before.users[id].token.value))
    && (before.users[id].telegram.Some? ==> IsFree(after, before.users[id].telegram.value))
  }

  /** Who may delete a student: an admin any student row, an active advisor the rows they are linked to; nobody themselves. */
  predicate MayDeleteStudent(admins: set<int>, s: State, actor: int, student: int) {
    && actor in s.users && student in s.users && student != actor
    && if HasPower(admins, s.users[actor]) then s.users[student].role == Student
       else s.users[actor].active && (actor, student) in s.links
  }

  lemma StudentRemovalMeans(admins: set<int>, s: State, actor: int, student: int)
    requires Consistent(s)
    ensures var (after, reply) := StudentRemoved(admins, s, actor, student);
            && Apply(admins, s, RemoveStudent(actor, student)) == (after, reply)
            && DoneIff(MayDeleteStudent(admins, s, actor, student), s, after, reply)
            && (reply == Done ==> Gone(s, after, student))
            && (reply == Done ==> forall l :: l in after.links <==> l in s.links && l.0 != student && l.1 != student)
  {}

  /** Only an admin deletes, only an advisor without admin power, and only with a proper advisor as the target, if any. */
  predicate MayDeleteAdvisor(admins: set<int>, s: State, actor: int, advisor: int, target: Option<int>) {
    && MayAdminister(admins, s, actor) && advisor in s.users && advisor != actor
    && s.users[advisor].role == Advisor && !HasPower(admins, s.users[advisor])
    && (target.Some? ==> target.value in s.users && s.users[target.value].role != Student && target.value != advisor)
  }

  /** The other links stay; with a target the students are linked to it. */
  ghost predicate LeavesLinks(before: set<(int, int)>, after: set<(int, int)>, advisor: int, target: Option<int>) {
    forall l: (int, int) :: l in after <==>
      && l.0 != advisor && l.1 != advisor && (l in before || (target == Some(l.0) && (advisor, l.1) in before))
  }

  lemma MovedMember(links: set<(int, int)>, advisor: int, target: int, l: (int, int))
    requires l in links
    ensures (if l.0 == advisor then (target, l.1) else l) in LinksMoved(links, advisor, target)
  {}

  lemma LinksLeave(links: set<(int, int)>, advisor: int, target: Option<int>)
    requires target != Some(advisor)
    ensures var moved := if target.Some? then LinksMoved(links, advisor, target.value) else links;
            LeavesLinks(links, LinksLeft(moved, advisor), advisor, target)
  {
    var moved := if target.Some? then LinksMoved(links, advisor, target.value) else links;
    forall l: (int, int) | l.0 != advisor && l.1 != advisor
      ensures l in moved <==> l in links || (target == Some(l.0) && (advisor, l.1) in links)
    {
      if target.Some? {
        if l in links {
          MovedMember(links, advisor, target.value, l);
        }
        if target == Some(l.0) && (advisor, l.1) in links {
          MovedMember(links, advisor, target.value, (advisor, l.1));
        }
      }
    }
  }

  lemma AdvisorRemovalMeans(admins: set<int>, s: State, actor: int, advisor: int, target: Option<int>)
    requires Consistent(s)
    ensures var (after, reply) := AdvisorRemoved(admins, s, actor, advisor, target);
            && Apply(admins, s, RemoveAdvisor(actor, advisor, target)) == (after, reply)
            && DoneIff(MayDeleteAdvisor(admins, s, actor, advisor, target), s, after, reply)
            && (reply == Done ==> Gone(s, after, advisor) && actor in after.users)
            && (reply == Done ==> LeavesLinks(s.links, after.links, advisor, target))
  {
    if target != Some(advisor) {
      LinksLeave(s.links, advisor, target);
    }
    hide LeavesLinks, LinksMoved, LinksLeft;
  }

  predicate Detaches(s: State, after: State, reply: Reply, actor: int, student: int) {
    && DoneIff(Manages(s, actor, student), s, after, reply)
    && (reply == Done ==> OnlyLinks(s, after, s.links - {(actor, student)}))
  }

  lemma DetachMeans(admins: set<int>, s: State, actor: int, student: int)
    ensures Apply(admins, s, Detach(actor, student)) == Detached(s, actor, student)
    ensures var (after, reply) := Detached(s, actor, student); Detaches(s, after, reply, actor, student)
  {}

  /** Afterwards the student has exactly the new advisor. */
  ghost predicate Reassigns(admins: set<int>, s: State, after: State, reply: Reply, actor: int, student: int, target: int) {
    && DoneIff(
         && MayAdminister(admins, s, actor) && student in s.users && s.users[student].role == Student
         && target in s.users && s.users[target].role != Student, s, after, reply)
    && (reply == Done ==>
          && OnlyLinks(s, after, after.links)
          && forall l :: l in after.links <==> l == (target, student) || (l in s.links && l.1 != student))
  }

  lemma ReassignMeans(admins: set<int>, s: State, actor: int, student: int, target: int)
    ensures var (after, reply) := AdvisorChanged(admins, s, actor, student, target);
            && Apply(admins, s, Reassign(actor, student, target)) == (after, reply)
            && Reassigns(admins, s, after, reply, actor, student, target)
  {}

  predicate Edits(admins: set<int>, s: State, after: State, reply: Reply, actor: int, id: int, tg: int) {
    && DoneIff(
         MayAdminister(admins, s, actor) && id in s.users && (IsFree(s, tg) || s.users[id].telegram == Some(tg)), s, after, reply)
    && (reply == Done ==> OnlyUsers(s, after, s.users[id := s.users[id].(telegram := Some(tg))]))
  }

  lemma EditMeans(admins: set<int>, s: State, actor: int, id: int, tg: int)
    requires Consistent(s)
    ensures var (after, reply) := TelegramEdited(admins, s, actor, id, tg);
            && Apply(admins, s, EditTelegram(actor, id, tg)) == (after, reply)
            && Edits(admins, s, after, reply, actor, id, tg)
  {}

  // ---------------------------------------------------------------- the directory

  class Directory {
    const admins: set<int>
    var users: map<int, User>
    var links: set<(int, int)>
    var requests: map<int, RequestStatus>
    ghost var drawn: set<int>
    ghost var issued: set<string>

    /** The invariant of every run: what a call relies on and leaves behind. */
    ghost predicate Valid()
      reads this
    {
      Consistent(Current())
    }

    ghost function Current(): State
      reads this
    {
      State(users, links, requests, drawn, issued)
    }

    constructor (admins: set<int>)
      ensures Valid() && this.admins == admins && Current() == NEW
    {
      this.admins := admins;
      users, links, requests, drawn, issued := map[], {}, map[], {}, {};
    }

    /** Resolves the account behind an update. */
    method Resolve(tg: int, id: int, opensInvite: bool) returns (reply: Reply)
      requires Valid() && id !in drawn
      modifies this
      ensures Valid() && RolesKept(old(Current()), Current())
      ensures (Current(), reply) == Apply(admins, old(Current()), Arrive(tg, id, opensInvite))
      ensures Arrives(admins, old(Current()), Current(), reply, tg, id, opensInvite)
      ensures tg in admins ==> HasAdmin(Current(), tg)
      ensures reply == Visitor && !opensInvite ==> tg in requests
    {
      hide Consistent, RolesKept, Apply, DoneIff, OnlyUsers, OnlyLinks, OnlyRequests;
      StepIsSound(admins, Current(), Arrive(tg, id, opensInvite));
      ArrivalMeans(admins, Current(), tg, id, opensInvite);
      var row := FindTelegram(users, tg);
      if row.None? && tg in admins {
        users := users[id := User(Admin, Some(tg), true, None, None)];
        drawn := drawn + {id};
      } else if row.Some? && tg in admins {
        var user := users[row.value];
        if user.role != Admin {
          user := user.(role := Admin);
        }
        if !user.active {
          user := user.(active := true);
        }
        users := users[row.value := user];
      } else if row.None? {
        if !opensInvite && tg !in requests {
          requests := requests[tg := Pending];
        }
        return Visitor;
      }
      return Done;
    }

    method RotateToken(student: int, token: string, now: int)
      requires student in users
      modifies this`users, this`issued
      ensures users == old(users)[student := old(users)[student].(token := Some(token), expires := Some(now + INVITE_TTL))]
      ensures issued == old(issued) + {token}
    {
      users := users[student := users[student].(token := Some(token))];
      users := users[student := users[student].(expires := Some(now + INVITE_TTL))];
      issued := issued + {token};
    }

    method AddStudent(actor: int, id: int, nameOk: bool, telegram: Option<int>, token: string, now: int)
      returns (reply: Reply)
      requires Valid() && id !in drawn && token !in issued
      modifies this
      ensures Valid() && RolesKept(old(Current()), Current())
      ensures (Current(), reply) == Apply(admins, old(Current()), CreateStudent(actor, id, nameOk, telegram, token, now))
      ensures AddsStudent(admins, old(Current()), Current(), reply, actor, id, nameOk, telegram, token, now)
      ensures reply == Done && telegram.None? && |token| >= 16 ==> WaitsUntil(Current(), id, token, now + 14 * 86_400)
    {
      ghost var step := CreateStudent(actor, id, nameOk, telegram, token, now);
      hide Consistent, RolesKept, Apply, DoneIff, OnlyUsers, OnlyLinks, OnlyRequests;
      StepIsSound(admins, Current(), step);
      StudentMeans(admins, Current(), step);
      if actor !in users {
        return Refused(NoAccount);
      }
      if users[actor].role == Student {
        return Refused(NotAllowed);
      }
      if !users[actor].active && !IsAdmin(admins, users[actor]) {
        return Refused(Suspended);
      }
      if !nameOk {
        return Refused(BadName);
      }
      if telegram.Some? {
        var taken := FindTelegram(users, telegram.value);
        if taken.Some? {
          return Refused(Taken);
        }
      }
      users := users[id := User(Student, telegram, true, None, None)];
      drawn := drawn + {id};
      if telegram.None? {
        RotateToken(id, token, now);
        assert users == old(users)[id := User(Student, None, true, Some(token), Some(now + INVITE_TTL))];
      }
      links := links + {(actor, id)};
      return Done;
    }

    method IssueInvite(actor: int, student: int, token: string, now: int) returns (reply: Reply)
      requires Valid() && token !in issued
      modifies this
      ensures Valid() && RolesKept(old(Current()), Current())
      ensures (Current(), reply) == Apply(admins, old(Current()), NewInvite(actor, student, token, now))
      ensures Invites(old(Current()), Current(), reply, actor, student, token, now)
      ensures reply == Done && |token| >= 16 ==> WaitsUntil(Current(), student, token, now + 14 * 86_400)
      ensures reply == Done && old(users)[student].token.Some? ==> Spent(Current(), old(users)[student].token.value)
    {
      hide Consistent, RolesKept, Apply, DoneIff, OnlyUsers, OnlyLinks, OnlyRequests;
      StepIsSound(admins, Current(), NewInvite(actor, student, token, now));
      InviteMeans(Current(), actor, student, token, now);
      if actor !in users {
        return Refused(NoAccount);
      }
      if student !in users {
        return Refused(NotFound);
      }
      if users[actor].role != Admin && (actor, student) !in links {
        return Refused(NotAssigned);
      }
      if users[student].telegram.Some? {
        return Refused(Connected);
      }
      RotateToken(student, token, now);
      return Done;
    }

    method Revoke(actor: int, student: int) returns (reply: Reply)
      requires Valid()
      modifies this
      ensures Valid() && RolesKept(old(Current()), Current())
      ensures (Current(), reply) == Apply(admins, old(Current()), RevokeInvite(actor, student))
      ensures Revokes(old(Current()), Current(), reply, actor, student)
      ensures reply == Done && old(users)[student].token.Some? ==> Spent(Current(), old(users)[student].token.value)
    {
      hide Consistent, RolesKept, Apply, DoneIff, OnlyUsers, OnlyLinks, OnlyRequests;
      StepIsSound(admins, Current(), RevokeInvite(actor, student));
      RevokeMeans(Current(), actor, student);
      if actor !in users {
        return Refused(NoAccount);
      }
      if student !in users {
        return Refused(NotFound);
      }
      if users[actor].role != Admin && (actor, student) !in links {
        return Refused(NotAssigned);
      }
      users := users[student := users[student].(token := None, expires := None)];
      return Done;
    }

    method LinkById(actor: int, student: int, tg: int) returns (reply: Reply)
      requires Valid()
      modifies this
      ensures Valid() && RolesKept(old(Current()), Current())
      ensures (Current(), reply) == Apply(admins, old(Current()), LinkTelegram(actor, student, tg))
      ensures LinksId(old(Current()), Current(), reply, actor, student, tg)
      ensures reply == Done && old(users)[student].token.Some? ==> Spent(Current(), old(users)[student].token.value)
    {
      hide Consistent, RolesKept, Apply, DoneIff, OnlyUsers, OnlyLinks, OnlyRequests;
      StepIsSound(admins, Current(), LinkTelegram(actor, student, tg));
      LinkMeans(Current(), actor, student, tg);
      if actor !in users {
        return Refused(NoAccount);
      }
      if student !in users {
        return Refused(NotFound);
      }
      if users[actor].role != Admin && (actor, student) !in links {
        return Refused(NotAssigned);
      }
      if users[student].telegram == Some(tg) {
        return Done;
      }
      var duplicate := FindTelegram(users, tg);
      if duplicate.Some? && duplicate.value != student {
        return Refused(Taken);
      }
      users := users[student := users[student].(telegram := Some(tg), token := None, expires := None)];
      return Done;
    }

    /** The repository's half of a claim. */
    method BindRow(student: int, tg: int) returns (ok: bool)
      requires Unique(users) && student in users
      modifies this`users
      ensures ok <==> BoundRow(old(users), student, tg).Some?
      ensures users == if ok then BoundRow(old(users), student, tg).value else old(users)
    {
      var duplicate := FindTelegram(users, tg);
      if duplicate.Some? && duplicate.value != student {
        var other := duplicate.value;
        if users[other].role != Student {
          return false;
        }
        users := users[other := users[other].(telegram := None, active := false)];
      }
      users := users[student := users[student].(telegram := Some(tg), token := None, expires := None)];
      return true;
    }

    /** The order of checks, on any rows with unique ids and tokens; roles are looked at before anything is written. */
    method RedeemInvite(tg: int, token: string, now: int) returns (reply: Reply)
      requires Unique(users)
      modifies this`users
      ensures (Current(), reply) == ClaimResult(admins, old(Current()), tg, token, now)
    {
      var actor := FindTelegram(users, tg);
      if tg in admins || (actor.Some? && users[actor.value].role != Student) {
        return Claimed(RoleConflict);
      }
      var holder := FindToken(users, token);
      if holder.None? {
        return Claimed(Invalid);
      }
      var student := holder.value;
      var row := users[student];
      if row.expires.Some? && row.expires.value < now {
        return Claimed(Expired);
      }
      if row.telegram.Some? {
        if row.telegram.value == tg {
          users := users[student := row.(token := None, expires := None)];
          return Claimed(AlreadySelf);
        }
        return Claimed(AlreadyLinked);
      }
      if actor.Some? && actor.value != student {
        return Claimed(CrossStudent);
      }
      var ok := BindRow(student, tg);
      return if ok then Claimed(Linked) else Raised;
    }

    /** Redeems an invitation: exactly a newcomer with a token that a row waits with gets connected, to that row. */
    method ClaimInvite(tg: int, token: string, now: int) returns (reply: Reply)
      requires Valid()
      modifies this
      ensures Valid() && RolesKept(old(Current()), Current())
      ensures (Current(), reply) == Apply(admins, old(Current()), Claim(tg, token, now))
      ensures Answers(admins, old(Current()), reply, tg, token, now)
      ensures reply == Claimed(Linked) ==>
                && Spent(Current(), token) && links == old(links) && requests == old(requests)
                && exists id :: Waiting(old(Current()), id, token, now) && ConnectsOnly(old(Current()), Current(), id, tg)
      ensures reply != Claimed(Linked) ==> Current() == old(Current())
      ensures !Unexpected(reply)
    {
      hide Consistent, RolesKept, Apply, DoneIff, OnlyUsers, OnlyLinks, OnlyRequests;
      StepIsSound(admins, Current(), Claim(tg, token, now));
      ClaimMeans(admins, Current(), tg, token, now);
      reply := RedeemInvite(tg, token, now);
    }

    method Approve(actor: int, tg: int, role: Role, id: int, advisor: Option<int>) returns (reply: Reply)
      requires Valid() && id !in drawn
      modifies this
      ensures Valid() && RolesKept(old(Current()), Current())
      ensures (Current(), reply) == Apply(admins, old(Current()), ApproveRequest(actor, tg, role, id, advisor))
      ensures Grants(admins, old(Current()), Current(), reply, actor, tg, role, id, advisor)
      ensures reply == Done ==> forall again: Step :: again.ApproveRequest? && again.tg == tg ==>
                Apply(admins, Current(), again).1 != Done
    {
      ghost var step := ApproveRequest(actor, tg, role, id, advisor);
      hide Consistent, RolesKept, Apply, DoneIff, OnlyUsers, OnlyLinks, OnlyRequests;
      StepIsSound(admins, Current(), step);
      ApprovalMeans(admins, Current(), step);
      if actor !in users {
        return Refused(NoAccount);
      }
      if !IsAdmin(admins, users[actor]) {
        return Refused(NotAllowed);
      }
      if role != Advisor && role != Student {
        return Refused(BadRole);
      }
      if tg !in requests {
        return Refused(NotFound);
      }
      if requests[tg] == Approved {
        return Refused(Handled);
      }
      var existing := FindTelegram(users, tg);
      if existing.Some? {
        return Refused(Taken);
      }
      if role == Student {
        var guide := if advisor.Some? then advisor.value else actor;
        if guide !in users {
          return Refused(BadKey);
        }
        links := links + {(guide, id)};
      }
      users := users[id := User(role, Some(tg), true, None, None)];
      drawn := drawn + {id};
      requests := requests[tg := Approved];
      return Done;
    }

    method Reject(actor: int, tg: int) returns (reply: Reply)
      requires Valid()
      modifies this`requests
      ensures Valid() && RolesKept(old(Current()), Current())
      ensures (Current(), reply) == Apply(admins, old(Current()), RejectRequest(actor, tg))
      ensures Rejects(admins, old(Current()), Current(), reply, actor, tg)
    {
      hide Consistent, RolesKept, Apply, DoneIff, OnlyUsers, OnlyLinks, OnlyRequests;
      StepIsSound(admins, Current(), RejectRequest(actor, tg));
      RejectionMeans(admins, Current(), actor, tg);
      if actor !in users {
        return Refused(NoAccount);
      }
      if !IsAdmin(admins, users[actor]) {
        return Refused(NotAllowed);
      }
      if tg !in requests {
        return Refused(NotFound);
      }
      requests := requests[tg := Rejected];
      return Done;
    }

    method AddAdvisor(actor: int, id: int, nameOk: bool, tg: int) returns (reply: Reply)
      requires Valid() && id !in drawn
      modifies this
      ensures Valid() && RolesKept(old(Current()), Current())
      ensures (Current(), reply) == Apply(admins, old(Current()), CreateAdvisor(actor, id, nameOk, tg))
      ensures AddsAdvisor(admins, old(Current()), Current(), reply, actor, id, nameOk, tg)
    {
      ghost var step := CreateAdvisor(actor, id, nameOk, tg);
      hide Consistent, RolesKept, Apply, DoneIff, OnlyUsers, OnlyLinks, OnlyRequests;
      StepIsSound(admins, Current(), step);
      AdvisorMeans(admins, Current(), step);
      if actor !in users {
        return Refused(NoAccount);
      }
      if !IsAdmin(admins, users[actor]) {
        return Refused(NotAllowed);
      }
      if !nameOk {
        return Refused(BadName);
      }
      var existing := FindTelegram(users, tg);
      if existing.Some? {
        return Refused(Taken);
      }
      users := users[id := User(Advisor, Some(tg), true, None, None)];
      drawn := drawn + {id};
      if tg in requests {
        requests := requests[tg := Approved];
      }
      return Done;
    }

    method Unlink(actor: int, student: int) returns (reply: Reply)
      requires Valid()
      modifies this`users
      ensures Valid() && RolesKept(old(Current()), Current())
      ensures (Current(), reply) == Apply(admins, old(Current()), UnlinkTelegram(actor, student))
      ensures Disconnects(admins, old(Current()), Current(), reply, actor, student)
      ensures reply == Done && old(users)[student].telegram.Some? ==> IsFree(Current(), old(users)[student].telegram.value)
    {
      hide Consistent, RolesKept, Apply, DoneIff, OnlyUsers, OnlyLinks, OnlyRequests;
      StepIsSound(admins, Current(), UnlinkTelegram(actor, student));
      UnlinkMeans(admins, Current(), actor, student);
      if actor !in users {
        return Refused(NoAccount);
      }
      if !IsAdmin(admins, users[actor]) {
        return Refused(NotAllowed);
      }
      if student !in users || users[student].role != Student {
        return Refused(NotFound);
      }
      users := users[student := users[student].(telegram := None)];
      return Done;
    }

    method Toggle(actor: int, id: int) returns (reply: Reply)
      requires Valid()
      modifies this`users
      ensures Valid() && RolesKept(old(Current()), Current())
      ensures (Current(), reply) == Apply(admins, old(Current()), ToggleActive(actor, id))
      ensures Toggles(admins, old(Current()), Current(), reply, actor, id)
    {
      hide Consistent, RolesKept, Apply, DoneIff, OnlyUsers, OnlyLinks, OnlyRequests;
      StepIsSound(admins, Current(), ToggleActive(actor, id));
      ToggleMeans(admins, Current(), actor, id);
      if actor !in users {
        return Refused(NoAccount);
      }
      if !IsAdmin(admins, users[actor]) {
        return Refused(NotAllowed);
      }
      if id !in users {
        return Refused(NotFound);
      }
      if IsAdmin(admins, users[id]) {
        return Refused(NotAllowed);
      }
      users := users[id := users[id].(active := !users[id].active)];
      return Done;
    }

    /** Deletes a student row for good. */
    method DeleteStudentRow(actor: int, student: int) returns (reply: Reply)
      requires Valid()
      modifies this
      ensures Valid() && RolesKept(old(Current()), Current())
      ensures (Current(), reply) == Apply(admins, old(Current()), RemoveStudent(actor, student))
      ensures DoneIff(MayDeleteStudent(admins, old(Current()), actor, student), old(Current()), Current(), reply)
      ensures reply == Done ==> Gone(old(Current()), Current(), student)
      ensures reply == Done ==> forall l :: l in links <==> l in old(links) && l.0 != student && l.1 != student
    {
      hide Consistent, RolesKept, Apply, DoneIff, Gone, LeavesLinks;
      StepIsSound(admins, Current(), RemoveStudent(actor, student));
      StudentRemovalMeans(admins, Current(), actor, student);
      if actor !in users {
        return Refused(NoAccount);
      }
      if IsAdmin(admins, users[actor]) {
        if student !in users || users[student].role != Student {
          return Refused(NotFound);
        }
      } else {
        if !users[actor].active {
          return Refused(Suspended);
        }
        if student !in users {
          return Refused(NotFound);
        }
        if (actor, student) !in links {
          return Refused(NotAssigned);
        }
      }
      if student == actor {
        return Refused(OwnAccount);
      }
      links := LinksLeft(links, student);
      users := users - {student};
      return Done;
    }

    /** Deletes an advisor row for good; with a target the students go there. */
    method DeleteAdvisorRow(actor: int, advisor: int, target: Option<int>) returns (reply: Reply)
      requires Valid()
      modifies this
      ensures Valid() && RolesKept(old(Current()), Current())
      ensures (Current(), reply) == Apply(admins, old(Current()), RemoveAdvisor(actor, advisor, target))
      ensures DoneIff(MayDeleteAdvisor(admins, old(Current()), actor, advisor, target), old(Current()), Current(), reply)
      ensures reply == Done ==> Gone(old(Current()), Current(), advisor) && actor in users
      ensures reply == Done ==> LeavesLinks(old(links), links, advisor, target)
    {
      hide Consistent, RolesKept, Apply, DoneIff, Gone, LeavesLinks;
      StepIsSound(admins, Current(), RemoveAdvisor(actor, advisor, target));
      AdvisorRemovalMeans(admins, Current(), actor, advisor, target);
      if actor !in users {
        return Refused(NoAccount);
      }
      if !IsAdmin(admins, users[actor]) {
        return Refused(NotAllowed);
      }
      if advisor !in users || users[advisor].role == Student {
        return Refused(NotFound);
      }
      if advisor == actor || IsAdmin(admins, users[advisor]) {
        return Refused(OwnAccount);
      }
      if target.Some? {
        if target.value !in users || users[target.value].role == Student || target.value == advisor {
          return Refused(BadAdvisor);
        }
        links := LinksMoved(links, advisor, target.value);
      }
      links := LinksLeft(links, advisor);
      users := users - {advisor};
      return Done;
    }

    method DetachStudent(actor: int, student: int) returns (reply: Reply)
      requires Valid()
      modifies this`links
      ensures Valid() && RolesKept(old(Current()), Current())
      ensures (Current(), reply) == Apply(admins, old(Current()), Detach(actor, student))
      ensures Detaches(old(Current()), Current(), reply, actor, student)
    {
      hide Consistent, RolesKept, Apply, DoneIff, OnlyUsers, OnlyLinks, OnlyRequests;
      StepIsSound(admins, Current(), Detach(actor, student));
      DetachMeans(admins, Current(), actor, student);
      if actor !in users {
        return Refused(NoAccount);
      }
      if student !in users {
        return Refused(NotFound);
      }
      if users[actor].role != Admin && (actor, student) !in links {
        return Refused(NotAssigned);
      }
      links := links - {(actor, student)};
      return Done;
    }

    /** Afterwards the student has exactly the new advisor; the links of other students stay. */
    method ReassignStudent(actor: int, student: int, target: int) returns (reply: Reply)
      requires Valid()
      modifies this`links
      ensures Valid() && RolesKept(old(Current()), Current())
      ensures (Current(), reply) == Apply(admins, old(Current()), Reassign(actor, student, target))
      ensures Reassigns(admins, old(Current()), Current(), reply, actor, student, target)
    {
      hide Consistent, RolesKept, Apply, DoneIff, OnlyUsers, OnlyLinks, OnlyRequests;
      StepIsSound(admins, Current(), Reassign(actor, student, target));
      ReassignMeans(admins, Current(), actor, student, target);
      if actor !in users {
        return Refused(NoAccount);
      }
      if !IsAdmin(admins, users[actor]) {
        return Refused(NotAllowed);
      }
      if student !in users || users[student].role != Student {
        return Refused(NotFound);
      }
      if target !in users || users[target].role == Student {
        return Refused(BadAdvisor);
      }
      links := set l <- links | l.1 != student;
      links := links + {(target, student)};
      return Done;
    }

    /** The edit form on a row without a pending invitation: done exactly for an id that is free or the row's own. */
    method EditForm(actor: int, id: int, tg: int) returns (reply: Reply)
      requires Valid() && (id in users ==> users[id].token.None?)
      modifies this`users
      ensures Valid() && RolesKept(old(Current()), Current())
      ensures (Current(), reply) == Apply(admins, old(Current()), EditTelegram(actor, id, tg))
      ensures Edits(admins, old(Current()), Current(), reply, actor, id, tg)
    {
      hide Consistent, RolesKept, Apply, DoneIff, OnlyUsers, OnlyLinks, OnlyRequests;
      StepIsSound(admins, Current(), EditTelegram(actor, id, tg));
      EditMeans(admins, Current(), actor, id, tg);
      if actor !in users {
        return Refused(NoAccount);
      }
      if !IsAdmin(admins, users[actor]) {
        return Refused(NotAllowed);
      }
      if id !in users {
        return Refused(NotFound);
      }
      var taken := FindTelegram(users, tg);
      if taken.Some? && taken.value != id {
        return Refused(Taken);
      }
      users := users[id := users[id].(telegram := Some(tg))];
      return Done;
    }
  }
}
