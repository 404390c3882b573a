/** What every run of the account system keeps, and what an invitation can and cannot do. */
module AccountRuns {
  import opened Prelude
  import opened Accounts

  /** Telegram ids and tokens are unique, a connected row holds no token, and only students can be unconnected. */
  ghost predicate Consistent(s: State) {
    && Unique(s.users)
    && (forall id :: id in s.users && s.users[id].telegram.Some? ==> s.users[id].token.None?)
    && (forall id :: id in s.users && s.users[id].role != Student ==> s.users[id].telegram.Some?)
    && (forall id :: id in s.users && s.users[id].token.Some? ==> s.users[id].token.value in s.issued)
    && (forall id :: id in s.users ==> id in s.drawn)
  }

  /**
   New rows get ids and new invitations get tokens that were never drawn before; the edit form is not used on a row with
   a pending invitation.
   */
  predicate Legal(s: State, step: Step) {
    match step
    case Arrive(_, id, _) => id !in s.drawn
    case CreateStudent(_, id, _, _, token, _) => id !in s.drawn && token !in s.issued
    case NewInvite(_, _, token, _) => token !in s.issued
    case ApproveRequest(_, _, _, id, _) => id !in s.drawn
    case CreateAdvisor(_, id, _, _) => id !in s.drawn
    case EditTelegram(_, id, _) => id in s.users ==> s.users[id].token.None?
    case _ => true
  }

  function Rank(role: Role): nat {
    match role
    case Student => 0
    case Advisor => 1
    case Admin => 2
  }

  /** No account that is still there has a lower role, and no id that was drawn before names a new account. */
  predicate RolesKept(before: State, after: State) {
    && before.drawn <= after.drawn
    && forall id :: id in after.users && id in before.drawn ==>
         id in before.users && Rank(before.users[id].role) <= Rank(after.users[id].role)
  }

  /** A token that was issued and is not held by any row can never be redeemed again. */
  predicate Spent(s: State, token: string) {
    token in s.issued && forall id :: id in s.users ==> s.users[id].token != Some(token)
  }

  /** A step that changes one row, or adds one. */
  lemma RowKeepsConsistent(s: State, id: int, row: User, issued: set<string>)
    requires Consistent(s) && s.issued <= issued
    requires row.telegram.Some? ==> row.token.None? && forall k :: k in s.users && s.users[k].telegram == row.telegram ==> k == id
    requires row.role != Student ==> row.telegram.Some?
    requires row.token.Some? ==> row.token.value in issued && forall k :: k in s.users && s.users[k].token == row.token ==> k == id
    ensures Consistent(s.(users := s.users[id := row], drawn := s.drawn + {id}, issued := issued))
    ensures id in s.users ==> Consistent(s.(users := s.users[id := row], issued := issued))
  {}

  lemma RowRemoved(s: State, id: int)
    requires Consistent(s)
    ensures Consistent(s.(users := s.users - {id}))
  {}

  /** The invariant does not read links and requests. */
  lemma OtherTables(s: State, links: set<(int, int)>, requests: map<int, RequestStatus>)
    requires Consistent(s)
    ensures Consistent(s.(links := links, requests := requests))
  {}

  lemma ArriveKeeps(admins: set<int>, s: State, tg: int, id: int, opensInvite: bool)
    requires Consistent(s) && id !in s.drawn
    ensures Consistent(Arrived(admins, s, tg, id, opensInvite).0)
  {
    if tg in admins {
      match ByTelegram(s.users, tg)
      case Some(row) => RowKeepsConsistent(s, row, s.users[row].(role := Admin, active := true), s.issued);
      case None => RowKeepsConsistent(s, id, User(Admin, Some(tg), true, None, None), s.issued);
    }
  }

  lemma CreateKeeps(admins: set<int>, s: State, step: Step)
    requires Consistent(s) && step.CreateStudent? && Legal(s, step)
    ensures Consistent(Created(admins, s, step).0)
  {
    if Created(admins, s, step).1 == Done {
      if step.telegram.Some? {
        RowKeepsConsistent(s, step.id, User(Student, step.telegram, true, None, None), s.issued);
      } else {
        var row := User(Student, None, true, Some(step.token), Some(step.now + INVITE_TTL));
        RowKeepsConsistent(s, step.id, row, s.issued + {step.token});
      }
    }
  }

  /** Redeeming an invitation: the branches that fold an account or find the row already connected do not occur. */
  lemma ClaimKeeps(admins: set<int>, s: State, tg: int, token: string, now: int)
    requires Consistent(s)
    ensures var (after, reply) := ClaimResult(admins, s, tg, token, now);
            && Consistent(after)
            && reply.Claimed? && reply.outcome !in {AlreadySelf, AlreadyLinked}
            && (reply.outcome != Linked ==> after == s)
            && (reply.outcome == Linked ==> Spent(after, token) && ByTelegram(s.users, tg).None?)
  {
    var (after, reply) := ClaimResult(admins, s, tg, token, now);
    if reply == Claimed(Linked) {
      var student := ByToken(s.users, token).value;
      RowKeepsConsistent(s, student, Cleared(s.users[student]).(telegram := Some(tg)), s.issued);
    }
  }

  predicate ChangesInvite(step: Step) { step.NewInvite? || step.RevokeInvite? || step.LinkTelegram? }

  lemma InviteStepKeeps(admins: set<int>, s: State, step: Step)
    requires Consistent(s) && Legal(s, step) && ChangesInvite(step)
    ensures Consistent(Apply(admins, s, step).0)
  {
    match step
    case NewInvite(actor, student, token, now) =>
      if OwnershipProblem(s, actor, student).None? && s.users[student].telegram.None? {
        var row := s.users[student].(token := Some(token), expires := Some(now + INVITE_TTL));
        RowKeepsConsistent(s, student, row, s.issued + {token});
      }
    case RevokeInvite(actor, student) =>
      if OwnershipProblem(s, actor, student).None? {
        RowKeepsConsistent(s, student, Cleared(s.users[student]), s.issued);
      }
    case LinkTelegram(actor, student, tg) =>
      if OwnershipProblem(s, actor, student).None? && ByTelegram(s.users, tg).None? {
        RowKeepsConsistent(s, student, Cleared(s.users[student]).(telegram := Some(tg)), s.issued);
      }
  }

  predicate AddsAccount(step: Step) { step.Arrive? || step.CreateStudent? || step.ApproveRequest? || step.CreateAdvisor? }

  lemma NewAccountKeeps(admins: set<int>, s: State, step: Step)
    requires Consistent(s) && Legal(s, step) && AddsAccount(step)
    ensures Consistent(Apply(admins, s, step).0)
  {
    match step
    case Arrive(tg, id, opensInvite) => ArriveKeeps(admins, s, tg, id, opensInvite);
    case CreateStudent(_, _, _, _, _, _) => CreateKeeps(admins, s, step);
    case ApproveRequest(_, tg, role, id, _) =>
      if Apply(admins, s, step).1 == Done {
        RowKeepsConsistent(s, id, User(role, Some(tg), true, None, None), s.issued);
      }
    case CreateAdvisor(_, id, _, tg) =>
      if Apply(admins, s, step).1 == Done {
        RowKeepsConsistent(s, id, User(Advisor, Some(tg), true, None, None), s.issued);
      }
  }

  predicate RemovesOrLinks(step: Step) {
    step.RemoveStudent? || step.RemoveAdvisor? || step.Detach? || step.Reassign? || step.RejectRequest?
  }

  lemma RemovalKeeps(admins: set<int>, s: State, step: Step)
    requires Consistent(s) && RemovesOrLinks(step)
    ensures Consistent(Apply(admins, s, step).0)
  {
    match step
    case RemoveStudent(_, student) => RowRemoved(s, student);
    case RemoveAdvisor(_, leaving, _) => RowRemoved(s, leaving);
    case _ =>
  }

  lemma StepKeepsConsistent(admins: set<int>, s: State, step: Step)
    requires Consistent(s) && Legal(s, step)
    ensures Consistent(Apply(admins, s, step).0)
  {
    if ChangesInvite(step) {
      InviteStepKeeps(admins, s, step);
    } else if AddsAccount(step) {
      NewAccountKeeps(admins, s, step);
    } else if RemovesOrLinks(step) {
      RemovalKeeps(admins, s, step);
    } else {
      match step
      case Claim(tg, token, now) => ClaimKeeps(admins, s, tg, token, now);
      case UnlinkTelegram(actor, student) =>
        if Unlinked(admins, s, actor, student).1 == Done {
          RowKeepsConsistent(s, student, s.users[student].(telegram := None), s.issued);
        }
      case ToggleActive(actor, id) =>
        if Toggled(admins, s, actor, id).1 == Done {
          RowKeepsConsistent(s, id, s.users[id].(active := !s.users[id].active), s.issued);
        }
      case EditTelegram(actor, id, tg) =>
        if TelegramEdited(admins, s, actor, id, tg).1 == Done {
          RowKeepsConsistent(s, id, s.users[id].(telegram := Some(tg)), s.issued);
        }
    }
  }

  /** Links only name accounts that are there. */
  predicate LinksAreNamed(s: State) {
    forall l <- s.links :: l.0 in s.users && l.1 in s.users
  }

  lemma StepKeepsLinks(admins: set<int>, s: State, step: Step)
    requires Consistent(s) && Legal(s, step) && LinksAreNamed(s)
    ensures LinksAreNamed(Apply(admins, s, step).0)
  {
    hide Unique;
    match step
    case Claim(tg, token, now) => ClaimKeeps(admins, s, tg, token, now);
    case _ =>
  }

  lemma StepKeepsRoles(admins: set<int>, s: State, step: Step)
    requires Consistent(s) && Legal(s, step)
    ensures RolesKept(s, Apply(admins, s, step).0)
  {
    if step.Claim? {
      ClaimKeepsRoles(admins, s, step.tg, step.token, step.now);
    } else if AddsAccount(step) {
      NewAccountKeepsRoles(admins, s, step);
    } else {
      hide Consistent, Unique;
    }
  }

  lemma NewAccountKeepsRoles(admins: set<int>, s: State, step: Step)
    requires Consistent(s) && Legal(s, step) && AddsAccount(step)
    ensures RolesKept(s, Apply(admins, s, step).0)
  {
    hide Unique;
  }

  lemma ClaimKeepsRoles(admins: set<int>, s: State, tg: int, token: string, now: int)
    requires Consistent(s)
    ensures RolesKept(s, Apply(admins, s, Claim(tg, token, now)).0)
  {
    ClaimKeeps(admins, s, tg, token, now);
  }

  lemma StepKeepsSpent(admins: set<int>, s: State, step: Step, token: string)
    requires Consistent(s) && Legal(s, step) && Spent(s, token)
    ensures Spent(Apply(admins, s, step).0, token)
    ensures step.Claim? && step.token == token ==> Apply(admins, s, step).1 != Claimed(Linked)
  {
    if step.Claim? {
      ClaimKeeps(admins, s, step.tg, step.token, step.now);
    }
  }

  // ---------------------------------------------------------------- runs

  ghost predicate LegalRun(admins: set<int>, s: State, steps: seq<Step>)
    decreases |steps|
  {
    steps == [] || (Legal(s, steps[0]) && LegalRun(admins, Apply(admins, s, steps[0]).0, steps[1..]))
  }

  ghost function Run(admins: set<int>, s: State, steps: seq<Step>): State
    decreases |steps|
  {
    if steps == [] then s else Run(admins, Apply(admins, s, steps[0]).0, steps[1..])
  }

  ghost function Replies(admins: set<int>, s: State, steps: seq<Step>): seq<Reply>
    decreases |steps|
  {
    if steps == [] then []
    else [Apply(admins, s, steps[0]).1] + Replies(admins, Apply(admins, s, steps[0]).0, steps[1..])
  }

  /** How many claims of a token succeed in a run. */
  ghost function LinkCount(admins: set<int>, s: State, steps: seq<Step>, token: string): nat
    decreases |steps|
  {
    if steps == [] then 0
    else
      var (next, reply) := Apply(admins, s, steps[0]);
      (if steps[0].Claim? && steps[0].token == token && reply == Claimed(Linked) then 1 else 0)
      + LinkCount(admins, next, steps[1..], token)
  }

  predicate Unexpected(reply: Reply) {
    reply == Raised || reply == Claimed(AlreadySelf) || reply == Claimed(AlreadyLinked)
  }

  lemma StepIsExpected(admins: set<int>, s: State, step: Step)
    requires Consistent(s)
    ensures !Unexpected(Apply(admins, s, step).1)
  {
    if step.Claim? {
      ClaimKeeps(admins, s, step.tg, step.token, step.now);
    }
  }

  lemma RolesStayKept(a: State, b: State, c: State)
    ensures RolesKept(a, a)
    ensures RolesKept(a, b) && RolesKept(b, c) ==> RolesKept(a, c)
  {}

  /**
   In every run Telegram ids stay unique, a connected row never holds a token, unconnected rows are students, no role is
   lowered, and no claim finds its row connected or tries to fold an account.
   */
  lemma {:induction false} RunsAreConsistent(admins: set<int>, s: State, steps: seq<Step>)
    requires Consistent(s) && LegalRun(admins, s, steps)
    ensures Consistent(Run(admins, s, steps))
    ensures RolesKept(s, Run(admins, s, steps))
    ensures forall i :: 0 <= i < |Replies(admins, s, steps)| ==> !Unexpected(Replies(admins, s, steps)[i])
    decreases |steps|
  {
    hide Consistent, Legal, RolesKept, Apply;
    if steps != [] {
      var (next, reply) := Apply(admins, s, steps[0]);
      StepKeepsConsistent(admins, s, steps[0]);
      StepKeepsRoles(admins, s, steps[0]);
      StepIsExpected(admins, s, steps[0]);
      RunsAreConsistent(admins, next, steps[1..]);
      RolesStayKept(s, next, Run(admins, next, steps[1..]));
    } else {
      RolesStayKept(s, s, s);
    }
  }

  /** In every run, deletions included, links only name accounts that are there. */
  lemma {:induction false} RunsKeepLinks(admins: set<int>, s: State, steps: seq<Step>)
    requires Consistent(s) && LegalRun(admins, s, steps) && LinksAreNamed(s)
    ensures LinksAreNamed(Run(admins, s, steps))
    decreases |steps|
  {
    hide Consistent, Legal, LinksAreNamed, Apply;
    if steps != [] {
      StepKeepsConsistent(admins, s, steps[0]);
      StepKeepsLinks(admins, s, steps[0]);
      RunsKeepLinks(admins, Apply(admins, s, steps[0]).0, steps[1..]);
    }
  }

  /** A token connects at most one account, whatever happens in between; a spent one connects none. */
  lemma {:induction false} TokenLinksAtMostOnce(admins: set<int>, s: State, steps: seq<Step>, token: string)
    requires Consistent(s) && LegalRun(admins, s, steps)
    ensures LinkCount(admins, s, steps, token) <= if Spent(s, token) then 0 else 1
    decreases |steps|
  {
    if steps != [] {
      var step := steps[0];
      var (next, reply) := Apply(admins, s, step);
      StepKeepsConsistent(admins, s, step);
      if Spent(s, token) {
        StepKeepsSpent(admins, s, step, token);
      }
      if step.Claim? {
        ClaimKeeps(admins, s, step.tg, step.token, step.now);
      }
      TokenLinksAtMostOnce(admins, next, steps[1..], token);
    }
  }

  // ---------------------------------------------------------------- one invitation

  /** Nobody uses this Telegram id and it is not an admin's. */
  predicate Newcomer(admins: set<int>, s: State, tg: int) {
    tg !in admins && forall id :: id in s.users ==> s.users[id].telegram != Some(tg)
  }

  /** The row waits for someone to open this invitation. */
  predicate Waiting(s: State, id: int, token: string, now: int) {
    && id in s.users && s.users[id].token == Some(token) && |token| >= 16
    && (s.users[id].expires.Some? ==> now <= s.users[id].expires.value)
  }

  /** An invitation is accepted exactly for a newcomer and a token some row waits with. */
  lemma ClaimLinksExactlyNewcomers(admins: set<int>, s: State, tg: int, token: string, now: int)
    requires Consistent(s)
    ensures ClaimResult(admins, s, tg, token, now).1 == Claimed(Linked)
       <==> Newcomer(admins, s, tg) && exists id :: Waiting(s, id, token, now)
  {
    var holder := ByToken(s.users, token);
    if holder.Some? && !(s.users[holder.value].expires.Some? && s.users[holder.value].expires.value < now) {
      assert Waiting(s, holder.value, token, now);
    }
    if id :| Waiting(s, id, token, now) {
      assert holder == Some(id);
    }
  }

  /** An accepted claim connects the waiting student row to the newcomer and touches no other row, link or request. */
  lemma ClaimConnectsOneStudent(admins: set<int>, s: State, tg: int, token: string, now: int, id: int)
    requires Consistent(s) && Newcomer(admins, s, tg) && Waiting(s, id, token, now)
    ensures var after := ClaimResult(admins, s, tg, token, now).0;
            && s.users[id].role == Student && s.users[id].telegram.None?
            && after.users.Keys == s.users.Keys
            && after.users[id] == s.users[id].(telegram := Some(tg), token := None, expires := None)
            && (forall k :: k in s.users && k != id ==> after.users[k] == s.users[k])
            && after.links == s.links && after.requests == s.requests
  {
    assert ByToken(s.users, token) == Some(id);
  }

  /** A fresh invitation works for a newcomer in time, then for nobody; issuing it stopped the row's previous one. */
  lemma InviteIsSingleUse(
      admins: set<int>, s: State, actor: int, student: int, token: string, issuedAt: int, tg: int, now: int, later: int, tg2: int)
    requires Consistent(s) && token !in s.issued && |token| >= 16
    requires OwnershipProblem(s, actor, student).None? && s.users[student].telegram.None?
    requires Newcomer(admins, s, tg) && now <= issuedAt + 14 * 86_400
    ensures var invited := Invited(s, actor, student, token, issuedAt).0;
            var (linked, reply) := ClaimResult(admins, invited, tg, token, now);
            && reply == Claimed(Linked)
            && linked.users[student].telegram == Some(tg)
            && ClaimResult(admins, linked, tg2, token, later).1 in {Claimed(Invalid), Claimed(RoleConflict)}
            && (s.users[student].token.Some? ==> Spent(invited, s.users[student].token.value))
  {
    var invited := Invited(s, actor, student, token, issuedAt).0;
    StepKeepsConsistent(admins, s, NewInvite(actor, student, token, issuedAt));
    assert Waiting(invited, student, token, now);
    ClaimLinksExactlyNewcomers(admins, invited, tg, token, now);
    ClaimConnectsOneStudent(admins, invited, tg, token, now, student);
    ClaimKeeps(admins, invited, tg, token, now);
  }

  // ---------------------------------------------------------------- the admin's edit form

  /** The form keeps the accounts consistent exactly when it is refused or the row has no pending invitation. */
  lemma EditKeepsConsistentIff(admins: set<int>, s: State, actor: int, id: int, tg: int)
    requires Consistent(s)
    ensures Consistent(TelegramEdited(admins, s, actor, id, tg).0) <==>
            (NotAdmin(admins, s, actor).None? && id in s.users && s.users[id].token.Some? ==>
               exists k :: k in s.users && k != id && s.users[k].telegram == Some(tg))
  {
    var (after, reply) := TelegramEdited(admins, s, actor, id, tg);
    if reply == Done {
      if s.users[id].token.None? {
        RowKeepsConsistent(s, id, s.users[id].(telegram := Some(tg)), s.issued);
      } else {
        assert after.users[id].telegram.Some? && after.users[id].token.Some?;
      }
    }
  }

  const NEW: State := State(map[], {}, map[], {}, {})

  /** An admin arrives and adds a student with an invitation. */
  const INVITING: seq<Step> := [Arrive(7, 1, false), CreateStudent(1, 2, true, None, "0123456789abcdef", 0)]

  /** A run of a new system after which the form, used on the waiting student row, sets both the id and the token. */
  lemma EditExample()
    ensures LegalRun({7}, NEW, INVITING) && Consistent(Run({7}, NEW, INVITING))
    ensures !Consistent(TelegramEdited({7}, Run({7}, NEW, INVITING), 1, 2, 5).0)
  {
    var first := Apply({7}, NEW, INVITING[0]).0;
    assert first.users == map[1 := User(Admin, Some(7), true, None, None)];
    var s := Apply({7}, first, INVITING[1]).0;
    assert s.users[2].token.Some? && s.users[1].telegram == Some(7) && s.users.Keys == {1, 2};
    assert INVITING[1..] == [INVITING[1]] && INVITING[1..][1..] == [];
    assert Run({7}, NEW, INVITING) == Run({7}, first, INVITING[1..]) == s;
    RunsAreConsistent({7}, NEW, INVITING);
    EditKeepsConsistentIff({7}, s, 1, 2, 5);
  }
}
