/** Invitation links, reset links and sessions over whole runs. A link is known by its digest. */
module LinkLaws {
  import opened Schema
  import opened Permissions
  import opened AccountOps
  import AccountLaws
  import RoomOps
  import PostOps
  import Machine

  // ----- Invitations -----

  ghost predicate Named(a: Accounts, digest: Digest, i: Id) {
    i in a.invitations && a.invitations[i].digest == digest
  }

  ghost predicate Gone(a: Accounts, digest: Digest) {
    forall i :: i in a.invitations ==> a.invitations[i].digest != digest
  }

  /** An action that makes a new invitation with this digest. */
  predicate Issues(a: Machine.Action, digest: Digest) {
    a.OnAccounts? && a.account.DoCreateInvitation? && a.account.digest == digest
  }

  ghost predicate NeverIssues(run: Machine.Run, digest: Digest) {
    forall k :: 0 <= k < |run| ==> !Issues(run[k].action, digest)
  }

  /** A registration the link admits: it carries the digest, needs an invitation, and commits. */
  ghost predicate Admits(db: DB, a: Machine.Action, now: Time, digest: Digest) {
    && a.OnAccounts? && a.account.DoRegister? && a.account.digest == digest
    && !(digest == "" && db.mode == Mode.Open)
    && Register(db, a.account.name, a.account.hash, digest, now).Committed?
  }

  ghost function Admissions(db: DB, run: Machine.Run, digest: Digest): nat
    decreases run
  {
    if run == [] then 0
    else
      (if Admits(db, run[0].action, run[0].now, digest) then 1 else 0)
      + Admissions(Machine.Apply(db, run[0].action, run[0].now), run[1..], digest)
  }

  /** The same invitation later: nothing about it changes but its uses, which count what it admitted,
      and that it may have been revoked, which stays. */
  ghost predicate Follows(before: Invitation, after: Invitation, admitted: nat) {
    && after == before.(uses := after.uses, revokedAt := after.revokedAt)
    && after.uses == before.uses + admitted
    && (before.revokedAt.Some? ==> after.revokedAt == before.revokedAt)
  }

  /** What one step does to the invitation a digest names. */
  ghost predicate Carried(a: Accounts, after: Accounts, digest: Digest, i: Id, admitted: nat)
    requires i in a.invitations
  {
    || (Named(after, digest, i) && Follows(a.invitations[i], after.invitations[i], admitted))
    || (Gone(after, digest) && admitted == 0)
  }

  lemma RegisterCarries(db: DB, name: string, hash: Digest, given: Digest, now: Time, digest: Digest, i: Id)
    requires AccountLaws.AccountsOk(db.accounts) && Named(db.accounts, digest, i)
    ensures var o := Register(db, name, hash, given, now);
      var admitted := if given == digest && !(digest == "" && db.mode == Mode.Open) && o.Committed? then 1 else 0;
      Carried(db.accounts, o.After(db).accounts, digest, i, admitted)
  {
  }

  predicate TouchesInvitations(a: Action) {
    a.DoRegister? || a.DoCreateInvitation? || a.DoSetInvitePermission? || a.DoRevokeInvitation? || a.DoChangeMember?
  }

  lemma OthersLeaveInvitations(db: DB, a: Action, now: Time)
    requires !TouchesInvitations(a)
    ensures Apply(db, a, now).accounts.invitations == db.accounts.invitations
  {
  }

  lemma ChangeMemberCarries(db: DB, owner: Id, member: Id, revision: int, action: MemberAction, confirmation: string,
                            now: Time, digest: Digest, i: Id)
    requires Named(db.accounts, digest, i)
    ensures Carried(db.accounts,
                    ChangeMember(db, owner, member, revision, action, confirmation, now).After(db).accounts,
                    digest, i, 0)
  {
  }

  lemma AccountStepCarries(db: DB, a: Action, now: Time, digest: Digest, i: Id)
    requires AccountLaws.AccountsOk(db.accounts) && Named(db.accounts, digest, i)
    requires !Issues(Machine.OnAccounts(a), digest)
    ensures Carried(db.accounts, Apply(db, a, now).accounts, digest, i,
                    if Admits(db, Machine.OnAccounts(a), now, digest) then 1 else 0)
  {
    match a
    case DoRegister(name, hash, given) => RegisterCarries(db, name, hash, given, now, digest, i);
    case DoChangeMember(owner, member, revision, change, confirmation) =>
      ChangeMemberCarries(db, owner, member, revision, change, confirmation, now, digest, i);
    case DoCreateInvitation(_, _, _, _, _, _) =>
    case DoSetInvitePermission(_, _) =>
    case DoRevokeInvitation(_, _, _) =>
    case _ => OthersLeaveInvitations(db, a, now);
  }

  lemma StepCarries(db: DB, a: Machine.Action, now: Time, digest: Digest, i: Id)
    requires AccountLaws.AccountsOk(db.accounts) && Named(db.accounts, digest, i) && !Issues(a, digest)
    ensures Carried(db.accounts, Machine.Apply(db, a, now).accounts, digest, i,
                    if Admits(db, a, now, digest) then 1 else 0)
  {
    match a
    case SetMode(_) =>
    case OnAccounts(account) => AccountStepCarries(db, account, now, digest, i);
    case OnRooms(room) => RoomOps.ApplyFrame(db, room);
    case OnPosts(post) => PostOps.ApplyFrame(db, post, now);
    case DeleteAccount(_, _, _) =>
  }

  lemma AccountStepKeepsGone(db: DB, a: Action, now: Time, digest: Digest)
    requires Gone(db.accounts, digest) && !Issues(Machine.OnAccounts(a), digest)
    ensures Gone(Apply(db, a, now).accounts, digest) && !Admits(db, Machine.OnAccounts(a), now, digest)
  {
    if !TouchesInvitations(a) {
      OthersLeaveInvitations(db, a, now);
    }
  }

  lemma StepKeepsGone(db: DB, a: Machine.Action, now: Time, digest: Digest)
    requires Gone(db.accounts, digest) && !Issues(a, digest)
    ensures Gone(Machine.Apply(db, a, now).accounts, digest) && !Admits(db, a, now, digest)
  {
    match a
    case SetMode(_) =>
    case OnAccounts(account) => AccountStepKeepsGone(db, account, now, digest);
    case OnRooms(room) => RoomOps.ApplyFrame(db, room);
    case OnPosts(post) => PostOps.ApplyFrame(db, post, now);
    case DeleteAccount(_, _, _) =>
  }

  lemma {:induction false} GoneAdmitsNobody(db: DB, run: Machine.Run, digest: Digest)
    requires Gone(db.accounts, digest) && NeverIssues(run, digest)
    ensures Admissions(db, run, digest) == 0 && Gone(Machine.After(db, run).accounts, digest)
    decreases run
  {
    if run != [] {
      StepKeepsGone(db, run[0].action, run[0].now, digest);
      GoneAdmitsNobody(Machine.Apply(db, run[0].action, run[0].now), run[1..], digest);
    }
  }

  /** Uses are conserved. Over any run that does not issue the digest anew, either the invitation is
      still there, its uses grown by exactly the accounts it admitted, or it is gone for good; and
      with a limit on its uses, it never admits more accounts than it had uses left. */
  lemma {:induction false} UsesCountAdmissions(db: DB, run: Machine.Run, digest: Digest, i: Id)
    requires AccountLaws.AccountsOk(db.accounts) && Named(db.accounts, digest, i) && NeverIssues(run, digest)
    ensures var after, n := Machine.After(db, run).accounts, Admissions(db, run, digest);
      (Named(after, digest, i) && Follows(db.accounts.invitations[i], after.invitations[i], n)) || Gone(after, digest)
    ensures var row := db.accounts.invitations[i];
      row.maxUses != 0 ==> row.uses + Admissions(db, run, digest) <= row.maxUses
    decreases run
  {
    if run != [] {
      var next := Machine.Apply(db, run[0].action, run[0].now);
      AccountLaws.StepKeepsAccounts(db, run[0].action, run[0].now);
      StepCarries(db, run[0].action, run[0].now, digest, i);
      if Named(next.accounts, digest, i) {
        UsesCountAdmissions(next, run[1..], digest, i);
      } else {
        GoneAdmitsNobody(next, run[1..], digest);
      }
    }
  }

  /** From the issue of a link on, its uses are the accounts it has admitted: the row counts them as long
      as it is there, and with a limit there are never more. */
  lemma UsesAreAdmissions(db: DB, creator: Id, digest: Digest, prefix: string, title: string, maxUses: int,
                          expires: Option<Time>, now: Time, run: Machine.Run)
    requires AccountLaws.AccountsOk(db.accounts) && NeverIssues(run, digest)
    requires CreateInvitation(db, creator, digest, prefix, title, maxUses, expires, now).Committed?
    ensures var o := CreateInvitation(db, creator, digest, prefix, title, maxUses, expires, now);
      var after, n := Machine.After(o.db, run).accounts, Admissions(o.db, run, digest);
      && (|| (Named(after, digest, o.value) && after.invitations[o.value].uses == n)
          || Gone(after, digest))
      && (maxUses != 0 ==> n <= maxUses)
  {
    var o := CreateInvitation(db, creator, digest, prefix, title, maxUses, expires, now);
    AccountLaws.CreateInvitationKeeps(db, creator, digest, prefix, title, maxUses, expires, now);
    UsesCountAdmissions(o.db, run, digest, o.value);
  }

  /** The link can no longer be redeemed: every invitation it names is revoked, expired or used up. */
  ghost predicate Dead(a: Accounts, digest: Digest, now: Time) {
    forall i :: Named(a, digest, i) ==> !Redeemable(a.invitations[i], now)
  }

  lemma DeadRowStaysDead(before: Invitation, after: Invitation, now: Time, later: Time, n: nat)
    requires !Redeemable(before, now) && now <= later && Follows(before, after, n)
    ensures !Redeemable(after, later)
  {
  }

  lemma DeadAdmitsNobodyNow(db: DB, a: Machine.Action, now: Time, digest: Digest)
    requires Dead(db.accounts, digest, now)
    ensures !Admits(db, a, now, digest)
  {
  }

  lemma StepKeepsDead(db: DB, a: Machine.Action, now: Time, digest: Digest)
    requires AccountLaws.AccountsOk(db.accounts) && Dead(db.accounts, digest, now) && !Issues(a, digest)
    ensures Dead(Machine.Apply(db, a, now).accounts, digest, now)
  {
    if i :| Named(db.accounts, digest, i) {
      StepCarries(db, a, now, digest, i);
      var after := Machine.Apply(db, a, now).accounts;
      AccountLaws.StepKeepsAccounts(db, a, now);
      if Named(after, digest, i) {
        DeadRowStaysDead(db.accounts.invitations[i], after.invitations[i], now, now,
                         if Admits(db, a, now, digest) then 1 else 0);
      }
    } else {
      forall i | i in db.accounts.invitations ensures db.accounts.invitations[i].digest != digest {
        assert !Named(db.accounts, digest, i);
      }
      StepKeepsGone(db, a, now, digest);
    }
  }

  /** Revoked, expired and used up are for ever: a link dead at some time admits nobody in any later run,
      whatever permissions are granted again, unless its digest is issued anew. */
  lemma {:induction false} DeadAdmitsNobody(db: DB, run: Machine.Run, digest: Digest, now: Time)
    requires AccountLaws.AccountsOk(db.accounts) && Dead(db.accounts, digest, now)
    requires Machine.Clocked(run, now) && NeverIssues(run, digest)
    ensures Admissions(db, run, digest) == 0
    decreases run
  {
    if run != [] {
      var step := run[0];
      forall i | Named(db.accounts, digest, i) ensures !Redeemable(db.accounts.invitations[i], step.now) {
        DeadRowStaysDead(db.accounts.invitations[i], db.accounts.invitations[i], now, step.now, 0);
      }
      DeadAdmitsNobodyNow(db, step.action, step.now, digest);
      StepKeepsDead(db, step.action, step.now, digest);
      AccountLaws.StepKeepsAccounts(db, step.action, step.now);
      DeadAdmitsNobody(Machine.Apply(db, step.action, step.now), run[1..], digest, step.now);
    }
  }

  /** Taking away a member's right to invite, or suspending them, ends every link they had made: no run
      after it admits anyone through one, even if the right is given back or the member restored. */
  lemma WithdrawnLinksAdmitNobody(db: DB, a: Action, now: Time, member: Id, i: Id, run: Machine.Run)
    requires AccountLaws.AccountsOk(db.accounts)
    requires i in db.accounts.invitations && db.accounts.invitations[i].createdBy == member
    requires
      || (a == DoSetInvitePermission(member, false) && SetInvitePermission(db, member, false, now).Committed?)
      || (a.DoChangeMember? && a.member == member && a.change == Suspend
          && ChangeMember(db, a.owner, member, a.revision, Suspend, a.confirmation, now).Committed?)
    requires Machine.Clocked(run, now) && NeverIssues(run, db.accounts.invitations[i].digest)
    ensures Admissions(Apply(db, a, now), run, db.accounts.invitations[i].digest) == 0
  {
    var digest := db.accounts.invitations[i].digest;
    var after := Apply(db, a, now);
    AccountLaws.AccountStepKeeps(db, a, now);
    assert Named(after.accounts, digest, i) && !Redeemable(after.accounts.invitations[i], now);
    DeadAdmitsNobody(after, run, digest, now);
  }

  // ----- Reset links -----

  /** The form is shown exactly when the link would be accepted: checking a link and redeeming it, with
      the same digest at the same time, agree, whatever password is chosen. */
  lemma ValidIffRedeemable(db: DB, digest: Digest, hash: Digest, at: Time)
    requires AccountLaws.AccountsOk(db.accounts)
    ensures AuthTokenValid(db.accounts, digest, at) <==> ResetPassword(db, digest, hash, at).Committed?
    ensures ResetPassword(db, digest, hash, at).RolledBack? ==> ResetPassword(db, digest, hash, at).error == BadToken
  {
  }

  /** A new reset link works for its account until it expires, every earlier one of that account never
      again, and everyone else's as before. */
  lemma NewestResetLinkWorks(db: DB, user: Id, digest: Digest, expires: Time, now: Time, h: Digest, t: Time)
    requires CreateAuthToken(db, user, digest, expires, now).Committed?
    ensures var a, after := db.accounts, CreateAuthToken(db, user, digest, expires, now).db.accounts;
      && (AuthTokenValid(after, h, t) <==>
            if h == digest then t < expires else AuthTokenValid(a, h, t) && a.tokens[h].user != user)
      && (h == digest && AuthTokenValid(after, h, t) ==> after.tokens[h].user == user)
  {
  }

  predicate IssuesReset(a: Machine.Action, digest: Digest) {
    a.OnAccounts? && a.account.DoCreateAuthToken? && a.account.digest == digest
  }

  ghost predicate NeverIssuesReset(run: Machine.Run, digest: Digest) {
    forall k :: 0 <= k < |run| ==> !IssuesReset(run[k].action, digest)
  }

  ghost predicate Redeems(db: DB, a: Machine.Action, now: Time, digest: Digest) {
    && a.OnAccounts? && a.account.DoResetPassword? && a.account.digest == digest
    && ResetPassword(db, digest, a.account.hash, now).Committed?
  }

  ghost function Redemptions(db: DB, run: Machine.Run, digest: Digest): nat
    decreases run
  {
    if run == [] then 0
    else
      (if Redeems(db, run[0].action, run[0].now, digest) then 1 else 0)
      + Redemptions(Machine.Apply(db, run[0].action, run[0].now), run[1..], digest)
  }

  lemma AccountStepLeavesSpent(db: DB, a: Action, now: Time, digest: Digest)
    requires !IssuesReset(Machine.OnAccounts(a), digest)
    requires digest !in db.accounts.tokens || Redeems(db, Machine.OnAccounts(a), now, digest)
    ensures digest !in Apply(db, a, now).accounts.tokens
  {
  }

  lemma StepLeavesSpent(db: DB, a: Machine.Action, now: Time, digest: Digest)
    requires !IssuesReset(a, digest)
    requires digest !in db.accounts.tokens || Redeems(db, a, now, digest)
    ensures digest !in Machine.Apply(db, a, now).accounts.tokens
  {
    match a
    case SetMode(_) =>
    case OnAccounts(account) => AccountStepLeavesSpent(db, account, now, digest);
    case OnRooms(room) => RoomOps.ApplyFrame(db, room);
    case OnPosts(post) => PostOps.ApplyFrame(db, post, now);
    case DeleteAccount(_, _, _) =>
  }

  lemma {:induction false} SpentLinksStaySpent(db: DB, run: Machine.Run, digest: Digest)
    requires digest !in db.accounts.tokens && NeverIssuesReset(run, digest)
    ensures Redemptions(db, run, digest) == 0 && digest !in Machine.After(db, run).accounts.tokens
    decreases run
  {
    if run != [] {
      StepLeavesSpent(db, run[0].action, run[0].now, digest);
      SpentLinksStaySpent(Machine.Apply(db, run[0].action, run[0].now), run[1..], digest);
    }
  }

  /** A reset link works once: a digest is redeemed at most once over any run that does not issue it anew. */
  lemma {:induction false} RedeemedAtMostOnce(db: DB, run: Machine.Run, digest: Digest)
    requires NeverIssuesReset(run, digest)
    ensures Redemptions(db, run, digest) <= 1
    decreases run
  {
    if run != [] {
      var next := Machine.Apply(db, run[0].action, run[0].now);
      if Redeems(db, run[0].action, run[0].now, digest) {
        StepLeavesSpent(db, run[0].action, run[0].now, digest);
        SpentLinksStaySpent(next, run[1..], digest);
      } else {
        RedeemedAtMostOnce(next, run[1..], digest);
      }
    }
  }

  /** A new password signs its account out everywhere and ends its reset links, and nobody else notices:
      every other session and link works exactly as before, at every time. */
  lemma PasswordChangeSignsOut(db: DB, user: Id, hash: Digest, h: Digest, t: Time, u: Id)
    requires SetPassword(db, user, hash).Committed?
    ensures var a, after := db.accounts, SetPassword(db, user, hash).db.accounts;
      && (SignsIn(after, h, t, u) <==> u != user && SignsIn(a, h, t, u))
      && (AuthTokenValid(after, h, t) <==> AuthTokenValid(a, h, t) && a.tokens[h].user != user)
      && after.users[user].hash == hash
      && (u in a.users && u != user ==> after.users[u] == a.users[u])
  {
  }

  // ----- Sessions -----

  /** A new session signs in its own account until it expires, and clearing out what has expired ends no
      session that still counted. */
  lemma NewSessionSignsIn(db: DB, digest: Digest, user: Id, expires: Time, now: Time, h: Digest, t: Time, u: Id)
    requires NewSession(db, digest, user, expires, now).Committed? && now <= t
    ensures SignsIn(NewSession(db, digest, user, expires, now).db.accounts, h, t, u) <==>
            if h == digest then u == user && t < expires else SignsIn(db.accounts, h, t, u)
  {
  }

  predicate SignsInAnew(a: Machine.Action, digest: Digest) {
    a.OnAccounts? && a.account.DoNewSession? && a.account.digest == digest
  }

  lemma StepKeepsEnded(db: DB, a: Machine.Action, now: Time, digest: Digest)
    requires digest !in db.accounts.sessions && !SignsInAnew(a, digest)
    ensures digest !in Machine.Apply(db, a, now).accounts.sessions
  {
    match a
    case SetMode(_) =>
    case OnAccounts(account) => AccountStepKeepsEnded(db, account, now, digest);
    case OnRooms(room) => RoomOps.ApplyFrame(db, room);
    case OnPosts(post) => PostOps.ApplyFrame(db, post, now);
    case DeleteAccount(_, _, _) =>
  }

  lemma AccountStepKeepsEnded(db: DB, a: Action, now: Time, digest: Digest)
    requires digest !in db.accounts.sessions && !SignsInAnew(Machine.OnAccounts(a), digest)
    ensures digest !in Apply(db, a, now).accounts.sessions
  {
  }

  lemma {:induction false} EndedSessionsStayEnded(db: DB, run: Machine.Run, digest: Digest)
    requires digest !in db.accounts.sessions
    requires forall k :: 0 <= k < |run| ==> !SignsInAnew(run[k].action, digest)
    ensures digest !in Machine.After(db, run).accounts.sessions
    decreases run
  {
    if run != [] {
      StepKeepsEnded(db, run[0].action, run[0].now, digest);
      EndedSessionsStayEnded(Machine.Apply(db, run[0].action, run[0].now), run[1..], digest);
    }
  }

  /** Restoring a member restores nothing they held: a session or reset link that was theirs when they
      were suspended works at no later time, unless its digest is issued anew. */
  lemma SuspensionIsFinalForOldLinks(db: DB, a: Action, now: Time, digest: Digest, run: Machine.Run)
    requires a.DoChangeMember? && a.change == Suspend
    requires ChangeMember(db, a.owner, a.member, a.revision, Suspend, a.confirmation, now).Committed?
    ensures digest in db.accounts.sessions && db.accounts.sessions[digest].user == a.member ==>
      ((forall k :: 0 <= k < |run| ==> !SignsInAnew(run[k].action, digest)) ==>
        digest !in Machine.After(Apply(db, a, now), run).accounts.sessions)
    ensures digest in db.accounts.tokens && db.accounts.tokens[digest].user == a.member ==>
      (NeverIssuesReset(run, digest) ==> Redemptions(Apply(db, a, now), run, digest) == 0)
  {
    var after := Apply(db, a, now);
    if digest in db.accounts.sessions && db.accounts.sessions[digest].user == a.member {
      if forall k :: 0 <= k < |run| ==> !SignsInAnew(run[k].action, digest) {
        EndedSessionsStayEnded(after, run, digest);
      }
    }
    if digest in db.accounts.tokens && db.accounts.tokens[digest].user == a.member && NeverIssuesReset(run, digest) {
      SpentLinksStaySpent(after, run, digest);
    }
  }
}
