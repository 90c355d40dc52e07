/** What holds of accounts in every reachable state. */
module AccountLaws {
  import opened Schema
  import opened Permissions
  import opened AccountOps
  import PostOps
  import RoomOps
  import Machine

  /** Suspension flips with each revision; only members are ever suspended; a deleted row is blank and shut out. */
  ghost predicate UserOk(u: User) {
    && (u.suspended <==> u.suspensionRevision % 2 == 1)
    && (u.suspended ==> u.role == Member)
    && (u.deleted ==> u.suspended && u.hash == "" && u.email == "" && !u.canInvite
                      && u.invitedBy == None && u.invitedByName == "" && u.invitationId == None)
  }

  ghost predicate UsersOk(users: map<Id, User>) {
    forall u :: u in users ==> u >= 1 && UserOk(users[u])
  }

  predicate Active(users: map<Id, User>, u: Id) {
    u in users && !users[u].suspended
  }

  /** Nobody who is suspended or deleted has a session. */
  ghost predicate SessionsOk(a: Accounts) {
    forall h :: h in a.sessions ==> Active(a.users, a.sessions[h].user)
  }

  /** Nobody who is suspended or deleted has a reset link; nobody has two; and none is ever seen used,
      because redeeming a link removes it in the same transaction. */
  ghost predicate TokensOk(a: Accounts) {
    && (forall h :: h in a.tokens ==> Active(a.users, a.tokens[h].user) && a.tokens[h].usedAt == None)
    && (forall h, k :: h in a.tokens && k in a.tokens && a.tokens[h].user == a.tokens[k].user ==> h == k)
  }

  ghost predicate InvitationOk(users: map<Id, User>, i: Invitation) {
    && i.createdBy in users && !users[i.createdBy].deleted
    && (users[i.createdBy].suspended ==> i.revokedAt.Some?)
    && (i.maxUses != 0 ==> i.uses <= i.maxUses)
  }

  /** Nobody who is suspended has an unrevoked invitation, nobody deleted has one at all, no
      invitation is used more often than it may be, and a digest names one invitation. */
  ghost predicate InvitationsOk(a: Accounts) {
    && (forall i :: i in a.invitations ==> InvitationOk(a.users, a.invitations[i]))
    && DigestsDiffer(a.invitations)
  }

  ghost predicate AccountsOk(a: Accounts) {
    UsersOk(a.users) && SessionsOk(a) && TokensOk(a) && InvitationsOk(a)
  }

  /** Adding an account, or changing a row without suspending or deleting it, keeps everything. */
  ghost predicate Milder(before: map<Id, User>, after: map<Id, User>) {
    forall u :: u in before ==>
      && u in after
      && (after[u].suspended ==> before[u].suspended)
      && (after[u].deleted ==> before[u].deleted)
  }

  lemma MilderKeeps(a: Accounts, users: map<Id, User>)
    requires AccountsOk(a) && UsersOk(users) && Milder(a.users, users)
    ensures AccountsOk(a.(users := users))
  {
  }

  lemma CreateAccountKeeps(db: DB, name: string, hash: Digest, role: Role, now: Time)
    requires AccountsOk(db.accounts)
    ensures AccountsOk(CreateAccount(db, name, hash, role, now).After(db).accounts)
  {
    var a := db.accounts;
    var id := NextId(a.users.Keys);
    MilderKeeps(a, a.users[id := NewUser(name, hash, role, now)]);
  }

  lemma RegisterKeeps(db: DB, name: string, hash: Digest, digest: Digest, now: Time)
    requires AccountsOk(db.accounts)
    ensures AccountsOk(Register(db, name, hash, digest, now).After(db).accounts)
  {
    CreateAccountKeeps(db, name, hash, Member, now);
    var o := Register(db, name, hash, digest, now);
    if o.Committed? && !(digest == "" && db.mode == Mode.Open) {
      var a := db.accounts;
      MilderKeeps(a, o.db.accounts.users);
    }
  }

  lemma NewSessionKeeps(db: DB, digest: Digest, user: Id, expires: Time, now: Time)
    requires AccountsOk(db.accounts)
    ensures AccountsOk(NewSession(db, digest, user, expires, now).After(db).accounts)
  {
  }

  lemma CreateAuthTokenKeeps(db: DB, user: Id, digest: Digest, expires: Time, now: Time)
    requires AccountsOk(db.accounts)
    ensures AccountsOk(CreateAuthToken(db, user, digest, expires, now).After(db).accounts)
  {
  }

  lemma SetPasswordKeeps(db: DB, user: Id, hash: Digest)
    requires AccountsOk(db.accounts)
    ensures AccountsOk(SetPassword(db, user, hash).After(db).accounts)
  {
  }

  lemma ResetPasswordKeeps(db: DB, digest: Digest, hash: Digest, now: Time)
    requires AccountsOk(db.accounts)
    ensures AccountsOk(ResetPassword(db, digest, hash, now).After(db).accounts)
  {
    if digest in db.accounts.tokens {
      SetPasswordKeeps(db, db.accounts.tokens[digest].user, hash);
    }
  }

  lemma SetEmailKeeps(db: DB, user: Id, email: string)
    requires AccountsOk(db.accounts)
    ensures AccountsOk(SetEmail(db, user, email).After(db).accounts)
  {
  }

  lemma CreateInvitationKeeps(db: DB, creator: Id, digest: Digest, prefix: string, title: string,
                              maxUses: int, expires: Option<Time>, now: Time)
    requires AccountsOk(db.accounts)
    ensures AccountsOk(CreateInvitation(db, creator, digest, prefix, title, maxUses, expires, now).After(db).accounts)
  {
  }

  lemma SetInvitePermissionKeeps(db: DB, user: Id, enabled: bool, now: Time)
    requires AccountsOk(db.accounts)
    ensures AccountsOk(SetInvitePermission(db, user, enabled, now).After(db).accounts)
  {
  }

  lemma RevokeInvitationKeeps(db: DB, id: Id, creator: Id, owner: bool, now: Time)
    requires AccountsOk(db.accounts)
    ensures AccountsOk(RevokeInvitation(db, id, creator, owner, now).After(db).accounts)
  {
  }

  /** Suspending a member ends their sessions, reset links and invitations, so everything still fits. */
  lemma SuspensionKeeps(a: Accounts, member: Id, now: Time)
    requires AccountsOk(a) && Active(a.users, member) && a.users[member].role == Member
    ensures var m := a.users[member];
      AccountsOk(Accounts(a.users[member := m.(suspended := true, suspensionRevision := m.suspensionRevision + 1)],
        SessionsWithout(a.sessions, member), TokensWithout(a.tokens, member), RevokeAllOf(a.invitations, member, now)))
  {
    var m := a.users[member];
    var users := a.users[member := m.(suspended := true, suspensionRevision := m.suspensionRevision + 1)];
    var invitations := RevokeAllOf(a.invitations, member, now);
    assert UserOk(m) && UserOk(users[member]);
    forall i | i in invitations ensures InvitationOk(users, invitations[i]) {
      assert InvitationOk(a.users, a.invitations[i]);
    }
  }

  /** Restoring one gives back the account and nothing else. */
  lemma RestoringKeeps(a: Accounts, member: Id)
    requires AccountsOk(a) && member in a.users && a.users[member].suspended && !a.users[member].deleted
    ensures var m := a.users[member];
      AccountsOk(a.(users := a.users[member := m.(suspended := false, suspensionRevision := m.suspensionRevision + 1)]))
  {
    var m := a.users[member];
    var users := a.users[member := m.(suspended := false, suspensionRevision := m.suspensionRevision + 1)];
    assert UserOk(m) && UserOk(users[member]);
    MilderKeeps(a, users);
  }

  lemma ChangeMemberKeeps(db: DB, owner: Id, member: Id, revision: int, action: MemberAction, confirmation: string,
          now: Time)
    requires AccountsOk(db.accounts)
    ensures AccountsOk(ChangeMember(db, owner, member, revision, action, confirmation, now).After(db).accounts)
  {
    if ChangeMember(db, owner, member, revision, action, confirmation, now).Committed? {
      if action == Suspend {
        SuspensionKeeps(db.accounts, member, now);
      } else {
        RestoringKeeps(db.accounts, member);
      }
    }
  }

  lemma DeletionKeeps(a: Accounts, user: Id)
    requires AccountsOk(a) && Active(a.users, user)
    ensures AccountsOk(PostOps.AccountsAfterDeletion(a, user))
  {
    var b := PostOps.AccountsAfterDeletion(a, user);
    forall u | u in b.users ensures UserOk(b.users[u]) {
      assert UserOk(a.users[u]);
    }
    assert SessionsOk(b);
    assert TokensOk(b);
  }

  lemma AccountStepKeeps(db: DB, a: Action, now: Time)
    requires AccountsOk(db.accounts)
    ensures AccountsOk(Apply(db, a, now).accounts)
  {
    match a
    case DoCreateUser(name, hash) => CreateAccountKeeps(db, name, hash, Member, now);
    case DoCreateOwner(name, hash) => CreateAccountKeeps(db, name, hash, Owner, now);
    case DoRegister(name, hash, digest) => RegisterKeeps(db, name, hash, digest, now);
    case DoNewSession(digest, user, expires) => NewSessionKeeps(db, digest, user, expires, now);
    case DoDeleteSession(_) =>
    case DoCreateAuthToken(user, digest, expires) => CreateAuthTokenKeeps(db, user, digest, expires, now);
    case DoDeleteAuthTokens(_) =>
    case DoSetPassword(user, hash) => SetPasswordKeeps(db, user, hash);
    case DoResetPassword(digest, hash) => ResetPasswordKeeps(db, digest, hash, now);
    case DoSetEmail(user, email) => SetEmailKeeps(db, user, email);
    case DoCreateInvitation(creator, digest, prefix, title, maxUses, expiry) =>
      CreateInvitationKeeps(db, creator, digest, prefix, title, maxUses, expiry, now);
    case DoSetInvitePermission(user, enabled) => SetInvitePermissionKeeps(db, user, enabled, now);
    case DoRevokeInvitation(id, creator, asOwner) => RevokeInvitationKeeps(db, id, creator, asOwner, now);
    case DoChangeMember(owner, member, revision, change, confirmation) =>
      ChangeMemberKeeps(db, owner, member, revision, change, confirmation, now);
  }

  lemma StepKeepsAccounts(db: DB, a: Machine.Action, now: Time)
    requires AccountsOk(db.accounts)
    ensures AccountsOk(Machine.Apply(db, a, now).accounts)
  {
    match a
    case SetMode(_) =>
    case OnAccounts(account) => AccountStepKeeps(db, account, now);
    case OnRooms(room) => RoomOps.ApplyFrame(db, room);
    case OnPosts(post) => PostOps.ApplyFrame(db, post, now);
    case DeleteAccount(user, name, hash) =>
      if PostOps.DeleteAccount(db, user, name, hash).Committed? {
        DeletionKeeps(db.accounts, user);
      }
  }

  /** In every state a run of actions leads to, the account invariant holds. */
  lemma {:induction false} RunKeepsAccounts(db: DB, run: Machine.Run)
    requires AccountsOk(db.accounts)
    ensures AccountsOk(Machine.After(db, run).accounts)
    decreases run
  {
    if run != [] {
      StepKeepsAccounts(db, run[0].action, run[0].now);
      RunKeepsAccounts(Machine.Apply(db, run[0].action, run[0].now), run[1..]);
    }
  }

  // ----- What time does to accounts -----

  ghost predicate LaterUser(before: User, after: User) {
    && (before.deleted ==> after == before)
    && (!after.deleted ==> after.role == before.role)
    && before.suspensionRevision <= after.suspensionRevision
  }

  /** Accounts stay: a deleted one unchanged for ever, a live one in its role, and an owner among them
      once there is one. */
  ghost predicate LaterUsers(before: map<Id, User>, after: map<Id, User>) {
    && (forall u :: u in before ==> u in after && LaterUser(before[u], after[u]))
    && (HasOwner(before) ==> HasOwner(after))
  }

  ghost predicate HasOwner(users: map<Id, User>) {
    exists u :: u in users && users[u].role == Owner && !users[u].deleted
  }

  /** Rows are added, or changed without deleting anyone. */
  ghost predicate Carries(before: map<Id, User>, after: map<Id, User>) {
    forall u :: u in before ==> u in after && LaterUser(before[u], after[u]) && (after[u].deleted ==> before[u].deleted)
  }

  lemma CarriesOn(before: map<Id, User>, after: map<Id, User>)
    requires Carries(before, after)
    ensures LaterUsers(before, after)
  {
    if HasOwner(before) {
      var u :| u in before && before[u].role == Owner && !before[u].deleted;
      assert after[u].role == Owner;
    }
  }

  lemma SameUsersCarry(users: map<Id, User>)
    ensures Carries(users, users)
  {
  }

  lemma AddedCarries(users: map<Id, User>, id: Id, row: User)
    requires id !in users
    ensures Carries(users, users[id := row])
  {
  }

  lemma ChangedCarries(users: map<Id, User>, u: Id, row: User)
    requires u in users && LaterUser(users[u], row) && (row.deleted ==> users[u].deleted)
    ensures Carries(users, users[u := row])
  {
  }

  lemma CreateAccountCarries(db: DB, name: string, hash: Digest, role: Role, now: Time)
    ensures Carries(db.accounts.users, CreateAccount(db, name, hash, role, now).After(db).accounts.users)
  {
    AddedCarries(db.accounts.users, NextId(db.accounts.users.Keys), NewUser(name, hash, role, now));
  }

  lemma RegisterCarries(db: DB, name: string, hash: Digest, digest: Digest, now: Time)
    ensures Carries(db.accounts.users, Register(db, name, hash, digest, now).After(db).accounts.users)
  {
    var o := Register(db, name, hash, digest, now);
    CreateAccountCarries(db, name, hash, Member, now);
    if o.Committed? && !(digest == "" && db.mode == Mode.Open) {
      var id := NextId(db.accounts.users.Keys);
      AddedCarries(db.accounts.users, id, o.db.accounts.users[id]);
    }
  }

  lemma SetPasswordCarries(db: DB, user: Id, hash: Digest)
    requires UsersOk(db.accounts.users)
    ensures Carries(db.accounts.users, SetPassword(db, user, hash).After(db).accounts.users)
  {
    if SetPassword(db, user, hash).Committed? {
      assert UserOk(db.accounts.users[user]);
      ChangedCarries(db.accounts.users, user, db.accounts.users[user].(hash := hash));
    }
  }

  lemma SetEmailCarries(db: DB, user: Id, email: string)
    requires UsersOk(db.accounts.users)
    ensures Carries(db.accounts.users, SetEmail(db, user, email).After(db).accounts.users)
  {
    if SetEmail(db, user, email).Committed? {
      assert UserOk(db.accounts.users[user]);
      ChangedCarries(db.accounts.users, user, db.accounts.users[user].(email := email));
    }
  }

  lemma SetInvitePermissionCarries(db: DB, user: Id, enabled: bool, now: Time)
    requires UsersOk(db.accounts.users)
    ensures Carries(db.accounts.users, SetInvitePermission(db, user, enabled, now).After(db).accounts.users)
  {
    if SetInvitePermission(db, user, enabled, now).Committed? {
      assert UserOk(db.accounts.users[user]);
      ChangedCarries(db.accounts.users, user, db.accounts.users[user].(canInvite := enabled));
    }
  }

  lemma ChangeMemberCarries(db: DB, owner: Id, member: Id, revision: int, action: MemberAction, confirmation: string,
          now: Time)
    ensures Carries(db.accounts.users,
                    ChangeMember(db, owner, member, revision, action, confirmation, now).After(db).accounts.users)
  {
    var o := ChangeMember(db, owner, member, revision, action, confirmation, now);
    if o.Committed? {
      ChangedCarries(db.accounts.users, member, o.db.accounts.users[member]);
    }
  }

  lemma AccountStepCarries(db: DB, a: Action, now: Time)
    requires UsersOk(db.accounts.users)
    ensures Carries(db.accounts.users, Apply(db, a, now).accounts.users)
  {
    SameUsersCarry(db.accounts.users);
    match a
    case DoCreateUser(name, hash) => CreateAccountCarries(db, name, hash, Member, now);
    case DoCreateOwner(name, hash) => CreateAccountCarries(db, name, hash, Owner, now);
    case DoRegister(name, hash, digest) => RegisterCarries(db, name, hash, digest, now);
    case DoSetPassword(user, hash) => SetPasswordCarries(db, user, hash);
    case DoResetPassword(digest, hash) =>
      if digest in db.accounts.tokens {
        SetPasswordCarries(db, db.accounts.tokens[digest].user, hash);
      }
    case DoSetEmail(user, email) => SetEmailCarries(db, user, email);
    case DoSetInvitePermission(user, enabled) => SetInvitePermissionCarries(db, user, enabled, now);
    case DoChangeMember(owner, member, revision, change, confirmation) =>
      ChangeMemberCarries(db, owner, member, revision, change, confirmation, now);
    case _ =>
  }

  lemma AccountStepMovesOn(db: DB, a: Action, now: Time)
    requires UsersOk(db.accounts.users)
    ensures LaterUsers(db.accounts.users, Apply(db, a, now).accounts.users)
  {
    AccountStepCarries(db, a, now);
    CarriesOn(db.accounts.users, Apply(db, a, now).accounts.users);
  }

  lemma Another<T>(ids: set<T>, id: T) returns (other: T)
    requires |ids| > 1
    ensures other in ids && other != id
  {
    var rest := ids - {id};
    assert |rest| > 0;
    other :| other in rest;
  }

  lemma DeletionLeavesOwner(a: Accounts, user: Id)
    requires Active(a.users, user) && HasOwner(a.users)
    requires a.users[user].role == Owner ==> |PostOps.LiveOwners(a.users)| > 1
    ensures HasOwner(PostOps.UsersAfterDeletion(a, user))
  {
    var after := PostOps.UsersAfterDeletion(a, user);
    var owner :| owner in a.users && a.users[owner].role == Owner && !a.users[owner].deleted;
    if owner == user {
      var other := Another(PostOps.LiveOwners(a.users), user);
      assert after[other].role == Owner;
    } else {
      assert after[owner].role == Owner;
    }
  }

  lemma DeletionMovesOn(a: Accounts, user: Id)
    requires UsersOk(a.users) && Active(a.users, user)
    requires a.users[user].role == Owner ==> |PostOps.LiveOwners(a.users)| > 1
    ensures LaterUsers(a.users, PostOps.UsersAfterDeletion(a, user))
  {
    var after := PostOps.UsersAfterDeletion(a, user);
    forall u | u in a.users ensures LaterUser(a.users[u], after[u]) {
      assert UserOk(a.users[u]);
    }
    if HasOwner(a.users) {
      DeletionLeavesOwner(a, user);
    }
  }

  lemma LaterUsersChains(a: map<Id, User>, b: map<Id, User>, c: map<Id, User>)
    requires LaterUsers(a, b) && LaterUsers(b, c)
    ensures LaterUsers(a, c)
  {
  }

  lemma StepMovesOn(db: DB, a: Machine.Action, now: Time)
    requires AccountsOk(db.accounts)
    ensures LaterUsers(db.accounts.users, Machine.Apply(db, a, now).accounts.users)
  {
    match a
    case SetMode(_) =>
    case OnAccounts(account) => AccountStepMovesOn(db, account, now);
    case OnRooms(room) => RoomOps.ApplyFrame(db, room);
    case OnPosts(post) => PostOps.ApplyFrame(db, post, now);
    case DeleteAccount(user, name, hash) =>
      if PostOps.DeleteAccount(db, user, name, hash).Committed? {
        DeletionMovesOn(db.accounts, user);
      }
  }

  /** Over any run: a deleted account is never restored nor its row changed, nobody changes role, and a
      site that has an owner always has one. */
  lemma {:induction false} RunMovesOn(db: DB, run: Machine.Run)
    requires AccountsOk(db.accounts)
    ensures LaterUsers(db.accounts.users, Machine.After(db, run).accounts.users)
    decreases run
  {
    if run != [] {
      var next := Machine.Apply(db, run[0].action, run[0].now);
      StepKeepsAccounts(db, run[0].action, run[0].now);
      StepMovesOn(db, run[0].action, run[0].now);
      RunMovesOn(next, run[1..]);
      LaterUsersChains(db.accounts.users, next.accounts.users, Machine.After(db, run).accounts.users);
    }
  }
}
