/** What the transactions on accounts do, row by row: when each of them commits, which rows it leaves
    changed and how, and that every other row is as it was. */
module AccountEffects {
  import opened Schema
  import opened AccountOps
  import AccountLaws
  import Machine
  import PostOps
  import RoomOps

  predicate Active(a: Accounts, user: Id) {
    AccountLaws.Active(a.users, user)
  }

  predicate ActiveOwner(a: Accounts, user: Id) {
    Active(a, user) && a.users[user].role == Owner
  }

  /** A name the table accepts and nobody has, in whatever case. */
  ghost predicate NameFree(a: Accounts, name: string) {
    3 <= |name| <= 24 && forall u :: u in a.users ==> Folded(a.users[u].name) != Folded(name)
  }

  /** One account is there that was not there before, and no other account differs. */
  ghost predicate OneMoreUser(before: map<Id, User>, after: map<Id, User>, id: Id) {
    && id >= 1 && id !in before && after.Keys == before.Keys + {id}
    && forall u :: u in before ==> after[u] == before[u]
  }

  /** No account but `id` differs, and nobody has come or gone. */
  ghost predicate OnlyUser(before: map<Id, User>, after: map<Id, User>, id: Id) {
    && id in before && after.Keys == before.Keys
    && forall u :: u in before && u != id ==> after[u] == before[u]
  }

  /** Exactly the sessions of `user` are gone. */
  ghost predicate SignedOut(before: map<Digest, Session>, after: map<Digest, Session>, user: Id) {
    && (forall h :: h in after <==> h in before && before[h].user != user)
    && (forall h :: h in after ==> after[h] == before[h])
  }

  /** Exactly the reset links of `user` are gone. */
  ghost predicate Unlinked(before: map<Digest, Token>, after: map<Digest, Token>, user: Id) {
    && (forall h :: h in after <==> h in before && before[h].user != user)
    && (forall h :: h in after ==> after[h] == before[h])
  }

  // ----- New accounts -----

  /** An account made on the command line has the role it was made with and nothing else. */
  lemma AccountIsMade(db: DB, name: string, hash: Digest, role: Role, now: Time)
    ensures var o := CreateAccount(db, name, hash, role, now);
      && (o.Committed? <==> NameFree(db.accounts, name))
      && (o.Committed? ==>
            && o.db == db.(accounts := db.accounts.(users := o.db.accounts.users))
            && OneMoreUser(db.accounts.users, o.db.accounts.users, o.value)
            && o.db.accounts.users[o.value] == User(
                 name := name, hash := hash, role := role, createdAt := now, canInvite := false,
                 invitedBy := None, invitedByName := "", invitationId := None,
                 email := "", suspended := false, suspensionRevision := 0, deleted := false))
  {
  }

  /** An invitation that would let someone in: its digest is the one given, its creator may still invite,
      and it is neither revoked nor expired nor used up. */
  ghost predicate LetsIn(a: Accounts, digest: Digest, now: Time, i: Id) {
    && i in a.invitations && a.invitations[i].digest == digest
    && var row := a.invitations[i];
    && Active(a, row.createdBy)
    && (a.users[row.createdBy].role == Owner || a.users[row.createdBy].canInvite)
    && row.revokedAt == None
    && (row.expires.Some? ==> now < row.expires.value)
    && (row.maxUses != 0 ==> row.uses < row.maxUses)
  }

  /** Registration is open to anyone on an open site and needs such an invitation otherwise, or if one is
      given; on a personal site there is none. */
  lemma RegistersExactly(db: DB, name: string, hash: Digest, digest: Digest, now: Time)
    requires AccountLaws.AccountsOk(db.accounts)
    ensures Register(db, name, hash, digest, now).Committed? <==>
            && db.mode != Personal && NameFree(db.accounts, name)
            && ((digest == "" && db.mode == Mode.Open) || exists i :: LetsIn(db.accounts, digest, now, i))
  {
    if i :| Names(db.accounts, digest, i) {
      assert Redeemable(db.accounts.invitations[i], now) <==> LetsIn(db.accounts, digest, now, i);
      assert forall j :: Names(db.accounts, digest, j) ==> j == i;
    }
    assert forall j :: LetsIn(db.accounts, digest, now, j) ==> Names(db.accounts, digest, j);
  }

  /** A registration makes one member: with the name and password given, no right to invite, and no more
      than that, and known to be invited exactly if an invitation was needed. */
  lemma RegisteredIsMember(db: DB, name: string, hash: Digest, digest: Digest, now: Time)
    requires Register(db, name, hash, digest, now).Committed?
    ensures var o := Register(db, name, hash, digest, now);
      && OneMoreUser(db.accounts.users, o.db.accounts.users, o.value)
      && var row := o.db.accounts.users[o.value];
      && row.name == name && row.hash == hash && row.role == Member && row.createdAt == now
      && !row.canInvite && row.email == "" && !row.suspended && row.suspensionRevision == 0 && !row.deleted
      && (digest == "" && db.mode == Mode.Open ==>
            row.invitedBy == None && row.invitedByName == "" && row.invitationId == None)
      && (!(digest == "" && db.mode == Mode.Open) ==>
            && row.invitationId.Some? && LetsIn(db.accounts, digest, now, row.invitationId.value)
            && var creator := db.accounts.invitations[row.invitationId.value].createdBy;
               row.invitedBy == Some(creator) && row.invitedByName == db.accounts.users[creator].name)
  {
  }

  /** ... and costs the invitation it came with one use, and nothing else. */
  lemma RegistrationCostsOneUse(db: DB, name: string, hash: Digest, digest: Digest, now: Time)
    requires Register(db, name, hash, digest, now).Committed?
    ensures var o := Register(db, name, hash, digest, now);
      && o.value in o.db.accounts.users
      && var used := o.db.accounts.users[o.value].invitationId;
      && o.db == db.(accounts := db.accounts.(
           users := o.db.accounts.users, invitations := o.db.accounts.invitations))
      && o.db.accounts.invitations.Keys == db.accounts.invitations.Keys
      && forall i :: i in db.accounts.invitations ==>
           && o.db.accounts.invitations[i] == db.accounts.invitations[i].(uses := o.db.accounts.invitations[i].uses)
           && o.db.accounts.invitations[i].uses
              == db.accounts.invitations[i].uses + if Some(i) == used then 1 else 0
  {
  }

  // ----- Where owners come from -----

  predicate MakesOwner(a: Machine.Action) {
    a.OnAccounts? && a.account.DoCreateOwner?
  }

  lemma StepMakesNoOwner(db: DB, a: Machine.Action, now: Time, u: Id)
    requires AccountLaws.AccountsOk(db.accounts) && !MakesOwner(a)
    requires var users := Machine.Apply(db, a, now).accounts.users; u in users && users[u].role == Owner
    ensures u in db.accounts.users && db.accounts.users[u].role == Owner
  {
    match a
    case SetMode(_) =>
    case OnAccounts(account) => AccountStepMakesNoOwner(db, account, now, u);
    case OnRooms(room) => RoomOps.ApplyFrame(db, room);
    case OnPosts(post) => PostOps.ApplyFrame(db, post, now);
    case DeleteAccount(_, _, _) =>
  }

  lemma AccountStepMakesNoOwner(db: DB, a: Action, now: Time, u: Id)
    requires !a.DoCreateOwner?
    requires var users := Apply(db, a, now).accounts.users; u in users && users[u].role == Owner
    ensures u in db.accounts.users && db.accounts.users[u].role == Owner
  {
    match a
    case DoRegister(name, hash, digest) =>
      if Register(db, name, hash, digest, now).Committed? {
        RegisteredIsMember(db, name, hash, digest, now);
      }
    case _ =>
  }

  /** Nobody becomes an owner: whoever is one after a run in which no owner was made on the command line was
      one before it. */
  lemma {:induction false} OwnersAreMade(db: DB, run: Machine.Run, u: Id)
    requires AccountLaws.AccountsOk(db.accounts)
    requires forall k :: 0 <= k < |run| ==> !MakesOwner(run[k].action)
    requires var users := Machine.After(db, run).accounts.users; u in users && users[u].role == Owner
    ensures u in db.accounts.users && db.accounts.users[u].role == Owner
    decreases run
  {
    if run != [] {
      AccountLaws.StepKeepsAccounts(db, run[0].action, run[0].now);
      OwnersAreMade(Machine.Apply(db, run[0].action, run[0].now), run[1..], u);
      StepMakesNoOwner(db, run[0].action, run[0].now, u);
    }
  }

  // ----- Sessions -----

  /** Signing in needs an active account and a session nobody has; it clears out what has expired. */
  lemma SessionIsMade(db: DB, digest: Digest, user: Id, expires: Time, now: Time)
    ensures var o := NewSession(db, digest, user, expires, now);
      && (o.Committed? <==>
            && Active(db.accounts, user)
            && !(digest in db.accounts.sessions && now < db.accounts.sessions[digest].expires))
      && (o.Committed? ==>
            && o.db == db.(accounts := db.accounts.(sessions := o.db.accounts.sessions))
            && digest in o.db.accounts.sessions && o.db.accounts.sessions[digest] == Session(user, expires)
            && (forall h :: h != digest ==>
                  (h in o.db.accounts.sessions <==>
                     h in db.accounts.sessions && now < db.accounts.sessions[h].expires))
            && (forall h :: h != digest && h in o.db.accounts.sessions ==>
                  o.db.accounts.sessions[h] == db.accounts.sessions[h]))
  {
  }

  /** Signing out ends that session and no other. */
  lemma SessionIsEnded(db: DB, digest: Digest)
    ensures var o := DeleteSession(db, digest);
      && o.Committed? && o.db == db.(accounts := db.accounts.(sessions := o.db.accounts.sessions))
      && (forall h :: h in o.db.accounts.sessions <==> h in db.accounts.sessions && h != digest)
      && (forall h :: h in o.db.accounts.sessions ==> o.db.accounts.sessions[h] == db.accounts.sessions[h])
  {
  }

  // ----- Reset links and passwords -----

  lemma ResetLinkIsMade(db: DB, user: Id, digest: Digest, expires: Time, now: Time)
    ensures var o := CreateAuthToken(db, user, digest, expires, now);
      && (o.Committed? <==>
            && Active(db.accounts, user)
            && (digest in db.accounts.tokens ==> db.accounts.tokens[digest].user == user))
      && (o.Committed? ==>
            && o.db == db.(accounts := db.accounts.(tokens := o.db.accounts.tokens))
            && digest in o.db.accounts.tokens
            && o.db.accounts.tokens[digest] == Token(user := user, created := now, expires := expires, usedAt := None)
            && (forall h :: h != digest ==>
                  (h in o.db.accounts.tokens <==> h in db.accounts.tokens && db.accounts.tokens[h].user != user))
            && (forall h :: h != digest && h in o.db.accounts.tokens ==>
                  o.db.accounts.tokens[h] == db.accounts.tokens[h]))
  {
  }

  lemma ResetLinksAreCleared(db: DB, user: Id)
    ensures var o := DeleteAuthTokens(db, user);
      && o.Committed? && o.db == db.(accounts := db.accounts.(tokens := o.db.accounts.tokens))
      && Unlinked(db.accounts.tokens, o.db.accounts.tokens, user)
  {
  }

  /** The account's row has exactly the new password; its sessions and reset links are gone. */
  ghost predicate PasswordIs(db: DB, after: DB, user: Id, hash: Digest) {
    && after == db.(accounts := after.accounts) && after.accounts.invitations == db.accounts.invitations
    && OnlyUser(db.accounts.users, after.accounts.users, user)
    && after.accounts.users[user] == db.accounts.users[user].(hash := hash)
    && SignedOut(db.accounts.sessions, after.accounts.sessions, user)
    && Unlinked(db.accounts.tokens, after.accounts.tokens, user)
  }

  lemma PasswordIsSet(db: DB, user: Id, hash: Digest)
    requires AccountLaws.AccountsOk(db.accounts)
    ensures var o := SetPassword(db, user, hash);
      && (o.Committed? <==> user in db.accounts.users && (db.accounts.users[user].deleted ==> hash == ""))
      && (o.Committed? ==> PasswordIs(db, o.db, user, hash))
  {
    if user in db.accounts.users {
      assert AccountLaws.UserOk(db.accounts.users[user]);
    }
  }

  /** Redeeming a link sets the password of the account it was made for to exactly the one given, and signs
      it out everywhere. */
  lemma RedeemedPasswordIsSet(db: DB, digest: Digest, hash: Digest, at: Time)
    requires ResetPassword(db, digest, hash, at).Committed?
    ensures var o := ResetPassword(db, digest, hash, at);
      && digest in db.accounts.tokens && at < db.accounts.tokens[digest].expires
      && o.value == db.accounts.tokens[digest].user
      && PasswordIs(db, o.db, o.value, hash)
      && digest !in o.db.accounts.tokens
  {
  }

  lemma EmailIsSet(db: DB, user: Id, email: string)
    requires AccountLaws.AccountsOk(db.accounts)
    ensures var o := SetEmail(db, user, email);
      && (o.Committed? <==> user in db.accounts.users && (db.accounts.users[user].deleted ==> email == ""))
      && (o.Committed? ==>
            && o.db == db.(accounts := db.accounts.(users := o.db.accounts.users))
            && OnlyUser(db.accounts.users, o.db.accounts.users, user)
            && o.db.accounts.users[user] == db.accounts.users[user].(email := email))
  {
    if user in db.accounts.users {
      assert AccountLaws.UserOk(db.accounts.users[user]);
    }
  }

  // ----- Invitations -----

  /** An invitation is made by someone who may invite, with the terms given, unused and not revoked. */
  lemma InvitationIsMade(db: DB, creator: Id, digest: Digest, prefix: string, title: string, maxUses: int,
                         expires: Option<Time>, now: Time)
    ensures var o := CreateInvitation(db, creator, digest, prefix, title, maxUses, expires, now);
      var a, after := db.accounts, o.After(db).accounts;
      && (o.Committed? <==>
            && |title| <= 64 && 0 as char !in title && 0 <= maxUses <= 10000
            && db.mode != Personal && Active(a, creator)
            && (a.users[creator].role == Owner || a.users[creator].canInvite)
            && forall i :: i in a.invitations ==> a.invitations[i].digest != digest)
      && (o.Committed? ==>
            && o.db == db.(accounts := a.(invitations := after.invitations))
            && o.value !in a.invitations && o.value >= 1
            && after.invitations.Keys == a.invitations.Keys + {o.value}
            && (forall i :: i in a.invitations ==> after.invitations[i] == a.invitations[i])
            && after.invitations[o.value] == Invitation(
                 digest := digest, prefix := prefix, title := title, createdBy := creator, createdAt := now,
                 maxUses := maxUses, uses := 0, expires := expires, revokedAt := None))
  {
  }

  /** An invitation of `creator` that could still let someone in. */
  predicate OpenOf(i: Invitation, creator: Id, now: Time) {
    && i.createdBy == creator && i.revokedAt == None
    && (i.expires.Some? ==> now < i.expires.value)
    && (i.maxUses != 0 ==> i.uses < i.maxUses)
  }

  /** The right to invite is given or taken as asked; taking it revokes exactly the open invitations. */
  lemma InvitePermissionIsSet(db: DB, user: Id, enabled: bool, now: Time)
    requires AccountLaws.AccountsOk(db.accounts)
    ensures var o := SetInvitePermission(db, user, enabled, now);
      var a, after := db.accounts, o.After(db).accounts;
      && (o.Committed? <==>
            user in a.users && a.users[user].role == Member && !(a.users[user].deleted && enabled))
      && (o.Committed? ==>
            && o.db == db.(accounts := a.(users := after.users, invitations := after.invitations))
            && OnlyUser(a.users, after.users, user)
            && after.users[user] == a.users[user].(canInvite := enabled)
            && after.invitations.Keys == a.invitations.Keys
            && forall i :: i in a.invitations ==>
                 after.invitations[i] == if !enabled && OpenOf(a.invitations[i], user, now)
                                         then a.invitations[i].(revokedAt := Some(now)) else a.invitations[i])
  {
    if user in db.accounts.users {
      assert AccountLaws.UserOk(db.accounts.users[user]);
    }
  }

  /** Its creator or an owner revokes an invitation, once; no other changes. */
  lemma InvitationIsRevoked(db: DB, id: Id, creator: Id, owner: bool, now: Time)
    ensures var o := RevokeInvitation(db, id, creator, owner, now);
      var before, after := db.accounts.invitations, o.After(db).accounts.invitations;
      && (o.Committed? <==> id in before && (owner || before[id].createdBy == creator))
      && (o.Committed? ==>
            && o.db == db.(accounts := db.accounts.(invitations := after))
            && after.Keys == before.Keys
            && after[id] == before[id].(revokedAt := if before[id].revokedAt.Some? then before[id].revokedAt
                                                    else Some(now))
            && forall i :: i in before && i != id ==> after[i] == before[i])
  {
    if id in db.accounts.invitations {
      var i := db.accounts.invitations[id];
      assert i == i.(revokedAt := i.revokedAt);
    }
  }

  // ----- Suspension -----

  /** An owner suspends an active member or restores a suspended one, and nobody else; the form must be
      current and confirm the name. */
  lemma ChangesMemberExactly(db: DB, owner: Id, member: Id, revision: int, action: MemberAction,
                             confirmation: string, now: Time)
    ensures var a := db.accounts;
      ChangeMember(db, owner, member, revision, action, confirmation, now).Committed? <==>
        && ActiveOwner(a, owner)
        && member in a.users && a.users[member].role == Member && !a.users[member].deleted
        && a.users[member].suspensionRevision == revision && a.users[member].name == confirmation
        && ((action == Suspend && !a.users[member].suspended) || (action == Restore && a.users[member].suspended))
  {
  }

  /** A suspension ends every session, reset link and invitation of the member; a restoration brings nothing
      of that back. Either is logged. */
  lemma MemberIsChanged(db: DB, owner: Id, member: Id, revision: int, action: MemberAction, confirmation: string,
                        now: Time)
    requires ChangeMember(db, owner, member, revision, action, confirmation, now).Committed?
    ensures var after := ChangeMember(db, owner, member, revision, action, confirmation, now).db;
      && after == db.(accounts := after.accounts, events := after.events)
      && OnlyUser(db.accounts.users, after.accounts.users, member)
      && after.accounts.users[member] == db.accounts.users[member].(
           suspended := action == Suspend, suspensionRevision := revision + 1)
      && (action == Restore ==> after.accounts == db.accounts.(users := after.accounts.users))
      && (action == Suspend ==>
            && SignedOut(db.accounts.sessions, after.accounts.sessions, member)
            && Unlinked(db.accounts.tokens, after.accounts.tokens, member)
            && after.accounts.invitations.Keys == db.accounts.invitations.Keys
            && forall i :: i in db.accounts.invitations ==>
                 var row := db.accounts.invitations[i];
                 after.accounts.invitations[i] ==
                   if row.createdBy == member && row.revokedAt == None then row.(revokedAt := Some(now)) else row)
      && owner in db.accounts.users
      && after.events == db.events + [Event(
           actor := Some(owner), actorName := db.accounts.users[owner].name,
           action := if action == Suspend then "suspend" else "restore",
           subject := db.accounts.users[member].name, post := None, titleReplaced := false, createdAt := now)]
  {
  }
}
