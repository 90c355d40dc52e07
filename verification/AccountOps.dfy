/** Accounts, sessions, reset links and invitations: the transactions of store.go, reset_store.go,
    invitation_store.go and community_store.go on those tables. */
module AccountOps {
  import opened Schema
  import opened Permissions

  // ----- Single statements -----

  function SessionsWithout(sessions: map<Digest, Session>, user: Id): map<Digest, Session> {
    map h | h in sessions && sessions[h].user != user :: sessions[h]
  }

  function LiveSessions(sessions: map<Digest, Session>, now: Time): map<Digest, Session> {
    map h | h in sessions && now < sessions[h].expires :: sessions[h]
  }

  function TokensWithout(tokens: map<Digest, Token>, user: Id): map<Digest, Token> {
    map h | h in tokens && tokens[h].user != user :: tokens[h]
  }

  function RevokeAllOf(invitations: map<Id, Invitation>, creator: Id, now: Time): map<Id, Invitation> {
    map i | i in invitations ::
      if invitations[i].createdBy == creator && invitations[i].revokedAt == None
      then invitations[i].(revokedAt := Some(now)) else invitations[i]
  }

  predicate HasUses(i: Invitation) {
    i.maxUses == 0 || i.uses < i.maxUses
  }

  predicate Expired(i: Invitation, now: Time) {
    i.expires.Some? && i.expires.value <= now
  }

  /** The invitation could still be redeemed, as far as its own row goes. */
  predicate Redeemable(i: Invitation, now: Time) {
    i.revokedAt == None && !Expired(i, now) && HasUses(i)
  }

  function RevokeOpenOf(invitations: map<Id, Invitation>, creator: Id, now: Time): map<Id, Invitation> {
    map i | i in invitations ::
      if invitations[i].createdBy == creator && Redeemable(invitations[i], now)
      then invitations[i].(revokedAt := Some(now)) else invitations[i]
  }

  predicate NameTaken(users: map<Id, User>, name: string) {
    exists u | u in users :: Folded(users[u].name) == Folded(name)
  }

  predicate ValidName(name: string) {
    3 <= |name| <= 24
  }

  function NewUser(name: string, hash: Digest, role: Role, now: Time): User {
    User(name, hash, role, now, false, None, "", None, "", false, 0, false)
  }

  function WithAccounts(db: DB, a: Accounts): DB {
    db.(accounts := a)
  }

  function WithUsers(db: DB, users: map<Id, User>): DB {
    db.(accounts := db.accounts.(users := users))
  }

  // ----- Creating accounts -----

  /** INSERT INTO users ... ON CONFLICT(username) DO NOTHING, with the row's CHECK constraint. */
  function InsertUser(a: Accounts, user: User): Result<Id> {
    if !ValidName(user.name) then Err(Constraint)
    else if NameTaken(a.users, user.name) then Err(UsernameTaken)
    else Ok(NextId(a.users.Keys))
  }

  function CreateAccount(db: DB, name: string, hash: Digest, role: Role, now: Time): Outcome<Id> {
    var user := NewUser(name, hash, role, now);
    match InsertUser(db.accounts, user)
    case Err(e) => RolledBack(e)
    case Ok(id) => Committed(WithUsers(db, db.accounts.users[id := user]), id)
  }

  /** The invitation a digest names, if its creator may still invite people. */
  predicate Names(a: Accounts, digest: Digest, i: Id) {
    && i in a.invitations
    && a.invitations[i].digest == digest
    && a.invitations[i].createdBy in a.users
    && var creator := a.users[a.invitations[i].createdBy];
       !creator.suspended && (creator.role == Owner || creator.canInvite)
  }

  /** `digest` is empty when no invitation was given. */
  ghost function Register(db: DB, name: string, hash: Digest, digest: Digest, now: Time): Outcome<Id> {
    if db.mode == Personal then RolledBack(PersonalMode)
    else if digest == "" && db.mode == Mode.Open then CreateAccount(db, name, hash, Member, now)
    else if i :| Names(db.accounts, digest, i) then
      var invite := db.accounts.invitations[i];
      if !Redeemable(invite, now) then RolledBack(BadInvitation)
      else
        var creator := db.accounts.users[invite.createdBy];
        var user := NewUser(name, hash, Member, now).(
          invitedBy := Some(invite.createdBy), invitedByName := creator.name, invitationId := Some(i));
        match InsertUser(db.accounts, user)
        case Err(e) => RolledBack(e)
        case Ok(id) =>
          Committed(WithAccounts(db, db.accounts.(
            users := db.accounts.users[id := user],
            invitations := db.accounts.invitations[i := invite.(uses := invite.uses + 1)])), id)
    else RolledBack(BadInvitation)
  }

  // ----- Sessions -----

  ghost function NewSession(db: DB, digest: Digest, user: Id, expires: Time, now: Time): Outcome<()> {
    match RequireActive(db.accounts, user)
    case Some(e) => RolledBack(e)
    case None =>
      var live := LiveSessions(db.accounts.sessions, now);
      if digest in live then RolledBack(Constraint)
      else Committed(WithAccounts(db, db.accounts.(sessions := live[digest := Session(user, expires)])), ())
  }

  function DeleteSession(db: DB, digest: Digest): Outcome<()> {
    Committed(WithAccounts(db, db.accounts.(sessions := db.accounts.sessions - {digest})), ())
  }

  /** The account a session cookie signs in. */
  predicate SignsIn(a: Accounts, digest: Digest, now: Time, user: Id) {
    && digest in a.sessions
    && a.sessions[digest].user == user
    && now < a.sessions[digest].expires
    && user in a.users && !a.users[user].suspended
  }

  // ----- Reset links and passwords -----

  ghost function CreateAuthToken(db: DB, user: Id, digest: Digest, expires: Time, now: Time): Outcome<()> {
    match RequireActive(db.accounts, user)
    case Some(e) => RolledBack(e)
    case None =>
      var others := TokensWithout(db.accounts.tokens, user);
      if digest in others then RolledBack(Constraint)
      else Committed(WithAccounts(db, db.accounts.(tokens := others[digest := Token(user, now, expires, None)])), ())
  }

  function DeleteAuthTokens(db: DB, user: Id): Outcome<()> {
    Committed(WithAccounts(db, db.accounts.(tokens := TokensWithout(db.accounts.tokens, user))), ())
  }

  predicate TokenLive(a: Accounts, digest: Digest, at: Time) {
    && digest in a.tokens
    && a.tokens[digest].usedAt == None
    && at < a.tokens[digest].expires
  }

  /** AuthTokenValid: whether the reset form is shown, and for whom. */
  predicate AuthTokenValid(a: Accounts, digest: Digest, at: Time) {
    && TokenLive(a, digest, at)
    && a.tokens[digest].user in a.users
    && !a.users[a.tokens[digest].user].suspended
  }

  /** The CHECK constraint that keeps a deleted account's row blank. */
  predicate RowAllowed(u: User) {
    u.deleted ==> u.role == Member && u.suspended && u.hash == "" && u.email == "" && !u.canInvite
  }

  /** Replaces a password and ends the account's sessions and reset links. */
  ghost function SetPassword(db: DB, user: Id, hash: Digest): Outcome<()> {
    if user !in db.accounts.users then RolledBack(NoRows)
    else
      var row := db.accounts.users[user].(hash := hash);
      if !RowAllowed(row) then RolledBack(Constraint)
      else Committed(WithAccounts(db, db.accounts.(
        users := db.accounts.users[user := row],
        sessions := SessionsWithout(db.accounts.sessions, user),
        tokens := TokensWithout(db.accounts.tokens, user))), ())
  }

  ghost function ResetPassword(db: DB, digest: Digest, hash: Digest, at: Time): Outcome<Id> {
    if !TokenLive(db.accounts, digest, at) then RolledBack(BadToken)
    else
      var user := db.accounts.tokens[digest].user;
      match RequireActive(db.accounts, user)
      case Some(Suspended) => RolledBack(BadToken)
      case Some(e) => RolledBack(e)
      case None =>
        match SetPassword(db, user, hash)
        case RolledBack(e) => RolledBack(e)
        case Committed(changed, _) => Committed(changed, user)
  }

  function SetEmail(db: DB, user: Id, email: string): Outcome<()> {
    if user !in db.accounts.users then RolledBack(NoRows)
    else
      var row := db.accounts.users[user].(email := email);
      if !RowAllowed(row) then RolledBack(Constraint)
      else Committed(WithUsers(db, db.accounts.users[user := row]), ())
  }

  // ----- Invitations -----

  predicate MayInvite(u: User) {
    !u.suspended && (u.role == Owner || u.canInvite)
  }

  /** A digest names one invitation at most. */
  ghost predicate DigestsDiffer(invitations: map<Id, Invitation>) {
    forall i, j :: i in invitations && j in invitations && invitations[i].digest == invitations[j].digest ==> i == j
  }

  predicate DigestTaken(invitations: map<Id, Invitation>, digest: Digest) {
    exists i | i in invitations :: invitations[i].digest == digest
  }

  function CreateInvitation(db: DB, creator: Id, digest: Digest, prefix: string, title: string,
                            maxUses: int, expires: Option<Time>, now: Time): Outcome<Id>
  {
    var a := db.accounts;
    if !ValidText(title, 0, 64) || !(0 <= maxUses <= 10000) then RolledBack(BadInvitationOptions)
    else if db.mode == Personal || creator !in a.users || !MayInvite(a.users[creator]) then RolledBack(PersonalMode)
    else if DigestTaken(a.invitations, digest) then RolledBack(Constraint)
    else
      var id := NextId(a.invitations.Keys);
      Committed(WithAccounts(db, a.(invitations := a.invitations[id :=
        Invitation(digest, prefix, title, creator, now, maxUses, 0, expires, None)])), id)
  }

  ghost function SetInvitePermission(db: DB, user: Id, enabled: bool, now: Time): Outcome<()> {
    var a := db.accounts;
    if user !in a.users || a.users[user].role == Owner then RolledBack(NoRows)
    else
      var row := a.users[user].(canInvite := enabled);
      if !RowAllowed(row) then RolledBack(Constraint)
      else Committed(WithAccounts(db, a.(
        users := a.users[user := row],
        invitations := if enabled then a.invitations else RevokeOpenOf(a.invitations, user, now))), ())
  }

  /** RevokeInvitationByCreator; an owner may revoke anyone's. */
  function RevokeInvitation(db: DB, id: Id, creator: Id, owner: bool, now: Time): Outcome<()> {
    var invitations := db.accounts.invitations;
    if id !in invitations || (!owner && invitations[id].createdBy != creator) then RolledBack(NoRows)
    else
      var i := invitations[id];
      var row := if i.revokedAt == None then i.(revokedAt := Some(now)) else i;
      Committed(WithAccounts(db, db.accounts.(invitations := invitations[id := row])), ())
  }

  // ----- Suspension -----

  datatype MemberAction = Suspend | Restore | OtherMemberAction

  /** The entry an owner's action leaves in the activity log. */
  function OwnerEvent(db: DB, owner: Id, action: string, subject: string, post: Option<Id>, titleReplaced: bool,
          now: Time): Event
    requires owner in db.accounts.users
  {
    Event(Some(owner), db.accounts.users[owner].name, action, subject, post, titleReplaced, now)
  }

  ghost function ChangeMember(db: DB, owner: Id, member: Id, revision: int, action: MemberAction,
                              confirmation: string, now: Time): Outcome<()>
  {
    var a := db.accounts;
    match RequireOwner(a, owner)
    case Some(e) => RolledBack(e)
    case None =>
      if member !in a.users || a.users[member].deleted then RolledBack(NoRows)
      else
        var m := a.users[member];
        if m.role != Member then RolledBack(Error.MemberAction)
        else if action == OtherMemberAction || m.suspensionRevision != revision || m.suspended == (action == Suspend)
          then RolledBack(CommunityConflict)
        else if confirmation != m.name then RolledBack(MemberConfirmation)
        else
          var row := m.(suspended := action == Suspend, suspensionRevision := m.suspensionRevision + 1);
          var users := a.users[member := row];
          var changed :=
            if action == Suspend then
              Accounts(users, SessionsWithout(a.sessions, member), TokensWithout(a.tokens, member),
                       RevokeAllOf(a.invitations, member, now))
            else a.(users := users);
          var kind := if action == Suspend then "suspend" else "restore";
          var event := OwnerEvent(db, owner, kind, m.name, None, false, now);
          Committed(db.(accounts := changed, events := db.events + [event]), ())
  }

  // ----- All of them -----

  datatype Action =
    | DoCreateUser(name: string, hash: Digest)
    | DoCreateOwner(name: string, hash: Digest)
    | DoRegister(name: string, hash: Digest, digest: Digest)
    | DoNewSession(digest: Digest, user: Id, expires: Time)
    | DoDeleteSession(digest: Digest)
    | DoCreateAuthToken(user: Id, digest: Digest, expires: Time)
    | DoDeleteAuthTokens(user: Id)
    | DoSetPassword(user: Id, hash: Digest)
    | DoResetPassword(digest: Digest, hash: Digest)
    | DoSetEmail(user: Id, email: string)
    | DoCreateInvitation(creator: Id, digest: Digest, prefix: string, title: string, maxUses: int, expiry: Option<Time>)
    | DoSetInvitePermission(user: Id, enabled: bool)
    | DoRevokeInvitation(id: Id, creator: Id, asOwner: bool)
    | DoChangeMember(owner: Id, member: Id, revision: int, change: MemberAction, confirmation: string)

  ghost function Apply(db: DB, a: Action, now: Time): DB {
    match a
    case DoCreateUser(name, hash) => CreateAccount(db, name, hash, Member, now).After(db)
    case DoCreateOwner(name, hash) => CreateAccount(db, name, hash, Owner, now).After(db)
    case DoRegister(name, hash, digest) => Register(db, name, hash, digest, now).After(db)
    case DoNewSession(digest, user, expires) => NewSession(db, digest, user, expires, now).After(db)
    case DoDeleteSession(digest) => DeleteSession(db, digest).After(db)
    case DoCreateAuthToken(user, digest, expires) => CreateAuthToken(db, user, digest, expires, now).After(db)
    case DoDeleteAuthTokens(user) => DeleteAuthTokens(db, user).After(db)
    case DoSetPassword(user, hash) => SetPassword(db, user, hash).After(db)
    case DoResetPassword(digest, hash) => ResetPassword(db, digest, hash, now).After(db)
    case DoSetEmail(user, email) => SetEmail(db, user, email).After(db)
    case DoCreateInvitation(creator, digest, prefix, title, maxUses, expiry) =>
      CreateInvitation(db, creator, digest, prefix, title, maxUses, expiry, now).After(db)
    case DoSetInvitePermission(user, enabled) => SetInvitePermission(db, user, enabled, now).After(db)
    case DoRevokeInvitation(id, creator, asOwner) => RevokeInvitation(db, id, creator, asOwner, now).After(db)
    case DoChangeMember(owner, member, revision, change, confirmation) =>
      ChangeMember(db, owner, member, revision, change, confirmation, now).After(db)
  }

  /** None of these transactions touches anything but accounts and the activity log. */
  lemma ApplyFrame(db: DB, a: Action, now: Time)
    ensures var after := Apply(db, a, now);
      after == DB(db.mode, after.accounts, db.rooms, db.content, after.events)
  {
  }
}
