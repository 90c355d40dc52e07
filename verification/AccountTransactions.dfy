/** The statements of the transactions on accounts, sessions, reset links and invitations. */
module AccountTransactions {
  import opened Schema
  import opened Permissions
  import opened Transactions
  import AccountOps

  /** INSERT INTO users ... ON CONFLICT(username) DO NOTHING. */
  method InsertUser(tx: Tx, user: User) returns (r: Result<Id>)
    modifies tx
    ensures r == AccountOps.InsertUser(old(tx.rows.accounts), user)
    ensures r.Ok? ==> tx.rows == AccountOps.WithUsers(old(tx.rows), old(tx.rows.accounts.users)[r.value := user])
    ensures r.Err? ==> tx.rows == old(tx.rows)
  {
    r := AccountOps.InsertUser(tx.rows.accounts, user);
    if r.Ok? {
      tx.rows := AccountOps.WithUsers(tx.rows, tx.rows.accounts.users[r.value := user]);
    }
  }

  /** Finds the invitation a digest names, if its creator may still invite people, and takes one use of
      it, if it has one left. */
  method RedeemInvitation(tx: Tx, digest: Digest, now: Time) returns (found: Option<Id>)
    requires AccountOps.DigestsDiffer(tx.rows.accounts.invitations)
    modifies tx
    ensures var a := old(tx.rows.accounts);
      match found
      case None => forall i :: AccountOps.Names(a, digest, i) ==> !AccountOps.Redeemable(a.invitations[i], now)
      case Some(i) =>
        && AccountOps.Names(a, digest, i) && AccountOps.Redeemable(a.invitations[i], now)
        && (forall j :: AccountOps.Names(a, digest, j) ==> i == j)
        && tx.rows == AccountOps.WithAccounts(old(tx.rows), a.(invitations :=
             a.invitations[i := a.invitations[i].(uses := a.invitations[i].uses + 1)]))
  {
    var a := tx.rows.accounts;
    if i :| i in a.invitations && AccountOps.Names(a, digest, i) {
      var row := a.invitations[i];
      if !AccountOps.Redeemable(row, now) {
        return None;
      }
      tx.rows := AccountOps.WithAccounts(tx.rows, a.(invitations := a.invitations[i := row.(uses := row.uses + 1)]));
      return Some(i);
    }
    return None;
  }

  /** DELETE FROM sessions WHERE user_id = ?, and the same for reset links. */
  method SignOut(tx: Tx, user: Id)
    modifies tx
    ensures var a := old(tx.rows.accounts);
      tx.rows == AccountOps.WithAccounts(old(tx.rows), a.(
        sessions := AccountOps.SessionsWithout(a.sessions, user), tokens := AccountOps.TokensWithout(a.tokens, user)))
  {
    var a := tx.rows.accounts;
    tx.rows := AccountOps.WithAccounts(tx.rows, a.(sessions := AccountOps.SessionsWithout(a.sessions, user)));
    tx.rows := AccountOps.WithAccounts(tx.rows, tx.rows.accounts.(tokens := AccountOps.TokensWithout(a.tokens, user)));
  }

  method ReplacePassword(tx: Tx, user: Id, hash: Digest) returns (err: Option<Error>)
    modifies tx
    ensures match AccountOps.SetPassword(old(tx.rows), user, hash)
      case RolledBack(e) => err == Some(e)
      case Committed(rows, _) => err == None && tx.rows == rows
  {
    if user !in tx.rows.accounts.users {
      return Some(NoRows);
    }
    var row := tx.rows.accounts.users[user].(hash := hash);
    if !AccountOps.RowAllowed(row) {
      return Some(Constraint);
    }
    tx.rows := AccountOps.WithUsers(tx.rows, tx.rows.accounts.users[user := row]);
    SignOut(tx, user);
    return None;
  }

  /** Marks a reset link used, and says whose it was. */
  method ConsumeAuthToken(tx: Tx, digest: Digest, at: Time) returns (r: Result<Id>)
    modifies tx
    ensures var a := old(tx.rows.accounts);
      if !AccountOps.TokenLive(a, digest, at) then r == Err(BadToken)
      else match RequireActive(a, a.tokens[digest].user)
        case Some(Suspended) => r == Err(BadToken)
        case Some(e) => r == Err(e)
        case None =>
          && r == Ok(a.tokens[digest].user)
          && tx.rows == AccountOps.WithAccounts(old(tx.rows), a.(tokens :=
               a.tokens[digest := a.tokens[digest].(usedAt := Some(at))]))
  {
    var a := tx.rows.accounts;
    if digest !in a.tokens {
      return Err(BadToken);
    }
    var token := a.tokens[digest];
    if token.usedAt.Some? || token.expires <= at {
      return Err(BadToken);
    }
    var inactive := RequireActive(a, token.user);
    if inactive == Some(Suspended) {
      return Err(BadToken);
    }
    if inactive.Some? {
      return Err(inactive.value);
    }
    tx.rows := AccountOps.WithAccounts(tx.rows, a.(tokens := a.tokens[digest := token.(usedAt := Some(at))]));
    return Ok(token.user);
  }

  /** Marking a link used is not seen outside the transaction: changing the password deletes it. */
  lemma UsedLinkGoes(db: DB, digest: Digest, hash: Digest, at: Time)
    requires digest in db.accounts.tokens
    ensures var marked := AccountOps.WithAccounts(db, db.accounts.(tokens :=
              db.accounts.tokens[digest := db.accounts.tokens[digest].(usedAt := Some(at))]));
      AccountOps.SetPassword(marked, db.accounts.tokens[digest].user, hash)
      == AccountOps.SetPassword(db, db.accounts.tokens[digest].user, hash)
  {
    var token := db.accounts.tokens[digest];
    var marked := db.accounts.tokens[digest := token.(usedAt := Some(at))];
    assert AccountOps.TokensWithout(marked, token.user) == AccountOps.TokensWithout(db.accounts.tokens, token.user);
  }

  // ----- The transactions -----

  method Register(tx: Tx, name: string, hash: Digest, digest: Digest, now: Time) returns (r: Result<Id>)
    requires AccountOps.DigestsDiffer(tx.rows.accounts.invitations)
    modifies tx
    ensures Does(old(tx.rows), tx.rows, r, AccountOps.Register(old(tx.rows), name, hash, digest, now))
  {
    if tx.rows.mode == Personal {
      return Err(PersonalMode);
    }
    var user := AccountOps.NewUser(name, hash, Member, now);
    if digest != "" || tx.rows.mode != Mode.Open {
      var i := RedeemInvitation(tx, digest, now);
      if i == None {
        return Err(BadInvitation);
      }
      var invite := tx.rows.accounts.invitations[i.value];
      user := user.(invitedBy := Some(invite.createdBy), invitedByName := tx.rows.accounts.users[invite.createdBy].name,
                    invitationId := i);
    }
    r := InsertUser(tx, user);
    if r.Err? {
      return r;
    }
  }

  method NewSession(tx: Tx, digest: Digest, user: Id, expires: Time, now: Time) returns (r: Result<()>)
    modifies tx
    ensures Does(old(tx.rows), tx.rows, r, AccountOps.NewSession(old(tx.rows), digest, user, expires, now))
  {
    var err := RequireActive(tx.rows.accounts, user);
    if err.Some? {
      return Err(err.value);
    }
    var a := tx.rows.accounts;
    a := a.(sessions := AccountOps.LiveSessions(a.sessions, now));
    if digest in a.sessions {
      return Err(Constraint);
    }
    a := a.(sessions := a.sessions[digest := Session(user, expires)]);
    tx.rows := AccountOps.WithAccounts(tx.rows, a);
    return Ok(());
  }

  method CreateAuthToken(tx: Tx, user: Id, digest: Digest, expires: Time, now: Time) returns (r: Result<()>)
    modifies tx
    ensures Does(old(tx.rows), tx.rows, r, AccountOps.CreateAuthToken(old(tx.rows), user, digest, expires, now))
  {
    var err := RequireActive(tx.rows.accounts, user);
    if err.Some? {
      return Err(err.value);
    }
    var a := tx.rows.accounts;
    a := a.(tokens := AccountOps.TokensWithout(a.tokens, user));
    if digest in a.tokens {
      return Err(Constraint);
    }
    a := a.(tokens := a.tokens[digest := Token(user, now, expires, None)]);
    tx.rows := AccountOps.WithAccounts(tx.rows, a);
    return Ok(());
  }

  method SetPassword(tx: Tx, user: Id, hash: Digest) returns (r: Result<()>)
    modifies tx
    ensures Does(old(tx.rows), tx.rows, r, AccountOps.SetPassword(old(tx.rows), user, hash))
  {
    var err := ReplacePassword(tx, user, hash);
    if err.Some? {
      return Err(err.value);
    }
    return Ok(());
  }

  method ResetPassword(tx: Tx, digest: Digest, hash: Digest, at: Time) returns (r: Result<Id>)
    modifies tx
    ensures Does(old(tx.rows), tx.rows, r, AccountOps.ResetPassword(old(tx.rows), digest, hash, at))
  {
    ghost var before := tx.rows;
    r := ConsumeAuthToken(tx, digest, at);
    if r.Err? {
      return r;
    }
    UsedLinkGoes(before, digest, hash, at);
    var err := ReplacePassword(tx, r.value, hash);
    if err.Some? {
      return Err(err.value);
    }
  }

  method SetInvitePermission(tx: Tx, user: Id, enabled: bool, now: Time) returns (r: Result<()>)
    modifies tx
    ensures Does(old(tx.rows), tx.rows, r, AccountOps.SetInvitePermission(old(tx.rows), user, enabled, now))
  {
    var a := tx.rows.accounts;
    if user !in a.users || a.users[user].role == Owner {
      return Err(NoRows);
    }
    var row := a.users[user].(canInvite := enabled);
    if !AccountOps.RowAllowed(row) {
      return Err(Constraint);
    }
    a := a.(users := a.users[user := row]);
    if !enabled {
      a := a.(invitations := AccountOps.RevokeOpenOf(a.invitations, user, now));
    }
    tx.rows := AccountOps.WithAccounts(tx.rows, a);
    return Ok(());
  }

  method ChangeMember(tx: Tx, owner: Id, member: Id, revision: int, action: AccountOps.MemberAction,
                      confirmation: string, now: Time) returns (r: Result<()>)
    modifies tx
    ensures Does(old(tx.rows), tx.rows, r,
      AccountOps.ChangeMember(old(tx.rows), owner, member, revision, action, confirmation, now))
  {
    var err := RequireOwner(tx.rows.accounts, owner);
    if err.Some? {
      return Err(err.value);
    }
    var a := tx.rows.accounts;
    if member !in a.users || a.users[member].deleted {
      return Err(NoRows);
    }
    var m := a.users[member];
    if m.role != Member {
      return Err(Error.MemberAction);
    }
    var suspend := action == AccountOps.Suspend;
    if action == AccountOps.OtherMemberAction || m.suspensionRevision != revision || m.suspended == suspend {
      return Err(CommunityConflict);
    }
    if confirmation != m.name {
      return Err(MemberConfirmation);
    }
    var kind := if suspend then "suspend" else "restore";
    var event := AccountOps.OwnerEvent(tx.rows, owner, kind, m.name, None, false, now);
    var row := m.(suspended := suspend, suspensionRevision := m.suspensionRevision + 1);
    tx.rows := AccountOps.WithUsers(tx.rows, a.users[member := row]);
    if suspend {
      SignOut(tx, member);
      tx.rows := AccountOps.WithAccounts(tx.rows, tx.rows.accounts.(invitations :=
        AccountOps.RevokeAllOf(tx.rows.accounts.invitations, member, now)));
    }
    tx.rows := tx.rows.(events := tx.rows.events + [event]);
    return Ok(());
  }
}
