/** The statements of account deletion. */
module DeletionTransactions {
  import opened Schema
  import opened Permissions
  import opened Transactions
  import AccountOps
  import AccountTransactions
  import PostOps

  /** The account's images and words go; rows stay where other people's replies need them. */
  method ClearContent(tx: Tx, user: Id)
    modifies tx
    ensures tx.rows == old(tx.rows).(content := PostOps.ContentAfterDeletion(old(tx.rows.content), user))
  {
    ghost var before := tx.rows.content;
    var c := tx.rows.content;
    var attachments := map a | a in c.attachments &&
      !(c.attachments[a].post in c.posts && c.posts[c.attachments[a].post].author == user) &&
      c.attachments[a].image.credential != Some(user) :: c.attachments[a];
    c := c.(attachments := attachments);
    var posts := map p | p in c.posts ::
      if c.posts[p].author == user && !c.posts[p].removed
      then c.posts[p].(body := PostOps.DELETED_MESSAGE, revision := c.posts[p].revision + 1) else c.posts[p];
    c := c.(posts := posts);
    var topics := map t | t in c.topics ::
      if c.topics[t].author == user then c.topics[t].(title := PostOps.PLAIN_TITLE) else c.topics[t];
    c := c.(topics := topics);
    assert c == PostOps.ContentAfterDeletion(before, user) by {
      var d := PostOps.ContentAfterDeletion(before, user);
      assert c.attachments == d.attachments && c.posts == d.posts && c.topics == d.topics;
    }
    tx.rows := tx.rows.(content := c);
  }

  method ClearAccess(tx: Tx, user: Id)
    modifies tx
    ensures tx.rows == old(tx.rows).(rooms := PostOps.RoomsAfterDeletion(old(tx.rows.rooms), user))
  {
    var r := tx.rows.rooms;
    tx.rows := tx.rows.(rooms := r.(boardMembers := PostOps.UsersRows(r.boardMembers, user)));
    var members := set m | m in r.groupMembers && m.1 != user;
    tx.rows := tx.rows.(rooms := tx.rows.rooms.(groupMembers := members));
  }

  /** Nobody is left invited through a link that is gone, or by the account. */
  ghost function Unlinked(a: Accounts, user: Id): map<Id, User> {
    map u | u in a.users ::
      var row := a.users[u];
      var unlinked := if row.invitationId.Some? && row.invitationId.value in a.invitations
                         && a.invitations[row.invitationId.value].createdBy == user
                      then row.(invitationId := None) else row;
      if row.invitedBy == Some(user) then unlinked.(invitedBy := None, invitedByName := "") else unlinked
  }

  lemma BlankedIs(a: Accounts, user: Id)
    requires user in a.users
    ensures Unlinked(a, user)[user := PostOps.Blanked(a.users[user], user)] == PostOps.UsersAfterDeletion(a, user)
  {
  }

  lemma NamesStay(a: Accounts, user: Id, name: string)
    ensures AccountOps.NameTaken(Unlinked(a, user) - {user}, name) == AccountOps.NameTaken(a.users - {user}, name)
  {
    var before, after := a.users - {user}, Unlinked(a, user) - {user};
    assert before.Keys == after.Keys && forall u | u in before :: after[u].name == before[u].name;
    assert forall u | u in before :: Folded(after[u].name) == Folded(before[u].name);
  }

  /** DELETE FROM invitations WHERE created_by = ?, and what refers to them. */
  method ClearInvitations(tx: Tx, user: Id)
    modifies tx
    ensures var a := old(tx.rows.accounts);
      tx.rows == AccountOps.WithAccounts(old(tx.rows), a.(
        users := Unlinked(a, user),
        invitations := map i | i in a.invitations && a.invitations[i].createdBy != user :: a.invitations[i]))
  {
    ghost var before := tx.rows.accounts;
    var a := tx.rows.accounts;
    var invitations := map i | i in a.invitations && a.invitations[i].createdBy != user :: a.invitations[i];
    var users := map u | u in a.users ::
      if a.users[u].invitationId.Some? && a.users[u].invitationId.value in a.invitations
         && a.invitations[a.users[u].invitationId.value].createdBy == user
      then a.users[u].(invitationId := None) else a.users[u];
    a := a.(users := users, invitations := invitations);
    users := map u | u in a.users ::
      if a.users[u].invitedBy == Some(user) then a.users[u].(invitedBy := None, invitedByName := "") else a.users[u];
    a := a.(users := users);
    assert a.users == Unlinked(before, user);
    tx.rows := AccountOps.WithAccounts(tx.rows, a);
  }

  method ClearEvents(tx: Tx, user: Id, name: string)
    modifies tx
    ensures tx.rows == old(tx.rows).(events := PostOps.EventsAfterDeletion(old(tx.rows.events), user, name))
  {
    var e := tx.rows.events;
    var acted := seq(|e|, i requires 0 <= i < |e| =>
      if e[i].actor == Some(user) then e[i].(actorName := PostOps.FORMER) else e[i]);
    var about := seq(|e|, i requires 0 <= i < |e| =>
      if acted[i].subject == name then acted[i].(subject := PostOps.FORMER) else acted[i]);
    assert about == PostOps.EventsAfterDeletion(e, user, name);
    tx.rows := tx.rows.(events := about);
  }

  method ClearAccountArtifacts(tx: Tx, user: Id, name: string)
    modifies tx
    ensures var db := old(tx.rows);
      tx.rows == DB(db.mode,
        Accounts(Unlinked(db.accounts, user), AccountOps.SessionsWithout(db.accounts.sessions, user),
                 AccountOps.TokensWithout(db.accounts.tokens, user),
                 PostOps.AccountsAfterDeletion(db.accounts, user).invitations),
        PostOps.RoomsAfterDeletion(db.rooms, user), PostOps.ContentAfterDeletion(db.content, user),
        PostOps.EventsAfterDeletion(db.events, user, name))
  {
    ClearContent(tx, user);
    AccountTransactions.SignOut(tx, user);
    ClearAccess(tx, user);
    ClearInvitations(tx, user);
    ClearEvents(tx, user, name);
  }

  // ----- The transactions -----

  method DeleteAccount(tx: Tx, user: Id, name: string, hash: Digest) returns (r: Result<()>)
    modifies tx
    ensures Does(old(tx.rows), tx.rows, r, PostOps.DeleteAccount(old(tx.rows), user, name, hash))
  {
    var err := PostOps.CheckDeletion(tx.rows.accounts, user, name, hash);
    if err.Some? {
      return Err(err.value);
    }
    ghost var before := tx.rows.accounts;
    ClearAccountArtifacts(tx, user, name);
    var row := PostOps.Blanked(tx.rows.accounts.users[user], user);
    NamesStay(before, user, row.name);
    if AccountOps.NameTaken(tx.rows.accounts.users - {user}, row.name) || !AccountOps.ValidName(row.name) {
      return Err(Constraint);
    }
    BlankedIs(before, user);
    tx.rows := AccountOps.WithUsers(tx.rows, tx.rows.accounts.users[user := row]);
    return Ok(());
  }
}
