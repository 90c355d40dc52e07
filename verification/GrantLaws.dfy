/** What grants mean: a saved form is what the permission views then give, and no grant outlives its
    board, its group or its account. */
module GrantLaws {
  import opened Schema
  import opened Permissions
  import opened RoomOps
  import AccountLaws
  import AccountOps
  import Machine
  import PostOps

  // ----- A saved form is what the views give -----

  predicate Allows(groups: map<Id, Level>, g: Id, access: Access) {
    g in groups && groups[g] == Level(access)
  }

  /** What a form gives an account on a restricted board: its own level if the form names one, else the
      strongest its groups have there. */
  ghost function FormAccess(members: map<Id, Level>, groups: map<Id, Level>, memberships: set<(Id, Id)>,
          u: Id): Access {
    if u in members && members[u].Level? then members[u].access
    else if InGroupAllowed(groups, memberships, u, Write) then Write
    else if InGroupAllowed(groups, memberships, u, ReadOnly) then ReadOnly
    else NoAccess
  }

  predicate InGroupAllowed(groups: map<Id, Level>, memberships: set<(Id, Id)>, u: Id, access: Access) {
    exists m | m in memberships :: m.1 == u && Allows(groups, m.0, access)
  }

  lemma RegrantedOverride(r: Rooms, board: Id, members: map<Id, Level>, groups: map<Id, Level>, u: Id)
    ensures var rows := Regrant(r, board, members, groups).boardMembers;
      && ((board, u) in rows <==> u in members && members[u].Level?)
      && ((board, u) in rows ==> rows[(board, u)] == members[u].access)
  {
    assert (board, u).0 == board && (board, u).1 == u;
  }

  lemma RegrantedGroup(r: Rooms, board: Id, members: map<Id, Level>, groups: map<Id, Level>, g: Id)
    ensures var rows := Regrant(r, board, members, groups).boardGroups;
      && ((board, g) in rows <==> Allows(groups, g, ReadOnly) || Allows(groups, g, Write))
      && ((board, g) in rows ==> Allows(groups, g, rows[(board, g)]))
  {
    assert (board, g).0 == board && (board, g).1 == g;
  }

  /** The rows on a board are what a form's groups ask for. */
  ghost predicate RowsAre(r: Rooms, board: Id, groups: map<Id, Level>) {
    forall g: Id ::
      && ((board, g) in r.boardGroups <==> Allows(groups, g, ReadOnly) || Allows(groups, g, Write))
      && ((board, g) in r.boardGroups ==> Allows(groups, g, r.boardGroups[(board, g)]))
  }

  lemma GroupsAgree(r: Rooms, board: Id, groups: map<Id, Level>, u: Id)
    requires RowsAre(r, board, groups)
    ensures FormAccess(map[], groups, r.groupMembers, u)
         == match GroupAccess(r, board, u) case Some(access) => access case None => NoAccess
  {
    forall m | m in r.groupMembers
      ensures Grants(r, board, u, m) <==> m.1 == u && (Allows(groups, m.0, ReadOnly) || Allows(groups, m.0, Write))
      ensures Grants(r, board, u, m) ==> Allows(groups, m.0, r.boardGroups[(board, m.0)])
    {
      var g: Id := m.0;
      assert (board, g) in r.boardGroups <==> Allows(groups, g, ReadOnly) || Allows(groups, g, Write);
    }
  }

  lemma RegrantedAccess(r: Rooms, board: Id, members: map<Id, Level>, groups: map<Id, Level>, u: Id)
    requires !(u in members && members[u].Level?)
    ensures var after := Regrant(r, board, members, groups);
      FormAccess(members, groups, r.groupMembers, u)
      == match GroupAccess(after, board, u) case Some(access) => access case None => NoAccess
  {
    var after := Regrant(r, board, members, groups);
    forall g: Id
      ensures (board, g) in after.boardGroups <==> Allows(groups, g, ReadOnly) || Allows(groups, g, Write)
      ensures (board, g) in after.boardGroups ==> Allows(groups, g, after.boardGroups[(board, g)])
    {
      RegrantedGroup(r, board, members, groups, g);
    }
    GroupsAgree(after, board, groups, u);
  }

  /** Saving a board's form makes the board what the form says, with a revision never used for it
      before, and gives every member on it exactly the access the form spells out. */
  lemma SavedFormRules(db: DB, owner: Id, id: Id, revision: int, f: BoardForm, members: map<Id, Level>,
          groups: map<Id, Level>, u: Id)
    requires u != 0
    ensures var o := SaveBoard(db, owner, id, revision, f, members, groups);
      o.Committed? ==>
        && o.value in o.db.rooms.boards
        && var board := o.db.rooms.boards[o.value];
           && (board.category, board.name, board.description, board.restricted)
              == (f.category, f.name, f.description, f.restricted)
           && (id != 0 ==> o.value == id && id in db.rooms.boards
                           && board.revision == db.rooms.boards[id].revision + 1 == revision + 1)
           && (id == 0 ==> o.value == db.rooms.lastBoard + 1 && board.revision == 0)
           && BoardAccess(o.db.rooms, o.value, Reader(u, false)) ==
                if f.restricted then FormAccess(members, groups, db.rooms.groupMembers, u) else Write
  {
    var o := SaveBoard(db, owner, id, revision, f, members, groups);
    if o.Committed? {
      var saved := SaveDetails(db.rooms, id, revision, f).value.1;
      RegrantedOverride(saved, o.value, members, groups, u);
      if !(u in members && members[u].Level?) {
        RegrantedAccess(saved, o.value, members, groups, u);
      }
    }
  }

  lemma MembershipRows(group: Id, members: seq<Id>, u: Id)
    ensures (group, u) in Memberships(group, members) <==> u in members
  {
    if u in members {
      assert (group, u) in Memberships(group, members);
    }
  }

  /** Saving a group's form makes exactly the chosen accounts its members, and leaves the other groups'
      members and every grant alone. */
  lemma SavedGroupRules(db: DB, owner: Id, id: Id, revision: int, name: string, description: string,
          members: seq<Id>, u: Id)
    requires SaveGroup(db, owner, id, revision, name, description, members).Committed?
    ensures var o := SaveGroup(db, owner, id, revision, name, description, members);
      && ((o.value, u) in o.db.rooms.groupMembers <==> u in members)
      && (forall g: Id | g != o.value :: (g, u) in o.db.rooms.groupMembers <==> (g, u) in db.rooms.groupMembers)
      && o.db.rooms.boardGroups == db.rooms.boardGroups && o.db.rooms.boardMembers == db.rooms.boardMembers
  {
    var o := SaveGroup(db, owner, id, revision, name, description, members);
    MembershipRows(o.value, members, u);
    forall g: Id | g != o.value ensures (g, u) !in Memberships(o.value, members) {
      assert (g, u).0 == g;
    }
  }

  // ----- No grant outlives what it is about -----

  ghost predicate OverridesOk(r: Rooms, users: map<Id, User>) {
    forall k :: k in r.boardMembers ==> k.0 in r.boards && LiveMember(users, k.1)
  }

  ghost predicate MembershipsOk(r: Rooms, users: map<Id, User>) {
    forall m :: m in r.groupMembers ==> m.0 in r.groups && LiveMember(users, m.1)
  }

  ghost predicate GroupGrantsOk(r: Rooms) {
    forall k :: k in r.boardGroups ==> k.0 in r.boards && k.1 in r.groups && r.boardGroups[k] != NoAccess
  }

  /** Individual overrides and memberships are for live members, on boards and in groups that exist; group
      grants join a board and a group that exist. */
  ghost predicate GrantsOk(r: Rooms, users: map<Id, User>) {
    OverridesOk(r, users) && MembershipsOk(r, users) && GroupGrantsOk(r)
  }

  lemma RegrantKeeps(r: Rooms, users: map<Id, User>, board: Id, members: map<Id, Level>, groups: map<Id, Level>)
    requires GrantsOk(r, users) && board in r.boards
    requires MembersAllowed(users, members) && GroupsAllowed(r.groups, groups)
    ensures GrantsOk(Regrant(r, board, members, groups), users)
  {
  }

  lemma SaveBoardKeeps(db: DB, owner: Id, id: Id, revision: int, f: BoardForm, members: map<Id, Level>,
          groups: map<Id, Level>)
    requires GrantsOk(db.rooms, db.accounts.users)
    ensures GrantsOk(SaveBoard(db, owner, id, revision, f, members, groups).After(db).rooms, db.accounts.users)
  {
    var o := SaveBoard(db, owner, id, revision, f, members, groups);
    if o.Committed? {
      var saved := SaveDetails(db.rooms, id, revision, f).value.1;
      assert GrantsOk(saved, db.accounts.users);
      RegrantKeeps(saved, db.accounts.users, o.value, members, groups);
    }
  }

  lemma ChangeBoardKeeps(db: DB, owner: Id, board: Id, revision: int, action: BoardAction, confirmation: string)
    requires GrantsOk(db.rooms, db.accounts.users)
    ensures GrantsOk(ChangeBoard(db, owner, board, revision, action, confirmation).After(db).rooms, db.accounts.users)
  {
  }

  lemma SaveGroupKeeps(db: DB, owner: Id, id: Id, revision: int, name: string, description: string, members: seq<Id>)
    requires GrantsOk(db.rooms, db.accounts.users)
    ensures GrantsOk(SaveGroup(db, owner, id, revision, name, description, members).After(db).rooms, db.accounts.users)
  {
  }

  lemma DeleteGroupKeeps(db: DB, owner: Id, id: Id, revision: int, confirmation: string)
    requires GrantsOk(db.rooms, db.accounts.users)
    ensures GrantsOk(DeleteGroup(db, owner, id, revision, confirmation).After(db).rooms, db.accounts.users)
  {
  }

  lemma RoomStepKeeps(db: DB, a: Action)
    requires GrantsOk(db.rooms, db.accounts.users)
    ensures GrantsOk(Apply(db, a).rooms, db.accounts.users)
  {
    match a
    case DoSaveBoard(owner, id, revision, form, members, groups) =>
      SaveBoardKeeps(db, owner, id, revision, form, members, groups);
    case DoChangeBoard(owner, id, revision, change, confirmation) =>
      ChangeBoardKeeps(db, owner, id, revision, change, confirmation);
    case DoSaveGroup(owner, id, revision, name, description, chosen) =>
      SaveGroupKeeps(db, owner, id, revision, name, description, chosen);
    case DoDeleteGroup(owner, id, revision, confirmation) => DeleteGroupKeeps(db, owner, id, revision, confirmation);
  }

  lemma CarriedKeep(r: Rooms, users: map<Id, User>, users': map<Id, User>)
    requires GrantsOk(r, users) && AccountLaws.Carries(users, users')
    ensures GrantsOk(r, users')
  {
    forall u | LiveMember(users, u) ensures LiveMember(users', u) {
    }
  }

  lemma DeletionKeeps(r: Rooms, a: Accounts, user: Id)
    requires GrantsOk(r, a.users)
    ensures GrantsOk(PostOps.RoomsAfterDeletion(r, user), PostOps.UsersAfterDeletion(a, user))
  {
    var users := PostOps.UsersAfterDeletion(a, user);
    forall u | LiveMember(a.users, u) && u != user ensures LiveMember(users, u) {
    }
  }

  lemma StepKeepsGrants(db: DB, a: Machine.Action, now: Time)
    requires AccountLaws.AccountsOk(db.accounts) && GrantsOk(db.rooms, db.accounts.users)
    ensures var after := Machine.Apply(db, a, now); GrantsOk(after.rooms, after.accounts.users)
  {
    match a
    case SetMode(_) =>
    case OnAccounts(account) =>
      AccountOps.ApplyFrame(db, account, now);
      AccountLaws.AccountStepCarries(db, account, now);
      CarriedKeep(db.rooms, db.accounts.users, AccountOps.Apply(db, account, now).accounts.users);
    case OnRooms(room) =>
      ApplyFrame(db, room);
      RoomStepKeeps(db, room);
    case OnPosts(post) => PostOps.ApplyFrame(db, post, now);
    case DeleteAccount(user, name, hash) =>
      if PostOps.DeleteAccount(db, user, name, hash).Committed? {
        DeletionKeeps(db.rooms, db.accounts, user);
      }
  }

  lemma {:induction false} RunKeepsGrants(db: DB, run: Machine.Run)
    requires AccountLaws.AccountsOk(db.accounts) && GrantsOk(db.rooms, db.accounts.users)
    ensures var after := Machine.After(db, run); GrantsOk(after.rooms, after.accounts.users)
    decreases run
  {
    if run != [] {
      AccountLaws.StepKeepsAccounts(db, run[0].action, run[0].now);
      StepKeepsGrants(db, run[0].action, run[0].now);
      RunKeepsGrants(Machine.Apply(db, run[0].action, run[0].now), run[1..]);
    }
  }
}
