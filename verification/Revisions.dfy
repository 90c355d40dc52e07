/** Revisions of boards and groups are sound and never recur, so a form that carries an old one can
    never overwrite a change it did not see. */
module Revisions {
  import opened Schema
  import opened Permissions
  import opened RoomOps
  import AccountOps
  import AccountLaws
  import PostOps
  import Machine

  ghost predicate Live(users: map<Id, User>, u: Id) {
    u in users && !users[u].deleted
  }

  /** Accounts that are there, and not deleted, both before and after. */
  ghost predicate LiveThroughout(before: map<Id, User>, after: map<Id, User>, u: Id) {
    Live(before, u) && Live(after, u)
  }

  /** What the permission views give account `u` on a board. */
  ghost function AccessOf(r: Rooms, users: map<Id, User>, board: Id, u: Id): Access
    requires board in r.boards && u in users
  {
    BoardAccess(r, board, Reader(u, users[u].role == Owner))
  }

  /** The rows one board has in a table. */
  ghost predicate SameRows(rows: map<(Id, Id), Access>, rows': map<(Id, Id), Access>, b: Id) {
    forall x: Id :: ((b, x) in rows <==> (b, x) in rows') && ((b, x) in rows ==> rows[(b, x)] == rows'[(b, x)])
  }

  /** The individual overrides on a board, for accounts live at both times. */
  ghost predicate SameOverrides(r: Rooms, users: map<Id, User>, r': Rooms, users': map<Id, User>, b: Id) {
    forall u :: LiveThroughout(users, users', u) ==>
      && ((b, u) in r.boardMembers <==> (b, u) in r'.boardMembers)
      && ((b, u) in r.boardMembers ==> r.boardMembers[(b, u)] == r'.boardMembers[(b, u)])
  }

  /** The same board to everyone: one row, one list of group grants, and the same override and the same
      access for every account live at both times. So it is the same form to the owner as well, whether
      the board is restricted or not. */
  ghost predicate SameBoard(r: Rooms, users: map<Id, User>, r': Rooms, users': map<Id, User>, b: Id)
    requires b in r.boards && b in r'.boards
  {
    && r.boards[b] == r'.boards[b]
    && SameRows(r.boardGroups, r'.boardGroups, b) && SameOverrides(r, users, r', users', b)
    && forall u :: LiveThroughout(users, users', u) ==> AccessOf(r, users, b, u) == AccessOf(r', users', b, u)
  }

  /** The same group to everyone: name, description, grants, and members among the accounts live at both times. */
  ghost predicate SameGroup(r: Rooms, users: map<Id, User>, r': Rooms, users': map<Id, User>, g: Id)
    requires g in r.groups && g in r'.groups
  {
    && r.groups[g] == r'.groups[g]
    && (forall b :: ((b, g) in r.boardGroups <==> (b, g) in r'.boardGroups)
                    && ((b, g) in r.boardGroups ==> r.boardGroups[(b, g)] == r'.boardGroups[(b, g)]))
    && forall u :: LiveThroughout(users, users', u) ==> ((g, u) in r.groupMembers <==> (g, u) in r'.groupMembers)
  }

  ghost predicate IdsOk(r: Rooms) {
    && (forall b :: b in r.boards ==> 1 <= b <= r.lastBoard)
    && (forall g :: g in r.groups ==> 1 <= g <= r.lastGroup)
  }

  ghost predicate LaterBoard(r: Rooms, users: map<Id, User>, r': Rooms, users': map<Id, User>, b: Id)
    requires b in r.boards && b in r'.boards
  {
    && r.boards[b].revision <= r'.boards[b].revision
    && (r.boards[b].revision == r'.boards[b].revision ==> SameBoard(r, users, r', users', b))
  }

  ghost predicate LaterGroup(r: Rooms, users: map<Id, User>, r': Rooms, users': map<Id, User>, g: Id)
    requires g in r.groups && g in r'.groups
  {
    && r.groups[g].revision <= r'.groups[g].revision
    && (r.groups[g].revision == r'.groups[g].revision ==> SameGroup(r, users, r', users', g))
  }

  /** Boards and groups that are new have identifiers never used before; those that stay keep their
      revision only if they stay the same. */
  ghost predicate LaterRooms(r: Rooms, users: map<Id, User>, r': Rooms, users': map<Id, User>) {
    && r.lastBoard <= r'.lastBoard && r.lastGroup <= r'.lastGroup
    && (forall b :: b in r'.boards ==> b in r.boards || b > r.lastBoard)
    && (forall g :: g in r'.groups ==> g in r.groups || g > r.lastGroup)
    && (forall b :: b in r.boards && b in r'.boards ==> LaterBoard(r, users, r', users', b))
    && (forall g :: g in r.groups && g in r'.groups ==> LaterGroup(r, users, r', users', g))
  }

  // ----- What access depends on -----

  lemma GroupAccessDepends(r: Rooms, r': Rooms, b: Id, u: Id)
    requires SameRows(r.boardGroups, r'.boardGroups, b)
    requires forall g :: (b, g) in r.boardGroups ==> ((g, u) in r.groupMembers <==> (g, u) in r'.groupMembers)
    ensures GroupAccess(r, b, u) == GroupAccess(r', b, u)
  {
    forall m: (Id, Id) | Grants(r, b, u, m) || Grants(r', b, u, m)
      ensures Grants(r, b, u, m) && Grants(r', b, u, m)
      ensures (m in r.groupMembers <==> m in r'.groupMembers) && r.boardGroups[(b, m.0)] == r'.boardGroups[(b, m.0)]
    {
      var g: Id := m.0;
      assert m == (g, u);
      assert (b, g) in r.boardGroups <==> (b, g) in r'.boardGroups;
    }
  }

  /** A board whose row, overrides and grants stay, and whose granted groups keep their live members,
      is the same to everyone. */
  lemma BoardDepends(r: Rooms, users: map<Id, User>, r': Rooms, users': map<Id, User>, b: Id)
    requires b in r.boards && b in r'.boards && r.boards[b] == r'.boards[b]
    requires forall u :: LiveThroughout(users, users', u) ==> users[u].role == users'[u].role
    requires SameRows(r.boardGroups, r'.boardGroups, b) && SameOverrides(r, users, r', users', b)
    requires forall u, g :: LiveThroughout(users, users', u) && (b, g) in r.boardGroups ==>
      ((g, u) in r.groupMembers <==> (g, u) in r'.groupMembers)
    ensures SameBoard(r, users, r', users', b)
  {
    forall u | LiveThroughout(users, users', u) ensures AccessOf(r, users, b, u) == AccessOf(r', users', b, u) {
      GroupAccessDepends(r, r', b, u);
    }
  }

  // ----- One step at a time -----

  lemma OtherRowsStay(rows: map<(Id, Id), Access>, added: map<(Id, Id), Access>, board: Id, b: Id)
    requires b != board && forall k :: k in added ==> k.0 == board
    ensures SameRows(rows, OtherBoards(rows, board) + added, b)
  {
    assert forall x: Id :: (b, x).0 != board;
  }

  lemma RegrantOtherBoard(r: Rooms, users: map<Id, User>, saved: Rooms, board: Id, members: map<Id, Level>,
          groups: map<Id, Level>, b: Id)
    requires saved.boardMembers == r.boardMembers && saved.boardGroups == r.boardGroups
      && saved.groupMembers == r.groupMembers
    requires b in r.boards && b in saved.boards && r.boards[b] == saved.boards[b] && b != board
    ensures SameBoard(r, users, Regrant(saved, board, members, groups), users, b)
  {
    var r' := Regrant(saved, board, members, groups);
    var overrides, grants := Overrides(board, members), GroupGrants(board, groups);
    assert r'.boardMembers == OtherBoards(r.boardMembers, board) + overrides;
    assert r'.boardGroups == OtherBoards(r.boardGroups, board) + grants;
    OtherRowsStay(r.boardMembers, overrides, board, b);
    OtherRowsStay(r.boardGroups, grants, board, b);
    BoardDepends(r, users, r', users, b);
  }

  lemma RegrantGroup(r: Rooms, users: map<Id, User>, saved: Rooms, board: Id, members: map<Id, Level>,
          groups: map<Id, Level>, g: Id)
    requires saved.boardGroups == r.boardGroups && saved.groupMembers == r.groupMembers && saved.groups == r.groups
    requires g in r.groups
    ensures LaterGroup(r, users, Regrant(saved, board, members, groups), users, g)
  {
  }

  /** `saved` is `r` with one board's row new or newly revised. */
  ghost predicate Revised(r: Rooms, saved: Rooms, board: Id) {
    && saved == r.(boards := saved.boards, lastBoard := saved.lastBoard)
    && board in saved.boards
    && (if board in r.boards then
          saved.lastBoard == r.lastBoard && saved.boards[board].revision > r.boards[board].revision
        else saved.lastBoard == board == r.lastBoard + 1)
    && saved.boards == r.boards[board := saved.boards[board]]
  }

  lemma SaveDetailsRevises(r: Rooms, id: Id, revision: int, f: BoardForm)
    requires IdsOk(r) && SaveDetails(r, id, revision, f).Ok?
    ensures Revised(r, SaveDetails(r, id, revision, f).value.1, SaveDetails(r, id, revision, f).value.0)
  {
  }

  lemma RegrantBoards(r: Rooms, users: map<Id, User>, saved: Rooms, board: Id, members: map<Id, Level>,
          groups: map<Id, Level>, r': Rooms)
    requires Revised(r, saved, board) && r' == Regrant(saved, board, members, groups)
    ensures forall b :: b in r.boards ==> b in r'.boards && LaterBoard(r, users, r', users, b)
  {
    forall b | b in r.boards ensures b in r'.boards && LaterBoard(r, users, r', users, b) {
      if b != board {
        RegrantOtherBoard(r, users, saved, board, members, groups, b);
      }
    }
  }

  lemma RegrantGroups(r: Rooms, users: map<Id, User>, saved: Rooms, board: Id, members: map<Id, Level>,
          groups: map<Id, Level>, r': Rooms)
    requires Revised(r, saved, board) && r' == Regrant(saved, board, members, groups)
    ensures forall g :: g in r.groups ==> g in r'.groups && LaterGroup(r, users, r', users, g)
  {
    forall g | g in r.groups ensures g in r'.groups && LaterGroup(r, users, r', users, g) {
      RegrantGroup(r, users, saved, board, members, groups, g);
    }
  }

  lemma RegrantFrame(saved: Rooms, board: Id, members: map<Id, Level>, groups: map<Id, Level>, r': Rooms)
    requires r' == Regrant(saved, board, members, groups)
    ensures r'.groups.Keys == saved.groups.Keys && r'.boards == saved.boards
    ensures r'.lastBoard == saved.lastBoard && r'.lastGroup == saved.lastGroup
  {
  }

  lemma Assembled(r: Rooms, users: map<Id, User>, saved: Rooms, board: Id, r': Rooms)
    requires IdsOk(r) && Revised(r, saved, board)
    requires r'.groups.Keys == saved.groups.Keys && r'.boards == saved.boards
    requires r'.lastBoard == saved.lastBoard && r'.lastGroup == saved.lastGroup
    requires forall b :: b in r.boards ==> b in r'.boards && LaterBoard(r, users, r', users, b)
    requires forall g :: g in r.groups ==> g in r'.groups && LaterGroup(r, users, r', users, g)
    ensures IdsOk(r') && LaterRooms(r, users, r', users)
  {
  }

  lemma RegrantMovesOn(r: Rooms, users: map<Id, User>, saved: Rooms, board: Id, members: map<Id, Level>,
          groups: map<Id, Level>, r': Rooms)
    requires IdsOk(r) && Revised(r, saved, board)
    requires r' == Regrant(saved, board, members, groups)
    ensures IdsOk(r') && LaterRooms(r, users, r', users)
  {
    RegrantBoards(r, users, saved, board, members, groups, r');
    RegrantGroups(r, users, saved, board, members, groups, r');
    RegrantFrame(saved, board, members, groups, r');
    Assembled(r, users, saved, board, r');
  }

  lemma SaveBoardMovesOn(db: DB, owner: Id, id: Id, revision: int, f: BoardForm, members: map<Id, Level>,
          groups: map<Id, Level>)
    requires IdsOk(db.rooms)
    ensures var r' := SaveBoard(db, owner, id, revision, f, members, groups).After(db).rooms;
      IdsOk(r') && LaterRooms(db.rooms, db.accounts.users, r', db.accounts.users)
  {
    var o := SaveBoard(db, owner, id, revision, f, members, groups);
    if o.Committed? {
      var (board, saved) := SaveDetails(db.rooms, id, revision, f).value;
      SaveDetailsRevises(db.rooms, id, revision, f);
      RegrantMovesOn(db.rooms, db.accounts.users, saved, board, members, groups, o.db.rooms);
    }
  }

  /** Where a group has no grant, its membership decides nothing. */
  lemma UngrantedBoard(r: Rooms, users: map<Id, User>, r': Rooms, group: Id, b: Id)
    requires b in r.boards && b in r'.boards && r.boards[b] == r'.boards[b] && !GrantedTo(r, b, group)
    requires r'.boardMembers == r.boardMembers
    requires forall x: Id :: x != group ==> ((b, x) in r.boardGroups <==> (b, x) in r'.boardGroups)
    requires (b, group) !in r'.boardGroups
    requires forall x: Id :: (b, x) in r.boardGroups && (b, x) in r'.boardGroups ==>
      r.boardGroups[(b, x)] == r'.boardGroups[(b, x)]
    requires forall x: Id, u: Id :: x != group ==> ((x, u) in r.groupMembers <==> (x, u) in r'.groupMembers)
    ensures SameBoard(r, users, r', users, b)
  {
    assert SameRows(r.boardGroups, r'.boardGroups, b);
    BoardDepends(r, users, r', users, b);
  }

  lemma SaveGroupMovesOn(db: DB, owner: Id, id: Id, revision: int, name: string, description: string, members: seq<Id>)
    requires IdsOk(db.rooms)
    ensures var r' := SaveGroup(db, owner, id, revision, name, description, members).After(db).rooms;
      IdsOk(r') && LaterRooms(db.rooms, db.accounts.users, r', db.accounts.users)
  {
    var r, users := db.rooms, db.accounts.users;
    var o := SaveGroup(db, owner, id, revision, name, description, members);
    if o.Committed? {
      var r' := o.db.rooms;
      var group := o.value;
      forall b | b in r.boards ensures LaterBoard(r, users, r', users, b) {
        if !GrantedTo(r, b, group) {
          UngrantedBoard(r, users, r', group, b);
        }
      }
      forall g | g in r.groups ensures LaterGroup(r, users, r', users, g) {
      }
    }
  }

  lemma DeleteGroupMovesOn(db: DB, owner: Id, id: Id, revision: int, confirmation: string)
    requires IdsOk(db.rooms)
    ensures var r' := DeleteGroup(db, owner, id, revision, confirmation).After(db).rooms;
      IdsOk(r') && LaterRooms(db.rooms, db.accounts.users, r', db.accounts.users)
  {
    var r, users := db.rooms, db.accounts.users;
    var o := DeleteGroup(db, owner, id, revision, confirmation);
    if o.Committed? {
      var r' := o.db.rooms;
      forall b | b in r.boards ensures LaterBoard(r, users, r', users, b) {
        if !GrantedTo(r, b, id) {
          UngrantedBoard(r, users, r', id, b);
        }
      }
      forall g | g in r'.groups ensures LaterGroup(r, users, r', users, g) {
      }
    }
  }

  lemma ChangeBoardMovesOn(db: DB, owner: Id, board: Id, revision: int, action: BoardAction, confirmation: string)
    requires IdsOk(db.rooms)
    ensures var r' := ChangeBoard(db, owner, board, revision, action, confirmation).After(db).rooms;
      IdsOk(r') && LaterRooms(db.rooms, db.accounts.users, r', db.accounts.users)
  {
    var r, users := db.rooms, db.accounts.users;
    var o := ChangeBoard(db, owner, board, revision, action, confirmation);
    if o.Committed? {
      var r' := o.db.rooms;
      forall b | b in r'.boards ensures LaterBoard(r, users, r', users, b) {
        if b != board {
          BoardDepends(r, users, r', users, b);
        }
      }
      forall g | g in r'.groups ensures LaterGroup(r, users, r', users, g) {
      }
    }
  }

  /** Roles and grants that stay leave every board and group as it was. */
  lemma SameRoomsMoveOn(r: Rooms, users: map<Id, User>, users': map<Id, User>)
    requires AccountLaws.LaterUsers(users, users')
    ensures LaterRooms(r, users, r, users')
  {
    forall b | b in r.boards ensures LaterBoard(r, users, r, users', b) {
      BoardDepends(r, users, r, users', b);
    }
  }

  lemma DeletionMovesOn(r: Rooms, users: map<Id, User>, users': map<Id, User>, user: Id)
    requires AccountLaws.LaterUsers(users, users') && !Live(users', user)
    ensures LaterRooms(r, users, PostOps.RoomsAfterDeletion(r, user), users')
  {
    var r' := PostOps.RoomsAfterDeletion(r, user);
    forall b | b in r.boards ensures LaterBoard(r, users, r', users', b) {
      BoardDepends(r, users, r', users', b);
    }
  }

  lemma RoomStepMovesOn(db: DB, a: Action)
    requires IdsOk(db.rooms)
    ensures var r' := Apply(db, a).rooms;
      IdsOk(r') && LaterRooms(db.rooms, db.accounts.users, r', db.accounts.users)
  {
    match a
    case DoSaveBoard(owner, id, revision, form, members, groups) =>
      SaveBoardMovesOn(db, owner, id, revision, form, members, groups);
    case DoChangeBoard(owner, id, revision, change, confirmation) =>
      ChangeBoardMovesOn(db, owner, id, revision, change, confirmation);
    case DoSaveGroup(owner, id, revision, name, description, chosen) =>
      SaveGroupMovesOn(db, owner, id, revision, name, description, chosen);
    case DoDeleteGroup(owner, id, revision, confirmation) =>
      DeleteGroupMovesOn(db, owner, id, revision, confirmation);
  }

  lemma StepMovesOn(db: DB, a: Machine.Action, now: Time)
    requires AccountLaws.AccountsOk(db.accounts) && IdsOk(db.rooms)
    ensures var after := Machine.Apply(db, a, now);
      IdsOk(after.rooms) && LaterRooms(db.rooms, db.accounts.users, after.rooms, after.accounts.users)
  {
    var after := Machine.Apply(db, a, now);
    AccountLaws.StepMovesOn(db, a, now);
    match a
    case SetMode(_) => SameRoomsMoveOn(db.rooms, db.accounts.users, after.accounts.users);
    case OnAccounts(account) =>
      AccountOps.ApplyFrame(db, account, now);
      SameRoomsMoveOn(db.rooms, db.accounts.users, after.accounts.users);
    case OnRooms(room) =>
      RoomOps.ApplyFrame(db, room);
      RoomStepMovesOn(db, room);
    case OnPosts(post) =>
      PostOps.ApplyFrame(db, post, now);
      SameRoomsMoveOn(db.rooms, db.accounts.users, after.accounts.users);
    case DeleteAccount(user, name, hash) =>
      if PostOps.DeleteAccount(db, user, name, hash).Committed? {
        DeletionMovesOn(db.rooms, db.accounts.users, after.accounts.users, user);
      } else {
        SameRoomsMoveOn(db.rooms, db.accounts.users, after.accounts.users);
      }
  }

  // ----- Any number of steps -----

  lemma LaterBoardChains(r: Rooms, u: map<Id, User>, r': Rooms, u': map<Id, User>, r'': Rooms, u'': map<Id, User>,
          b: Id)
    requires AccountLaws.LaterUsers(u, u') && AccountLaws.LaterUsers(u', u'')
    requires b in r.boards && b in r'.boards && b in r''.boards
    requires LaterBoard(r, u, r', u', b) && LaterBoard(r', u', r'', u'', b)
    ensures LaterBoard(r, u, r'', u'', b)
  {
  }

  lemma LaterGroupChains(r: Rooms, u: map<Id, User>, r': Rooms, u': map<Id, User>, r'': Rooms, u'': map<Id, User>,
          g: Id)
    requires AccountLaws.LaterUsers(u, u') && AccountLaws.LaterUsers(u', u'')
    requires g in r.groups && g in r'.groups && g in r''.groups
    requires LaterGroup(r, u, r', u', g) && LaterGroup(r', u', r'', u'', g)
    ensures LaterGroup(r, u, r'', u'', g)
  {
  }

  lemma LaterRoomsChains(r: Rooms, u: map<Id, User>, r': Rooms, u': map<Id, User>, r'': Rooms, u'': map<Id, User>)
    requires AccountLaws.LaterUsers(u, u') && AccountLaws.LaterUsers(u', u'')
    requires IdsOk(r) && LaterRooms(r, u, r', u') && LaterRooms(r', u', r'', u'')
    ensures LaterRooms(r, u, r'', u'')
  {
    forall b | b in r.boards && b in r''.boards ensures LaterBoard(r, u, r'', u'', b) {
      LaterBoardChains(r, u, r', u', r'', u'', b);
    }
    forall g | g in r.groups && g in r''.groups ensures LaterGroup(r, u, r'', u'', g) {
      LaterGroupChains(r, u, r', u', r'', u'', g);
    }
  }

  lemma {:induction false} RunMovesOn(db: DB, run: Machine.Run)
    requires AccountLaws.AccountsOk(db.accounts) && IdsOk(db.rooms)
    ensures var after := Machine.After(db, run);
      && IdsOk(after.rooms)
      && AccountLaws.LaterUsers(db.accounts.users, after.accounts.users)
      && LaterRooms(db.rooms, db.accounts.users, after.rooms, after.accounts.users)
    decreases run
  {
    AccountLaws.RunMovesOn(db, run);
    if run == [] {
      SameRoomsMoveOn(db.rooms, db.accounts.users, db.accounts.users);
    } else {
      var next := Machine.Apply(db, run[0].action, run[0].now);
      var after := Machine.After(db, run);
      AccountLaws.StepKeepsAccounts(db, run[0].action, run[0].now);
      AccountLaws.StepMovesOn(db, run[0].action, run[0].now);
      StepMovesOn(db, run[0].action, run[0].now);
      RunMovesOn(next, run[1..]);
      LaterRoomsChains(db.rooms, db.accounts.users, next.rooms, next.accounts.users, after.rooms, after.accounts.users);
    }
  }

  /** If a board has the same revision at two times of any run, its settings, archive flag and grants, and
      the override and access of every account live at both times, are the same at both. */
  lemma BoardRevisionsNeverRecur(db: DB, run: Machine.Run, b: Id)
    requires AccountLaws.AccountsOk(db.accounts) && IdsOk(db.rooms)
    requires b in db.rooms.boards && b in Machine.After(db, run).rooms.boards
    requires db.rooms.boards[b].revision == Machine.After(db, run).rooms.boards[b].revision
    ensures var after := Machine.After(db, run);
      SameBoard(db.rooms, db.accounts.users, after.rooms, after.accounts.users, b)
  {
    RunMovesOn(db, run);
  }

  /** The same for groups: name, description, grants and live members. */
  lemma GroupRevisionsNeverRecur(db: DB, run: Machine.Run, g: Id)
    requires AccountLaws.AccountsOk(db.accounts) && IdsOk(db.rooms)
    requires g in db.rooms.groups && g in Machine.After(db, run).rooms.groups
    requires db.rooms.groups[g].revision == Machine.After(db, run).rooms.groups[g].revision
    ensures var after := Machine.After(db, run);
      SameGroup(db.rooms, db.accounts.users, after.rooms, after.accounts.users, g)
  {
    RunMovesOn(db, run);
  }

  lemma SaveNeedsRevision(db: DB, owner: Id, b: Id, revision: int, f: BoardForm,
                          members: map<Id, Level>, groups: map<Id, Level>)
    requires b != 0 && SaveBoard(db, owner, b, revision, f, members, groups).Committed?
    ensures b in db.rooms.boards && db.rooms.boards[b].revision == revision
  {
  }

  /** A save that carries the revision its form was opened with can only commit on the board that
      form showed: anything that changed it, its grants or overrides, or anyone's access to it, in between
      makes the save fail. */
  lemma StaleSaveIsRefused(shown: DB, run: Machine.Run, owner: Id, b: Id, f: BoardForm, members: map<Id, Level>,
          groups: map<Id, Level>)
    requires AccountLaws.AccountsOk(shown.accounts) && IdsOk(shown.rooms) && b in shown.rooms.boards
    ensures var later := Machine.After(shown, run);
      SaveBoard(later, owner, b, shown.rooms.boards[b].revision, f, members, groups).Committed? ==>
        && b in later.rooms.boards
        && SameBoard(shown.rooms, shown.accounts.users, later.rooms, later.accounts.users, b)
  {
    var later := Machine.After(shown, run);
    if SaveBoard(later, owner, b, shown.rooms.boards[b].revision, f, members, groups).Committed? {
      SaveNeedsRevision(later, owner, b, shown.rooms.boards[b].revision, f, members, groups);
      RunMovesOn(shown, run);
    }
  }
}
