/** The statements of the transactions on boards and groups, as they change the rows of an open
    transaction one after another. */
module RoomTransactions {
  import opened Schema
  import opened Permissions
  import opened Transactions
  import RoomOps

  // ----- Boards -----

  method SaveBoardDetails(tx: Tx, id: Id, revision: int, f: RoomOps.BoardForm) returns (r: Result<Id>)
    modifies tx
    ensures match RoomOps.SaveDetails(old(tx.rows.rooms), id, revision, f)
      case Err(e) => r == Err(e)
      case Ok((board, saved)) => r == Ok(board) && tx.rows == old(tx.rows).(rooms := saved)
  {
    var rooms := tx.rows.rooms;
    if id == 0 {
      var next := rooms.lastBoard + 1;
      var position := RoomOps.NextPosition(rooms.boards);
      tx.rows := tx.rows.(rooms := rooms.(
        boards := rooms.boards[next := Board(f.category, f.name, f.description, position, f.restricted, false, 0)],
        lastBoard := next));
      return Ok(next);
    }
    if id !in rooms.boards || rooms.boards[id].revision != revision {
      return Err(BoardConflict);
    }
    var row := rooms.boards[id].(category := f.category, name := f.name, description := f.description,
                                 restricted := f.restricted, revision := rooms.boards[id].revision + 1);
    tx.rows := tx.rows.(rooms := rooms.(boards := rooms.boards[id := row]));
    return Ok(id);
  }

  lemma OverridesPush(board: Id, seen: map<Id, RoomOps.Level>, u: Id, level: RoomOps.Level)
    requires u !in seen
    ensures RoomOps.Overrides(board, seen[u := level]) ==
      if level.Level? then RoomOps.Overrides(board, seen)[(board, u) := level.access]
      else RoomOps.Overrides(board, seen)
  {
  }

  /** Go ranges over the form's map in no particular order; neither the rows nor the outcome depend on it. */
  method InsertBoardMembers(users: map<Id, User>, id: Id, access: map<Id, RoomOps.Level>)
    returns (ok: bool, rows: map<(Id, Id), Access>)
    ensures ok == RoomOps.MembersAllowed(users, access)
    ensures ok ==> rows == RoomOps.Overrides(id, access)
  {
    rows := map[];
    var todo := access.Keys;
    ghost var seen: map<Id, RoomOps.Level> := map[];
    while todo != {}
      invariant Seen(access, todo, seen)
      invariant RoomOps.MembersAllowed(users, seen)
      invariant rows == RoomOps.Overrides(id, seen)
      decreases todo
    {
      var user := Pick(todo);
      var level := access[user];
      if !RoomOps.ValidLevel(level, true) || !RoomOps.LiveMember(users, user) {
        return false, rows;
      }
      OverridesPush(id, seen, user, level);
      if level.Level? {
        rows := rows[(id, user) := level.access];
      }
      SeesOneMore(access, todo, seen, user);
      todo, seen := todo - {user}, seen[user := level];
    }
    SeesAll(access, todo, seen);
    ok := true;
  }

  method ReplaceBoardMembers(tx: Tx, id: Id, access: map<Id, RoomOps.Level>) returns (err: Option<Error>)
    modifies tx
    ensures err == if RoomOps.MembersAllowed(old(tx.rows.accounts.users), access) then None else Some(BadAccess)
    ensures err == None ==> tx.rows == old(tx.rows).(rooms := old(tx.rows.rooms).(boardMembers :=
      RoomOps.OtherBoards(old(tx.rows.rooms.boardMembers), id) + RoomOps.Overrides(id, access)))
  {
    tx.rows := tx.rows.(rooms := tx.rows.rooms.(boardMembers := RoomOps.OtherBoards(tx.rows.rooms.boardMembers, id)));
    var ok, rows := InsertBoardMembers(tx.rows.accounts.users, id, access);
    if !ok {
      return Some(BadAccess);
    }
    tx.rows := tx.rows.(rooms := tx.rows.rooms.(boardMembers := tx.rows.rooms.boardMembers + rows));
    return None;
  }

  lemma GrantsPush(board: Id, seen: map<Id, RoomOps.Level>, g: Id, level: RoomOps.Level)
    requires g !in seen
    ensures RoomOps.GroupGrants(board, seen[g := level]) ==
      if level.Level? && level.access != NoAccess then RoomOps.GroupGrants(board, seen)[(board, g) := level.access]
      else RoomOps.GroupGrants(board, seen)
    ensures (board, g) !in RoomOps.GroupGrants(board, seen)
  {
  }

  lemma TouchPush(groups: map<Id, Group>, rows: map<(Id, Id), Access>, board: Id, g: Id, access: Access)
    requires g in groups && (board, g) !in rows
    ensures var touched := RoomOps.Touch(groups, map[], rows, board);
      RoomOps.Touch(groups, map[], rows[(board, g) := access], board)
      == touched[g := touched[g].(revision := touched[g].revision + 1)]
  {
  }

  lemma TouchTwice(groups: map<Id, Group>, before: map<(Id, Id), Access>, rows: map<(Id, Id), Access>, board: Id)
    ensures RoomOps.Touch(RoomOps.Touch(groups, before, map[], board), map[], rows, board)
         == RoomOps.Touch(groups, before, RoomOps.OtherBoards(before, board) + rows, board)
  {
    forall g: Id ensures (board, g) in RoomOps.OtherBoards(before, board) + rows <==> (board, g) in rows {
      assert (board, g).0 == board;
    }
  }

  /** The trigger on deletion alone. */
  lemma TouchDeleted(groups: map<Id, Group>, before: map<(Id, Id), Access>, board: Id)
    ensures RoomOps.Touch(groups, before, map[], board) ==
      map g | g in groups :: if (board, g) in before then groups[g].(revision := groups[g].revision + 1) else groups[g]
  {
    forall g | g in groups ensures groups[g].(revision := groups[g].revision) == groups[g] {
      var Group(name, description, revision) := groups[g];
    }
  }

  /** The grants inserted so far, and the groups as the triggers have left them. */
  ghost predicate Inserted(groups: map<Id, Group>, id: Id, seen: map<Id, RoomOps.Level>, rows: map<(Id, Id), Access>,
          touched: map<Id, Group>) {
    rows == RoomOps.GroupGrants(id, seen) && touched == RoomOps.Touch(groups, map[], rows, id)
  }

  lemma NothingInserted(groups: map<Id, Group>, id: Id)
    ensures Inserted(groups, id, map[], map[], groups)
  {
    TouchDeleted(groups, map[], id);
    assert (map g | g in groups :: groups[g]) == groups;
  }

  /** Inserts one grant; the trigger gives its group a new revision. */
  method InsertBoardGroup(ghost groups: map<Id, Group>, id: Id, ghost seen: map<Id, RoomOps.Level>,
                          rows: map<(Id, Id), Access>, touched: map<Id, Group>, group: Id, level: RoomOps.Level)
    returns (rows': map<(Id, Id), Access>, touched': map<Id, Group>)
    requires Inserted(groups, id, seen, rows, touched) && group !in seen
    requires RoomOps.GroupsAllowed(groups, seen) && RoomOps.ValidLevel(level, false) && group in groups
    ensures Inserted(groups, id, seen[group := level], rows', touched')
    ensures RoomOps.GroupsAllowed(groups, seen[group := level])
  {
    rows', touched' := rows, touched;
    GrantsPush(id, seen, group, level);
    if level.access != NoAccess {
      TouchPush(groups, rows, id, group, level.access);
      rows' := rows[(id, group) := level.access];
      touched' := touched[group := touched[group].(revision := touched[group].revision + 1)];
    }
  }

  method InsertBoardGroups(groups: map<Id, Group>, id: Id, access: map<Id, RoomOps.Level>)
    returns (ok: bool, rows: map<(Id, Id), Access>, touched: map<Id, Group>)
    ensures ok == RoomOps.GroupsAllowed(groups, access)
    ensures ok ==> Inserted(groups, id, access, rows, touched)
  {
    rows, touched := map[], groups;
    var todo := access.Keys;
    ghost var seen: map<Id, RoomOps.Level> := map[];
    NothingInserted(groups, id);
    while todo != {}
      invariant Seen(access, todo, seen)
      invariant RoomOps.GroupsAllowed(groups, seen)
      invariant Inserted(groups, id, seen, rows, touched)
      decreases todo
    {
      var group := Pick(todo);
      var level := access[group];
      if !RoomOps.ValidLevel(level, false) || group !in groups {
        return false, rows, touched;
      }
      rows, touched := InsertBoardGroup(groups, id, seen, rows, touched, group, level);
      SeesOneMore(access, todo, seen, group);
      todo, seen := todo - {group}, seen[group := level];
    }
    SeesAll(access, todo, seen);
    ok := true;
  }

  /** DELETE FROM board_groups WHERE board_id = ?, with the trigger on deletion. */
  method DeleteBoardGroups(tx: Tx, id: Id)
    modifies tx
    ensures var r := old(tx.rows.rooms);
      tx.rows == old(tx.rows).(rooms := r.(
        boardGroups := RoomOps.OtherBoards(r.boardGroups, id),
        groups := RoomOps.Touch(r.groups, r.boardGroups, map[], id)))
  {
    var r := tx.rows.rooms;
    var touched := map g | g in r.groups :: if (id, g) in r.boardGroups
      then r.groups[g].(revision := r.groups[g].revision + 1) else r.groups[g];
    TouchDeleted(r.groups, r.boardGroups, id);
    tx.rows := tx.rows.(rooms := r.(boardGroups := RoomOps.OtherBoards(r.boardGroups, id), groups := touched));
  }

  method ReplaceBoardGroups(tx: Tx, id: Id, access: map<Id, RoomOps.Level>) returns (err: Option<Error>)
    modifies tx
    ensures err == if RoomOps.GroupsAllowed(old(tx.rows.rooms.groups), access) then None else Some(BadAccess)
    ensures err == None ==>
      var r := old(tx.rows.rooms);
      var boardGroups := RoomOps.OtherBoards(r.boardGroups, id) + RoomOps.GroupGrants(id, access);
      tx.rows == old(tx.rows).(rooms := r.(
        boardGroups := boardGroups, groups := RoomOps.Touch(r.groups, r.boardGroups, boardGroups, id)))
  {
    ghost var r := tx.rows.rooms;
    DeleteBoardGroups(tx, id);
    var ok, rows, touched := InsertBoardGroups(tx.rows.rooms.groups, id, access);
    if !ok {
      return Some(BadAccess);
    }
    TouchTwice(r.groups, r.boardGroups, rows, id);
    tx.rows := tx.rows.(rooms := tx.rows.rooms.(boardGroups := tx.rows.rooms.boardGroups + rows, groups := touched));
    return None;
  }

  method ReplaceGrants(tx: Tx, id: Id, members: map<Id, RoomOps.Level>,
          groups: map<Id, RoomOps.Level>) returns (err: Option<Error>)
    modifies tx
    ensures
      if RoomOps.MembersAllowed(old(tx.rows.accounts.users), members)
        && RoomOps.GroupsAllowed(old(tx.rows.rooms.groups), groups)
      then err == None && tx.rows == old(tx.rows).(rooms := RoomOps.Regrant(old(tx.rows.rooms), id, members, groups))
      else err == Some(BadAccess)
  {
    err := ReplaceBoardMembers(tx, id, members);
    if err.Some? {
      return;
    }
    err := ReplaceBoardGroups(tx, id, groups);
  }

  /** The cascades that end with DELETE FROM boards: messages first, then conversations, then the board. */
  method DeleteBoard(tx: Tx, id: Id)
    modifies tx
    ensures var db := old(tx.rows);
      var content := RoomOps.WithoutTopics(db.content, RoomOps.TopicsOn(db.content, id));
      tx.rows == db.(rooms := RoomOps.WithoutBoard(db.rooms, id), content := content,
                     events := RoomOps.UnlinkEvents(db.events, content.posts))
  {
    ghost var r := tx.rows.rooms;
    var topics := RoomOps.TopicsOn(tx.rows.content, id);
    var c := tx.rows.content;
    var posts := map p | p in c.posts && c.posts[p].topic !in topics :: c.posts[p];
    var attachments := map a | a in c.attachments && c.attachments[a].post in posts :: c.attachments[a];
    tx.rows := tx.rows.(content := c.(posts := posts, attachments := attachments),
                        events := RoomOps.UnlinkEvents(tx.rows.events, posts));
    tx.rows := tx.rows.(content := tx.rows.content.(topics := c.topics - topics));
    DeleteBoardGroups(tx, id);
    TouchOtherBoards(r.groups, r.boardGroups, id);
    tx.rows := tx.rows.(rooms := tx.rows.rooms.(
      boards := tx.rows.rooms.boards - {id},
      boardMembers := RoomOps.OtherBoards(tx.rows.rooms.boardMembers, id)));
  }

  lemma TouchOtherBoards(groups: map<Id, Group>, before: map<(Id, Id), Access>, board: Id)
    ensures RoomOps.Touch(groups, before, RoomOps.OtherBoards(before, board), board)
      == RoomOps.Touch(groups, before, map[], board)
  {
    forall g: Id ensures (board, g) !in RoomOps.OtherBoards(before, board) {
      assert (board, g).0 == board;
    }
  }

  // ----- Groups -----

  method SaveGroupDetails(tx: Tx, id: Id, revision: int, name: string, description: string) returns (r: Result<Id>)
    modifies tx
    ensures match RoomOps.SaveGroupDetails(old(tx.rows.rooms), id, revision, name, description)
      case Err(e) => r == Err(e)
      case Ok((group, saved)) => r == Ok(group) && tx.rows == old(tx.rows).(rooms := saved)
  {
    var rooms := tx.rows.rooms;
    if id != 0 {
      if id !in rooms.groups {
        return Err(NoRows);
      }
      if rooms.groups[id].revision != revision {
        return Err(GroupConflict);
      }
    }
    if RoomOps.GroupNameTaken(rooms.groups, name, id) {
      return Err(GroupName);
    }
    if id == 0 {
      var next := rooms.lastGroup + 1;
      tx.rows := tx.rows.(rooms := rooms.(
        groups := rooms.groups[next := Group(name, description, 0)], lastGroup := next));
      return Ok(next);
    }
    tx.rows := tx.rows.(rooms := rooms.(
      groups := rooms.groups[id := Group(name, description, rooms.groups[id].revision + 1)]));
    return Ok(id);
  }

  /** Replaces a group's members one by one; anyone unknown, deleted, not a plain member or named twice
      spoils the whole list. */
  method ReplaceGroupMembers(tx: Tx, id: Id, members: seq<Id>) returns (err: Option<Error>)
    modifies tx
    ensures err == if RoomOps.MembersChosen(old(tx.rows.accounts.users), members) then None else Some(GroupMembers)
    ensures err == None ==> tx.rows == old(tx.rows).(rooms := old(tx.rows.rooms).(groupMembers :=
      RoomOps.OtherGroups(old(tx.rows.rooms.groupMembers), id) + RoomOps.Memberships(id, members)))
  {
    var users := tx.rows.accounts.users;
    var rows := RoomOps.OtherGroups(tx.rows.rooms.groupMembers, id);
    var seen: set<Id> := {};
    for i := 0 to |members|
      invariant seen == set u | u in members[..i]
      invariant RoomOps.MembersChosen(users, members[..i])
      invariant rows == RoomOps.OtherGroups(tx.rows.rooms.groupMembers, id) + RoomOps.Memberships(id, members[..i])
      invariant tx.rows == old(tx.rows)
    {
      var user := members[i];
      assert members[..i + 1] == members[..i] + [user];
      if !RoomOps.LiveMember(users, user) || user in seen {
        return Some(GroupMembers);
      }
      seen := seen + {user};
      rows := rows + {(id, user)};
    }
    assert members[..|members|] == members;
    tx.rows := tx.rows.(rooms := tx.rows.rooms.(groupMembers := rows));
    return None;
  }

  method InvalidateGroupBoards(tx: Tx, id: Id)
    modifies tx
    ensures tx.rows ==
      old(tx.rows).(rooms := old(tx.rows.rooms).(boards := RoomOps.InvalidateBoards(old(tx.rows.rooms), id)))
  {
    tx.rows := tx.rows.(rooms := tx.rows.rooms.(boards := RoomOps.InvalidateBoards(tx.rows.rooms, id)));
  }

  /** DELETE FROM user_groups WHERE id = ?, which takes its members and grants with it. */
  method DeleteGroupRow(tx: Tx, id: Id)
    modifies tx
    ensures var r := old(tx.rows.rooms);
      tx.rows == old(tx.rows).(rooms := r.(
        groups := r.groups - {id}, groupMembers := RoomOps.OtherGroups(r.groupMembers, id),
        boardGroups := map k | k in r.boardGroups && k.1 != id :: r.boardGroups[k]))
  {
    var r := tx.rows.rooms;
    var boardGroups := map k | k in r.boardGroups && k.1 != id :: r.boardGroups[k];
    tx.rows := tx.rows.(rooms := r.(
      groups := r.groups - {id}, groupMembers := RoomOps.OtherGroups(r.groupMembers, id), boardGroups := boardGroups));
  }

  // ----- The transactions -----

  method SaveBoard(tx: Tx, owner: Id, id: Id, revision: int, f: RoomOps.BoardForm,
                   members: map<Id, RoomOps.Level>, groups: map<Id, RoomOps.Level>) returns (r: Result<Id>)
    modifies tx
    ensures Does(old(tx.rows), tx.rows, r, RoomOps.SaveBoard(old(tx.rows), owner, id, revision, f, members, groups))
  {
    if !RoomOps.ValidBoardForm(f) {
      return Err(BoardDetails);
    }
    var err := RequireOwner(tx.rows.accounts, owner);
    if err.Some? {
      return Err(err.value);
    }
    r := SaveBoardDetails(tx, id, revision, f);
    if r.Err? {
      return r;
    }
    err := ReplaceGrants(tx, r.value, members, groups);
    if err.Some? {
      return Err(err.value);
    }
  }

  method ChangeBoard(tx: Tx, owner: Id, id: Id, revision: int, action: RoomOps.BoardAction,
          confirmation: string) returns (r: Result<()>)
    modifies tx
    ensures Does(old(tx.rows), tx.rows, r, RoomOps.ChangeBoard(old(tx.rows), owner, id, revision, action, confirmation))
  {
    var err := RequireOwner(tx.rows.accounts, owner);
    if err.Some? {
      return Err(err.value);
    }
    if !VisibleBoard(tx.rows, Reader(owner, true), id) {
      return Err(NoRows);
    }
    var board := tx.rows.rooms.boards[id];
    if board.revision != revision {
      return Err(BoardActionConflict);
    }
    match action {
      case OtherAction =>
        return Err(BoardActionConflict);
      case Delete =>
        if confirmation != board.name {
          return Err(BoardConfirmation);
        }
        DeleteBoard(tx, id);
      case _ =>
        var archived := action == RoomOps.Archive;
        if board.archived == archived {
          return Err(BoardActionConflict);
        }
        tx.rows := tx.rows.(rooms := tx.rows.rooms.(boards :=
          tx.rows.rooms.boards[id := board.(archived := archived, revision := board.revision + 1)]));
    }
    return Ok(());
  }

  method SaveGroup(tx: Tx, owner: Id, id: Id, revision: int, name: string, description: string,
          members: seq<Id>) returns (r: Result<Id>)
    modifies tx
    ensures Does(old(tx.rows), tx.rows, r,
      RoomOps.SaveGroup(old(tx.rows), owner, id, revision, name, description, members))
  {
    var n, d := TrimSpace(name), TrimSpace(description);
    if !RoomOps.ValidGroupForm(n, d) {
      return Err(GroupDetails);
    }
    var err := RequireOwner(tx.rows.accounts, owner);
    if err.Some? {
      return Err(err.value);
    }
    r := SaveGroupDetails(tx, id, revision, n, d);
    if r.Err? {
      return r;
    }
    err := ReplaceGroupMembers(tx, r.value, members);
    if err.Some? {
      return Err(err.value);
    }
    InvalidateGroupBoards(tx, r.value);
  }

  method DeleteGroup(tx: Tx, owner: Id, id: Id, revision: int, confirmation: string) returns (r: Result<()>)
    modifies tx
    ensures Does(old(tx.rows), tx.rows, r, RoomOps.DeleteGroup(old(tx.rows), owner, id, revision, confirmation))
  {
    var err := RequireOwner(tx.rows.accounts, owner);
    if err.Some? {
      return Err(err.value);
    }
    if id !in tx.rows.rooms.groups {
      return Err(NoRows);
    }
    var group := tx.rows.rooms.groups[id];
    if group.revision != revision {
      return Err(GroupConflict);
    }
    if confirmation != group.name {
      return Err(GroupConfirmation);
    }
    InvalidateGroupBoards(tx, id);
    DeleteGroupRow(tx, id);
    return Ok(());
  }
}
