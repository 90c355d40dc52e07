/** Boards, groups and grants: the transactions of board_store.go, board_lifecycle.go, group_store.go
    and group_access.go on those tables. */
module RoomOps {
  import opened Schema
  import opened Permissions

  /** A permission as a form submits it; `Unknown` stands for any other string. */
  datatype Level = Level(access: Access) | Inherit | Unknown

  predicate ValidLevel(level: Level, inherit: bool) {
    level.Level? || (inherit && level == Inherit)
  }

  /** A live member account: the only kind that can be granted anything. */
  predicate LiveMember(users: map<Id, User>, user: Id) {
    user in users && !users[user].deleted && users[user].role == Member
  }

  // ----- Boards -----

  datatype BoardForm = BoardForm(category: string, name: string, description: string, restricted: bool)

  predicate ValidBoardForm(f: BoardForm) {
    && ValidText(f.name, 1, 80) && ValidText(f.category, 1, 80) && ValidText(f.description, 0, 500)
    && SingleLine(f.name) && SingleLine(f.category)
  }

  function NextPosition(boards: map<Id, Board>): (next: int)
    ensures forall b :: b in boards ==> boards[b].position < next
  {
    var positions := set b | b in boards :: boards[b].position;
    assert forall b :: b in boards ==> boards[b].position in positions;
    NextId(positions)
  }

  /** The board rows after the form's details are saved, and the board's identifier. */
  function SaveDetails(r: Rooms, id: Id, revision: int, f: BoardForm): Result<(Id, Rooms)> {
    if id == 0 then
      var next := r.lastBoard + 1;
      var board := Board(f.category, f.name, f.description, NextPosition(r.boards), f.restricted, false, 0);
      Ok((next, r.(boards := r.boards[next := board], lastBoard := next)))
    else if id in r.boards && r.boards[id].revision == revision then
      var board := r.boards[id].(category := f.category, name := f.name, description := f.description,
                                 restricted := f.restricted, revision := r.boards[id].revision + 1);
      Ok((id, r.(boards := r.boards[id := board])))
    else Err(BoardConflict)
  }

  predicate MembersAllowed(users: map<Id, User>, access: map<Id, Level>) {
    forall u | u in access :: ValidLevel(access[u], true) && LiveMember(users, u)
  }

  predicate GroupsAllowed(groups: map<Id, Group>, access: map<Id, Level>) {
    forall g | g in access :: ValidLevel(access[g], false) && g in groups
  }

  /** Rows of a (board, ...) table that belong to other boards. */
  function OtherBoards(rows: map<(Id, Id), Access>, board: Id): map<(Id, Id), Access> {
    map k | k in rows && k.0 != board :: rows[k]
  }

  ghost function Pairs(board: Id, ids: set<Id>): (pairs: set<(Id, Id)>)
    ensures forall k :: k in pairs <==> k.0 == board && k.1 in ids
  {
    var pairs := set u | u in ids :: (board, u);
    assert forall k: (Id, Id) | k.0 == board && k.1 in ids :: k in pairs by {
      forall k: (Id, Id) | k.0 == board && k.1 in ids ensures k in pairs {
        var u := k.1;
        assert u in ids && (board, u) in pairs && k == (board, u);
      }
    }
    pairs
  }

  /** The rows a form asks for on one board. */
  ghost function Overrides(board: Id, access: map<Id, Level>): map<(Id, Id), Access> {
    map k | k in Pairs(board, access.Keys) && access[k.1].Level? :: access[k.1].access
  }

  ghost function GroupGrants(board: Id, access: map<Id, Level>): map<(Id, Id), Access> {
    map k | k in Pairs(board, access.Keys) && access[k.1].Level? && access[k.1].access != NoAccess :: access[k.1].access
  }

  /** Triggers bump a group's revision for each grant of it that is added or removed. */
  ghost function Touch(groups: map<Id, Group>, before: map<(Id, Id), Access>, after: map<(Id, Id), Access>,
          board: Id): (touched: map<Id, Group>)
    ensures touched.Keys == groups.Keys
  {
    map g | g in groups :: groups[g].(revision :=
      groups[g].revision + (if (board, g) in before then 1 else 0) + (if (board, g) in after then 1 else 0))
  }

  ghost function Regrant(r: Rooms, board: Id, members: map<Id, Level>, groups: map<Id, Level>): Rooms {
    var boardGroups := OtherBoards(r.boardGroups, board) + GroupGrants(board, groups);
    r.(boardMembers := OtherBoards(r.boardMembers, board) + Overrides(board, members),
       boardGroups := boardGroups,
       groups := Touch(r.groups, r.boardGroups, boardGroups, board))
  }

  ghost function SaveBoard(db: DB, owner: Id, id: Id, revision: int, f: BoardForm,
                           members: map<Id, Level>, groups: map<Id, Level>): Outcome<Id>
  {
    if !ValidBoardForm(f) then RolledBack(BoardDetails)
    else match RequireOwner(db.accounts, owner)
      case Some(e) => RolledBack(e)
      case None =>
        match SaveDetails(db.rooms, id, revision, f)
        case Err(e) => RolledBack(e)
        case Ok((board, saved)) =>
          if !MembersAllowed(db.accounts.users, members) || !GroupsAllowed(saved.groups, groups)
          then RolledBack(BadAccess)
          else Committed(db.(rooms := Regrant(saved, board, members, groups)), board)
  }

  // ----- Archiving and deleting -----

  datatype BoardAction = Archive | Restore | Delete | OtherAction

  /** Deleting a board takes its grants with it. */
  ghost function WithoutBoard(r: Rooms, board: Id): Rooms {
    var boardGroups := OtherBoards(r.boardGroups, board);
    r.(boards := r.boards - {board},
       boardMembers := OtherBoards(r.boardMembers, board),
       boardGroups := boardGroups,
       groups := Touch(r.groups, r.boardGroups, boardGroups, board))
  }

  function TopicsOn(c: Content, board: Id): set<Id> {
    set t | t in c.topics && c.topics[t].board == board
  }

  /** ... and its conversations with their messages, and the messages with their attachments. */
  function WithoutTopics(c: Content, topics: set<Id>): Content {
    var posts := map p | p in c.posts && c.posts[p].topic !in topics :: c.posts[p];
    c.(topics := c.topics - topics,
       posts := posts,
       attachments := map a | a in c.attachments && c.attachments[a].post in posts :: c.attachments[a])
  }

  /** The activity log keeps its entries; a removed message's entry loses its link. */
  function UnlinkEvents(events: seq<Event>, posts: map<Id, Post>): seq<Event> {
    seq(|events|, i requires 0 <= i < |events| =>
      if events[i].post.Some? && events[i].post.value !in posts then events[i].(post := None) else events[i])
  }

  ghost function ChangeBoard(db: DB, owner: Id, board: Id, revision: int, action: BoardAction,
          confirmation: string): Outcome<()> {
    match RequireOwner(db.accounts, owner)
    case Some(e) => RolledBack(e)
    case None =>
      if !VisibleBoard(db, Reader(owner, true), board) then RolledBack(NoRows)
      else
        var b := db.rooms.boards[board];
        if b.revision != revision then RolledBack(BoardActionConflict)
        else match action
          case OtherAction => RolledBack(BoardActionConflict)
          case Delete =>
            if confirmation != b.name then RolledBack(BoardConfirmation)
            else
              var content := WithoutTopics(db.content, TopicsOn(db.content, board));
              Committed(db.(rooms := WithoutBoard(db.rooms, board), content := content,
                            events := UnlinkEvents(db.events, content.posts)), ())
          case _ =>
            if b.archived == (action == Archive) then RolledBack(BoardActionConflict)
            else Committed(db.(rooms := db.rooms.(boards := db.rooms.boards[board :=
              b.(archived := action == Archive, revision := b.revision + 1)])), ())
  }

  // ----- Groups -----

  predicate GroupNameTaken(groups: map<Id, Group>, name: string, id: Id) {
    exists g | g in groups :: g != id && Folded(groups[g].name) == Folded(name)
  }

  function SaveGroupDetails(r: Rooms, id: Id, revision: int, name: string, description: string): Result<(Id, Rooms)> {
    if id != 0 && id !in r.groups then Err(NoRows)
    else if id != 0 && r.groups[id].revision != revision then Err(GroupConflict)
    else if GroupNameTaken(r.groups, name, id) then Err(GroupName)
    else if id == 0 then
      var next := r.lastGroup + 1;
      Ok((next, r.(groups := r.groups[next := Group(name, description, 0)], lastGroup := next)))
    else
      Ok((id, r.(groups := r.groups[id := Group(name, description, r.groups[id].revision + 1)])))
  }

  function OtherGroups(rows: set<(Id, Id)>, group: Id): set<(Id, Id)> {
    set m | m in rows && m.0 != group
  }

  predicate Distinct(ids: seq<Id>) {
    forall i, j | 0 <= i < j < |ids| :: ids[i] != ids[j]
  }

  predicate MembersChosen(users: map<Id, User>, members: seq<Id>) {
    Distinct(members) && forall u | u in members :: LiveMember(users, u)
  }

  ghost function Memberships(group: Id, members: seq<Id>): set<(Id, Id)> {
    set u | u in members :: (group, u)
  }

  predicate GrantedTo(r: Rooms, board: Id, group: Id) {
    (board, group) in r.boardGroups
  }

  /** Every board a group has a grant on gets a new revision. */
  function InvalidateBoards(r: Rooms, group: Id): map<Id, Board> {
    map b | b in r.boards ::
      if GrantedTo(r, b, group) then r.boards[b].(revision := r.boards[b].revision + 1) else r.boards[b]
  }

  predicate ValidGroupForm(name: string, description: string) {
    && ValidText(name, 1, 80) && ValidText(description, 0, 500)
    && '\r' !in name && '\n' !in name && '\t' !in name
  }

  ghost function SaveGroup(db: DB, owner: Id, id: Id, revision: int, name: string, description: string,
          members: seq<Id>): Outcome<Id> {
    var n, d := TrimSpace(name), TrimSpace(description);
    if !ValidGroupForm(n, d) then RolledBack(GroupDetails)
    else match RequireOwner(db.accounts, owner)
      case Some(e) => RolledBack(e)
      case None =>
        match SaveGroupDetails(db.rooms, id, revision, n, d)
        case Err(e) => RolledBack(e)
        case Ok((group, saved)) =>
          if !MembersChosen(db.accounts.users, members) then RolledBack(GroupMembers)
          else Committed(db.(rooms := saved.(
            groupMembers := OtherGroups(saved.groupMembers, group) + Memberships(group, members),
            boards := InvalidateBoards(saved, group))), group)
  }

  ghost function DeleteGroup(db: DB, owner: Id, id: Id, revision: int, confirmation: string): Outcome<()> {
    match RequireOwner(db.accounts, owner)
    case Some(e) => RolledBack(e)
    case None =>
      if id !in db.rooms.groups then RolledBack(NoRows)
      else if db.rooms.groups[id].revision != revision then RolledBack(GroupConflict)
      else if confirmation != db.rooms.groups[id].name then RolledBack(GroupConfirmation)
      else
        var r := db.rooms;
        Committed(db.(rooms := r.(
          boards := InvalidateBoards(r, id),
          groups := r.groups - {id},
          groupMembers := OtherGroups(r.groupMembers, id),
          boardGroups := map k | k in r.boardGroups && k.1 != id :: r.boardGroups[k])), ())
  }

  // ----- All of them -----

  datatype Action =
    | DoSaveBoard(owner: Id, id: Id, revision: int, form: BoardForm, members: map<Id, Level>, groups: map<Id, Level>)
    | DoChangeBoard(owner: Id, id: Id, revision: int, change: BoardAction, confirmation: string)
    | DoSaveGroup(owner: Id, id: Id, revision: int, name: string, description: string, chosen: seq<Id>)
    | DoDeleteGroup(owner: Id, id: Id, revision: int, confirmation: string)

  ghost function Apply(db: DB, a: Action): DB {
    match a
    case DoSaveBoard(owner, id, revision, form, members, groups) =>
      SaveBoard(db, owner, id, revision, form, members, groups).After(db)
    case DoChangeBoard(owner, id, revision, change, confirmation) =>
      ChangeBoard(db, owner, id, revision, change, confirmation).After(db)
    case DoSaveGroup(owner, id, revision, name, description, chosen) =>
      SaveGroup(db, owner, id, revision, name, description, chosen).After(db)
    case DoDeleteGroup(owner, id, revision, confirmation) =>
      DeleteGroup(db, owner, id, revision, confirmation).After(db)
  }

  lemma ApplyFrame(db: DB, a: Action)
    ensures var after := Apply(db, a);
      after == DB(db.mode, db.accounts, after.rooms, after.content, after.events)
  {
  }
}
