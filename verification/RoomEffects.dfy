/** What the transactions on boards and groups do, row by row: when each of them commits, which rows it
    leaves changed and how, and that every other row is as it was. */
module RoomEffects {
  import opened Schema
  import opened RoomOps
  import AccountEffects
  import PermissionLaws
  import PostOps

  /** Text of a form: so many characters, none of them NUL. */
  predicate IsText(s: string, min: nat, max: nat) {
    min <= |s| <= max && 0 as char !in s
  }

  /** The rows of `before` that are not about `board`, and no others. */
  ghost predicate OthersKept(before: map<(Id, Id), Access>, after: map<(Id, Id), Access>, board: Id) {
    forall k: (Id, Id) :: k.0 != board ==> (k in after <==> k in before) && (k in after ==> after[k] == before[k])
  }

  ghost predicate NoneOn(rows: map<(Id, Id), Access>, board: Id) {
    forall k :: k in rows ==> k.0 != board
  }

  /** No board but `board` differs; it may have come or gone. */
  ghost predicate OnlyBoard(before: map<Id, Board>, after: map<Id, Board>, board: Id) {
    forall b :: b != board ==> (b in after <==> b in before) && (b in after ==> after[b] == before[b])
  }

  /** Each group has one revision more for a grant on `board` it had, and one more for one it has now. */
  ghost predicate Renumbered(before: Rooms, after: Rooms, board: Id) {
    && after.groups.Keys == before.groups.Keys
    && forall g :: g in before.groups ==>
         && after.groups[g].name == before.groups[g].name
         && after.groups[g].description == before.groups[g].description
         && after.groups[g].revision == before.groups[g].revision
              + (if (board, g) in before.boardGroups then 1 else 0) + (if (board, g) in after.boardGroups then 1 else 0)
  }

  predicate IsLiveMember(users: map<Id, User>, u: Id) {
    u in users && !users[u].deleted && users[u].role == Member
  }

  /** Everyone named is a live member, with a level or without one. */
  ghost predicate MembersFit(users: map<Id, User>, members: map<Id, Level>) {
    forall u :: u in members ==> IsLiveMember(users, u) && members[u] != Unknown
  }

  /** Every group named is there, with a level. */
  ghost predicate GroupsFit(groups: map<Id, Group>, form: map<Id, Level>) {
    forall g :: g in form ==> g in groups && form[g].Level?
  }

  // ----- Saving a board -----

  lemma FormsFit(users: map<Id, User>, groups: map<Id, Group>, members: map<Id, Level>, form: map<Id, Level>)
    ensures MembersFit(users, members) <==> MembersAllowed(users, members)
    ensures GroupsFit(groups, form) <==> GroupsAllowed(groups, form)
  {
  }

  /** Only an active owner saves a board, from a valid form that is current, that gives levels to live members
      and to groups that exist. */
  lemma SavesBoardExactly(db: DB, owner: Id, id: Id, revision: int, f: BoardForm, members: map<Id, Level>,
                          groups: map<Id, Level>)
    ensures SaveBoard(db, owner, id, revision, f, members, groups).Committed? <==>
            && IsText(f.name, 1, 80) && IsText(f.category, 1, 80) && IsText(f.description, 0, 500)
            && SingleLine(f.name) && SingleLine(f.category)
            && AccountEffects.ActiveOwner(db.accounts, owner)
            && (id != 0 ==> id in db.rooms.boards && db.rooms.boards[id].revision == revision)
            && MembersFit(db.accounts.users, members) && GroupsFit(db.rooms.groups, groups)
  {
    FormsFit(db.accounts.users, db.rooms.groups, members, groups);
  }

  /** The board is what the form says; a new one has a number never used and comes last. Nothing but its own
      row, its grants and its groups' revisions changes. */
  lemma BoardIsSaved(db: DB, owner: Id, id: Id, revision: int, f: BoardForm, members: map<Id, Level>,
                     groups: map<Id, Level>)
    requires SaveBoard(db, owner, id, revision, f, members, groups).Committed?
    ensures var o := SaveBoard(db, owner, id, revision, f, members, groups);
      var r, after := db.rooms, o.db.rooms;
      && o.db == db.(rooms := after)
      && OnlyBoard(r.boards, after.boards, o.value) && o.value in after.boards
      && (id != 0 ==> o.value == id && id in r.boards && after.lastBoard == r.lastBoard)
      && (id == 0 ==> o.value == after.lastBoard == r.lastBoard + 1)
      && after.boards[o.value] == Board(
           category := f.category, name := f.name, description := f.description, restricted := f.restricted,
           position := after.boards[o.value].position,
           archived := id != 0 && r.boards[id].archived, revision := if id == 0 then 0 else r.boards[id].revision + 1)
      && (if id == 0 then forall b :: b in r.boards ==> r.boards[b].position < after.boards[o.value].position
          else after.boards[id].position == r.boards[id].position)
      && after.groupMembers == r.groupMembers && after.lastGroup == r.lastGroup
  {
  }

  /** The rows on `board` are the levels a form gives; with `none`, no access is a row like any other. */
  ghost predicate RowsOn(rows: map<(Id, Id), Access>, board: Id, form: map<Id, Level>, none: bool) {
    forall x: Id ::
      && ((board, x) in rows <==> x in form && form[x].Level? && (none || form[x].access != NoAccess))
      && ((board, x) in rows ==> form[x] == Level(rows[(board, x)]))
  }

  /** The overrides and grants on a board are those a form spells out, and those on other boards as they were. */
  ghost predicate Granted(r: Rooms, after: Rooms, board: Id, members: map<Id, Level>, groups: map<Id, Level>) {
    && OthersKept(r.boardMembers, after.boardMembers, board) && OthersKept(r.boardGroups, after.boardGroups, board)
    && RowsOn(after.boardMembers, board, members, true) && RowsOn(after.boardGroups, board, groups, false)
    && Renumbered(r, after, board)
  }

  lemma PairIsThere(board: Id, ids: set<Id>)
    ensures forall x: Id :: (board, x) in Pairs(board, ids) <==> x in ids
  {
    forall x: Id ensures (board, x) in Pairs(board, ids) <==> x in ids {
      assert (board, x).0 == board && (board, x).1 == x;
    }
  }

  lemma OverridesAre(rows: map<(Id, Id), Access>, board: Id, form: map<Id, Level>)
    ensures var after := OtherBoards(rows, board) + Overrides(board, form);
      OthersKept(rows, after, board) && RowsOn(after, board, form, true)
  {
    PairIsThere(board, form.Keys);
  }

  lemma GroupGrantsAre(rows: map<(Id, Id), Access>, board: Id, form: map<Id, Level>)
    ensures var after := OtherBoards(rows, board) + GroupGrants(board, form);
      OthersKept(rows, after, board) && RowsOn(after, board, form, false)
  {
    PairIsThere(board, form.Keys);
  }

  lemma RegrantedIsGranted(r: Rooms, board: Id, members: map<Id, Level>, groups: map<Id, Level>)
    ensures Granted(r, Regrant(r, board, members, groups), board, members, groups)
  {
    OverridesAre(r.boardMembers, board, members);
    GroupGrantsAre(r.boardGroups, board, groups);
  }

  lemma SavedIsRegranted(db: DB, owner: Id, id: Id, revision: int, f: BoardForm, members: map<Id, Level>,
                         groups: map<Id, Level>, board: Id, saved: Rooms)
    requires SaveBoard(db, owner, id, revision, f, members, groups).Committed?
    requires SaveDetails(db.rooms, id, revision, f) == Ok((board, saved))
    ensures var o := SaveBoard(db, owner, id, revision, f, members, groups);
      o.value == board && o.db.rooms == Regrant(saved, board, members, groups)
  {
  }

  lemma DetailsLeaveGrants(r: Rooms, id: Id, revision: int, f: BoardForm, board: Id, saved: Rooms)
    requires SaveDetails(r, id, revision, f) == Ok((board, saved))
    ensures (saved.boardMembers, saved.boardGroups, saved.groups) == (r.boardMembers, r.boardGroups, r.groups)
  {
  }

  lemma SameGranted(r: Rooms, saved: Rooms, after: Rooms, board: Id, members: map<Id, Level>, groups: map<Id, Level>)
    requires (saved.boardMembers, saved.boardGroups, saved.groups) == (r.boardMembers, r.boardGroups, r.groups)
    requires Granted(saved, after, board, members, groups)
    ensures Granted(r, after, board, members, groups)
  {
  }

  lemma BoardIsSavedWithGrants(db: DB, owner: Id, id: Id, revision: int, f: BoardForm, members: map<Id, Level>,
                               groups: map<Id, Level>)
    requires SaveBoard(db, owner, id, revision, f, members, groups).Committed?
    ensures var o := SaveBoard(db, owner, id, revision, f, members, groups);
      Granted(db.rooms, o.db.rooms, o.value, members, groups)
  {
    var (board, saved) := SaveDetails(db.rooms, id, revision, f).value;
    SavedIsRegranted(db, owner, id, revision, f, members, groups, board, saved);
    DetailsLeaveGrants(db.rooms, id, revision, f, board, saved);
    RegrantedIsGranted(saved, board, members, groups);
    SameGranted(db.rooms, saved, Regrant(saved, board, members, groups), board, members, groups);
  }

  // ----- Archiving, restoring and deleting a board -----

  /** An active owner changes a board that is there, from a form that is current: archives one that is not
      archived, restores one that is, or deletes one by its name. */
  lemma ChangesBoardExactly(db: DB, owner: Id, board: Id, revision: int, action: BoardAction, confirmation: string)
    ensures ChangeBoard(db, owner, board, revision, action, confirmation).Committed? <==>
            && AccountEffects.ActiveOwner(db.accounts, owner)
            && board in db.rooms.boards && db.rooms.boards[board].revision == revision
            && (|| (action == Archive && !db.rooms.boards[board].archived)
                || (action == Restore && db.rooms.boards[board].archived)
                || (action == Delete && confirmation == db.rooms.boards[board].name))
  {
  }

  /** Archiving sets the flag and restoring clears it; nothing else changes but the revision. */
  lemma BoardIsArchived(db: DB, owner: Id, board: Id, revision: int, action: BoardAction, confirmation: string)
    requires ChangeBoard(db, owner, board, revision, action, confirmation).Committed? && action != Delete
    ensures var after := ChangeBoard(db, owner, board, revision, action, confirmation).db;
      && board in db.rooms.boards
      && (action == Archive || action == Restore)
      && after == db.(rooms := db.rooms.(boards := db.rooms.boards[board :=
           db.rooms.boards[board].(archived := action == Archive, revision := revision + 1)]))
  {
  }

  /** Deleting takes the board's row and grants, its conversations, their messages and those messages' images
      away, and nothing else; what the log says stays, without links to messages that are gone. */
  lemma BoardIsDeleted(db: DB, owner: Id, board: Id, revision: int, confirmation: string)
    requires ChangeBoard(db, owner, board, revision, Delete, confirmation).Committed?
    ensures var after := ChangeBoard(db, owner, board, revision, Delete, confirmation).db;
      && after == DB(db.mode, db.accounts, after.rooms, after.content, after.events)
      && board !in after.rooms.boards && OnlyBoard(db.rooms.boards, after.rooms.boards, board)
      && NoneOn(after.rooms.boardMembers, board) && NoneOn(after.rooms.boardGroups, board)
      && OthersKept(db.rooms.boardMembers, after.rooms.boardMembers, board)
      && OthersKept(db.rooms.boardGroups, after.rooms.boardGroups, board)
      && Renumbered(db.rooms, after.rooms, board)
      && after.rooms.groupMembers == db.rooms.groupMembers
      && after.rooms.lastBoard == db.rooms.lastBoard && after.rooms.lastGroup == db.rooms.lastGroup
  {
  }

  /** A message is on a board through its conversation. */
  ghost predicate IsOn(c: Content, p: Id, board: Id) {
    p in c.posts && c.posts[p].topic in c.topics && c.topics[c.posts[p].topic].board == board
  }

  lemma ContentIsDeleted(db: DB, owner: Id, board: Id, revision: int, confirmation: string)
    requires ChangeBoard(db, owner, board, revision, Delete, confirmation).Committed?
    ensures var c, after := db.content, ChangeBoard(db, owner, board, revision, Delete, confirmation).db.content;
      && (forall t :: t in after.topics <==> t in c.topics && c.topics[t].board != board)
      && (forall t :: t in after.topics ==> after.topics[t] == c.topics[t])
      && (forall p :: p in after.posts <==> p in c.posts && !IsOn(c, p, board))
      && (forall p :: p in after.posts ==> after.posts[p] == c.posts[p])
      && (forall a :: a in after.attachments <==>
            a in c.attachments && c.attachments[a].post in c.posts && !IsOn(c, c.attachments[a].post, board))
      && (forall a :: a in after.attachments ==> after.attachments[a] == c.attachments[a])
      && (after.lastTopic, after.lastPost, after.lastAttachment) == (c.lastTopic, c.lastPost, c.lastAttachment)
  {
  }

  lemma LogIsUnlinked(db: DB, owner: Id, board: Id, revision: int, confirmation: string)
    requires ChangeBoard(db, owner, board, revision, Delete, confirmation).Committed?
    ensures var after := ChangeBoard(db, owner, board, revision, Delete, confirmation).db;
      && |after.events| == |db.events|
      && forall i :: 0 <= i < |db.events| ==>
           var e := db.events[i];
           after.events[i] == e.(post := if e.post.Some? && e.post.value !in after.content.posts then None else e.post)
  {
    forall i | 0 <= i < |db.events| ensures db.events[i].(post := db.events[i].post) == db.events[i] {
    }
  }

  /** While a board is archived nobody starts a conversation on it, replies or edits there, owners included. */
  lemma ArchivedBoardIsClosed(db: DB, board: Id, author: Id, title: string, body: string, audience: Audience,
                              images: seq<Image>, topic: Id, id: Id, revision: int, now: Time)
    requires board in db.rooms.boards && db.rooms.boards[board].archived
    ensures PostOps.CreateTopic(db, board, author, title, body, audience, images, now).RolledBack?
    ensures topic in db.content.topics && db.content.topics[topic].board == board ==>
              PostOps.AddReply(db, topic, author, body, images, now).RolledBack?
    ensures IsOn(db.content, id, board) ==> PostOps.EditPost(db, id, author, body, revision, now).RolledBack?
  {
    PermissionLaws.EditSucceedsExactly(db, id, author, body, revision, now);
  }

  // ----- Groups -----

  /** Boards with a grant to the group have one revision more, and nothing else about boards differs. */
  ghost predicate Invalidated(before: Rooms, after: Rooms, group: Id) {
    && after.boards.Keys == before.boards.Keys && after.lastBoard == before.lastBoard
    && after.boardMembers == before.boardMembers
    && forall b :: b in before.boards ==>
         after.boards[b] == before.boards[b].(
           revision := before.boards[b].revision + if (b, group) in before.boardGroups then 1 else 0)
  }

  /** Only an active owner saves a group, from a valid form that is current, under a name no other group has,
      with live members, each named once. */
  lemma SavesGroupExactly(db: DB, owner: Id, id: Id, revision: int, name: string, description: string,
                          members: seq<Id>)
    ensures SaveGroup(db, owner, id, revision, name, description, members).Committed? <==>
            && IsText(TrimSpace(name), 1, 80) && IsText(TrimSpace(description), 0, 500)
            && (forall c :: c in {'\r', '\n', '\t'} ==> c !in TrimSpace(name))
            && AccountEffects.ActiveOwner(db.accounts, owner)
            && (id != 0 ==> id in db.rooms.groups && db.rooms.groups[id].revision == revision)
            && (forall g :: g in db.rooms.groups && g != id ==>
                  Folded(db.rooms.groups[g].name) != Folded(TrimSpace(name)))
            && (forall i, j :: 0 <= i < j < |members| ==> members[i] != members[j])
            && (forall u :: u in members ==> IsLiveMember(db.accounts.users, u))
  {
  }

  /** The group has the name and description of its form, and exactly the members chosen. */
  lemma GroupIsSaved(db: DB, owner: Id, id: Id, revision: int, name: string, description: string, members: seq<Id>)
    requires SaveGroup(db, owner, id, revision, name, description, members).Committed?
    ensures var o := SaveGroup(db, owner, id, revision, name, description, members);
      var r, after := db.rooms, o.db.rooms;
      && o.db == db.(rooms := after)
      && after.groups == r.groups[o.value := Group(
           name := TrimSpace(name), description := TrimSpace(description),
           revision := if id == 0 then 0 else revision + 1)]
      && (id != 0 ==> o.value == id && after.lastGroup == r.lastGroup)
      && (id == 0 ==> o.value == after.lastGroup == r.lastGroup + 1)
      && (forall u: Id :: (o.value, u) in after.groupMembers <==> u in members)
      && (forall m: (Id, Id) :: m.0 != o.value ==> (m in after.groupMembers <==> m in r.groupMembers))
      && after.boardGroups == r.boardGroups
      && Invalidated(r, after, o.value)
  {
  }

  lemma DeletesGroupExactly(db: DB, owner: Id, id: Id, revision: int, confirmation: string)
    ensures DeleteGroup(db, owner, id, revision, confirmation).Committed? <==>
            && AccountEffects.ActiveOwner(db.accounts, owner)
            && id in db.rooms.groups && db.rooms.groups[id].revision == revision
            && confirmation == db.rooms.groups[id].name
  {
  }

  /** The group, its members and its grants are gone, and everything else is as it was but for the revisions of
      the boards it had grants on. */
  lemma GroupIsDeleted(db: DB, owner: Id, id: Id, revision: int, confirmation: string)
    requires DeleteGroup(db, owner, id, revision, confirmation).Committed?
    ensures var after := DeleteGroup(db, owner, id, revision, confirmation).db;
      var r := after.rooms;
      && after == db.(rooms := r)
      && (forall g :: g in r.groups <==> g in db.rooms.groups && g != id)
      && (forall g :: g in r.groups ==> r.groups[g] == db.rooms.groups[g]) && r.lastGroup == db.rooms.lastGroup
      && (forall m :: m in r.groupMembers <==> m in db.rooms.groupMembers && m.0 != id)
      && (forall k :: k in r.boardGroups <==> k in db.rooms.boardGroups && k.1 != id)
      && (forall k :: k in r.boardGroups ==> r.boardGroups[k] == db.rooms.boardGroups[k])
      && Invalidated(db.rooms, r, id)
  {
  }
}
