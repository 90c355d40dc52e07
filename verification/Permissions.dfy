/** Who may read and write what: the permission views and the checks built on them. */
module Permissions {
  import opened Schema

  /** Who is asking, as the views see it: user 0 is a visitor without an account. */
  datatype Reader = Reader(id: Id, owner: bool)

  function RequireActive(a: Accounts, user: Id): Option<Error> {
    if user !in a.users then Some(NoRows)
    else if a.users[user].suspended then Some(Suspended)
    else None
  }

  function RequireOwner(a: Accounts, user: Id): Option<Error> {
    match RequireActive(a, user)
    case Some(e) => Some(e)
    case None => if a.users[user].role == Owner then None else Some(NotOwner)
  }

  function ReaderOf(a: Accounts, user: Id): Reader
    requires user in a.users
  {
    Reader(user, a.users[user].role == Owner)
  }

  // ----- Boards -----

  predicate Grants(r: Rooms, board: Id, user: Id, membership: (Id, Id)) {
    membership.1 == user && (board, membership.0) in r.boardGroups
  }

  /** The strongest grant a user's groups have on a board, if any of them has one. */
  function GroupAccess(r: Rooms, board: Id, user: Id): Option<Access> {
    if exists m | m in r.groupMembers :: Grants(r, board, user, m) && r.boardGroups[(board, m.0)] == Write
    then Some(Write)
    else if exists m | m in r.groupMembers :: Grants(r, board, user, m) then Some(ReadOnly)
    else None
  }

  /** Owners write everywhere; an unrestricted board is open to all; on a restricted one an individual
      override comes before any group grant, and without either the board is closed. */
  function BoardAccess(r: Rooms, board: Id, reader: Reader): Access
    requires board in r.boards
  {
    if reader.owner || (!r.boards[board].restricted && reader.id != 0) then Write
    else if !r.boards[board].restricted then ReadOnly
    else if (board, reader.id) in r.boardMembers then r.boardMembers[(board, reader.id)]
    else match GroupAccess(r, board, reader.id)
      case Some(access) => access
      case None => NoAccess
  }

  /** The views have no rows for a suspended reader. */
  predicate Admitted(a: Accounts, reader: Reader) {
    !(reader.id in a.users && a.users[reader.id].suspended)
  }

  predicate VisibleBoard(db: DB, reader: Reader, board: Id) {
    board in db.rooms.boards && Admitted(db.accounts, reader) && BoardAccess(db.rooms, board, reader) != NoAccess
  }

  predicate Hears(audience: Audience, reader: Reader) {
    audience == Public || (reader.id != 0 && audience == Members) || reader.owner
  }

  predicate VisibleTopic(db: DB, reader: Reader, topic: Id) {
    && topic in db.content.topics
    && VisibleBoard(db, reader, db.content.topics[topic].board)
    && Hears(db.content.topics[topic].audience, reader)
  }

  /** A message that is not removed, in a conversation the reader can see. */
  predicate ReadablePost(db: DB, reader: Reader, post: Id) {
    && post in db.content.posts
    && !db.content.posts[post].removed
    && VisibleTopic(db, reader, db.content.posts[post].topic)
  }

  // ----- Audiences -----

  function ModeAudience(mode: Mode): Audience {
    match mode
    case Personal => Owners
    case Open => Public
    case Private => Members
  }

  function BoardAudience(board: Board, mode: Mode): Audience {
    if board.restricted && mode != Personal then Members else ModeAudience(mode)
  }

  // ----- Writing -----

  /** The site gate on reading, for a request by `user`. */
  predicate CanRead(mode: Mode, user: Option<User>) {
    mode == Open || (user.Some? && (mode == Private || user.value.role == Owner))
  }

  function CanWrite(db: DB, author: Id): Option<Error> {
    match RequireActive(db.accounts, author)
    case Some(e) => Some(e)
    case None =>
      if db.mode == Personal && db.accounts.users[author].role != Owner then Some(PersonalMode) else None
  }

  function BoardWriteError(access: Access, archived: bool): Option<Error> {
    if archived then Some(ArchivedBoard)
    else if access != Write then Some(ReadOnlyBoard)
    else None
  }

  function BoardForWriter(db: DB, board: Id, author: Id): Option<Error> {
    match CanWrite(db, author)
    case Some(e) => Some(e)
    case None =>
      var reader := ReaderOf(db.accounts, author);
      if !VisibleBoard(db, reader, board) then Some(NoRows)
      else BoardWriteError(BoardAccess(db.rooms, board, reader), db.rooms.boards[board].archived)
  }

  // ----- The owner's group report -----

  /** What the report says a group member can do on a board: the second permission calculation. */
  function Effective(db: DB, board: Id, user: Id): Access
    requires board in db.rooms.boards && user in db.accounts.users
  {
    var u := db.accounts.users[user];
    var access := BoardAccess(db.rooms, board, Reader(user, u.role == Owner));
    if u.suspended || (db.mode == Personal && u.role != Owner) then NoAccess
    else if db.rooms.boards[board].archived && access != NoAccess then ReadOnly
    else access
  }

  /** The user a signed-in request carries: a suspended account has no session to sign in with. */
  function SignedIn(a: Accounts, user: Id): Option<User>
    requires user in a.users
  {
    if a.users[user].suspended then None else Some(a.users[user])
  }

  /** The two calculations agree, for every member, board, mode, archive flag, override and set of
      overlapping grants: the report says write exactly when the member could post there, and none
      exactly when the account is shut out, the site gate refuses or the board is hidden. */
  lemma ReportAgrees(db: DB, board: Id, user: Id)
    requires board in db.rooms.boards && user in db.accounts.users
    ensures Effective(db, board, user) == Write <==> BoardForWriter(db, board, user) == None
    ensures Effective(db, board, user) == NoAccess <==>
            (|| SignedIn(db.accounts, user) == None
             || !CanRead(db.mode, SignedIn(db.accounts, user))
             || !VisibleBoard(db, ReaderOf(db.accounts, user), board))
    ensures Effective(db, board, user) == ReadOnly <==>
            && SignedIn(db.accounts, user).Some? && CanRead(db.mode, SignedIn(db.accounts, user))
            && VisibleBoard(db, ReaderOf(db.accounts, user), board)
            && BoardForWriter(db, board, user) in {Some(ReadOnlyBoard), Some(ArchivedBoard)}
  {
  }
}
