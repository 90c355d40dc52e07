/** The board as a state machine: every transaction that changes the tables, one atomic step each, and
    runs of them under a clock that never goes back. */
module Machine {
  import opened Schema
  import opened Permissions
  import AccountOps
  import RoomOps
  import PostOps

  datatype Action =
    | SetMode(mode: Mode)
    | OnAccounts(account: AccountOps.Action)
    | OnRooms(room: RoomOps.Action)
    | OnPosts(post: PostOps.Action)
    | DeleteAccount(user: Id, name: string, hash: Digest)

  /** What one action commits at a given time; the database itself when it fails. */
  ghost function Apply(db: DB, a: Action, now: Time): DB {
    match a
    case SetMode(mode) => db.(mode := mode)
    case OnAccounts(account) => AccountOps.Apply(db, account, now)
    case OnRooms(room) => RoomOps.Apply(db, room)
    case OnPosts(post) => PostOps.Apply(db, post, now)
    case DeleteAccount(user, name, hash) => PostOps.DeleteAccount(db, user, name, hash).After(db)
  }

  datatype Step = At(now: Time, action: Action)

  type Run = seq<Step>

  ghost function After(db: DB, run: Run): DB
    decreases run
  {
    if run == [] then db else After(Apply(db, run[0].action, run[0].now), run[1..])
  }

  /** The clock never goes back, from `now` on. */
  ghost predicate Clocked(run: Run, now: Time) {
    run == [] || (now <= run[0].now && Clocked(run[1..], run[0].now))
  }

  // ----- The first database -----

  /** What the migrations leave in a new database: five open boards, whatever they say, and nobody there. */
  ghost predicate IsNew(db: DB) {
    && db.mode == Private
    && db.accounts == Accounts(map[], map[], map[], map[])
    && db.rooms == Rooms(db.rooms.boards, 5, map[], map[], 0, {}, map[])
    && db.rooms.boards.Keys == {1, 2, 3, 4, 5}
    && (forall b :: b in db.rooms.boards ==>
          var board := db.rooms.boards[b];
          board.position == b && !board.restricted && !board.archived && board.revision == 0)
    && db.content == Content(map[], 0, map[], 0, map[], 0)
    && db.events == []
  }
}
