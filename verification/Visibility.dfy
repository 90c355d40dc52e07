/** Who sees and who may write what, told from the rows: what the permission views come to for a visitor,
    an active member, an active owner and an account that is suspended. */
module Visibility {
  import opened Schema
  import opened Permissions
  import AccountEffects
  import GrantLaws
  import Listing
  import Machine
  import PostLaws
  import PostOps
  import Search
  import States
  import Views

  const VISITOR := Reader(0, false)

  predicate ActiveMember(a: Accounts, user: Id) {
    AccountEffects.Active(a, user) && a.users[user].role == Member
  }

  /** Some group of the account has such a grant on the board. */
  ghost predicate GroupHas(r: Rooms, board: Id, user: Id, access: Access) {
    exists g: Id :: (g, user) in r.groupMembers && (board, g) in r.boardGroups && r.boardGroups[(board, g)] == access
  }

  /** The board lets the member read: it is open to all, or their own override does, or they have none and a
      grant of some group of theirs does. */
  ghost predicate LetsRead(r: Rooms, board: Id, user: Id) {
    && board in r.boards
    && (|| !r.boards[board].restricted
        || ((board, user) in r.boardMembers && r.boardMembers[(board, user)] != NoAccess)
        || ((board, user) !in r.boardMembers
          && (GroupHas(r, board, user, ReadOnly) || GroupHas(r, board, user, Write))))
  }

  ghost predicate LetsWrite(r: Rooms, board: Id, user: Id) {
    && board in r.boards
    && (|| !r.boards[board].restricted
        || ((board, user) in r.boardMembers && r.boardMembers[(board, user)] == Write)
        || ((board, user) !in r.boardMembers && GroupHas(r, board, user, Write)))
  }

  // ----- Boards -----

  lemma NobodyIsVisitor(db: DB, board: Id)
    requires States.Valid(db)
    ensures 0 !in db.accounts.users && (board, 0) !in db.rooms.boardMembers
    ensures forall g: Id :: (g, 0) !in db.rooms.groupMembers
  {
    forall g: Id ensures (g, 0) !in db.rooms.groupMembers {
      assert (g, 0).1 == 0;
    }
    assert (board, 0).1 == 0;
  }

  lemma GroupsGive(r: Rooms, board: Id, user: Id)
    requires GrantLaws.GroupGrantsOk(r)
    ensures GroupAccess(r, board, user) == Some(Write) <==> GroupHas(r, board, user, Write)
    ensures GroupAccess(r, board, user) == None <==>
            !GroupHas(r, board, user, ReadOnly) && !GroupHas(r, board, user, Write)
    ensures GroupAccess(r, board, user) != Some(NoAccess)
  {
    forall m | m in r.groupMembers && Grants(r, board, user, m)
      ensures GroupHas(r, board, user, r.boardGroups[(board, m.0)]) && r.boardGroups[(board, m.0)] != NoAccess
    {
      var g: Id := m.0;
      assert (g, user) == m && (board, g) in r.boardGroups;
    }
    forall g: Id | (g, user) in r.groupMembers && (board, g) in r.boardGroups
      ensures Grants(r, board, user, (g, user))
    {
    }
  }

  /** A member reads what the board lets them, an owner everything, a visitor what is not restricted, and
      somebody suspended nothing. */
  lemma WhoSeesBoard(db: DB, board: Id, u: Id)
    requires States.Valid(db)
    ensures VisibleBoard(db, VISITOR, board) <==> board in db.rooms.boards && !db.rooms.boards[board].restricted
    ensures ActiveMember(db.accounts, u)
      ==> (VisibleBoard(db, Reader(u, false), board) <==> LetsRead(db.rooms, board, u))
    ensures AccountEffects.ActiveOwner(db.accounts, u) ==>
              (VisibleBoard(db, Reader(u, true), board) <==> board in db.rooms.boards)
    ensures u in db.accounts.users && db.accounts.users[u].suspended ==>
              forall owner :: !VisibleBoard(db, Reader(u, owner), board)
  {
    NobodyIsVisitor(db, board);
    GroupsGive(db.rooms, board, u);
    GroupsGive(db.rooms, board, 0);
  }

  // ----- Conversations -----

  /** A visitor sees a conversation if and only if it is public and its board is not restricted. */
  lemma VisitorsSee(db: DB, t: Id)
    requires States.Valid(db)
    ensures VisibleTopic(db, VISITOR, t) <==>
            && t in db.content.topics && db.content.topics[t].audience == Public
            && db.content.topics[t].board in db.rooms.boards
            && !db.rooms.boards[db.content.topics[t].board].restricted
  {
    if t in db.content.topics {
      WhoSeesBoard(db, db.content.topics[t].board, 0);
    }
  }

  /** An active member sees one if and only if it is not for owners and its board lets them read. */
  lemma MembersSee(db: DB, u: Id, t: Id)
    requires States.Valid(db) && ActiveMember(db.accounts, u)
    ensures VisibleTopic(db, Reader(u, false), t) <==>
            && t in db.content.topics && db.content.topics[t].audience in {Public, Audience.Members}
            && LetsRead(db.rooms, db.content.topics[t].board, u)
  {
    if t in db.content.topics {
      WhoSeesBoard(db, db.content.topics[t].board, u);
    }
  }

  /** An active owner sees them all. */
  lemma OwnersSee(db: DB, u: Id, t: Id)
    requires States.Valid(db) && AccountEffects.ActiveOwner(db.accounts, u)
    ensures VisibleTopic(db, Reader(u, true), t) <==> t in db.content.topics
  {
    if t in db.content.topics {
      WhoSeesBoard(db, db.content.topics[t].board, u);
      assert PostLaws.TopicOk(db.content, db.accounts.users, db.rooms.boards.Keys, t);
    }
  }

  /** Somebody suspended, and so somebody deleted, sees none. */
  lemma SuspendedSeeNothing(db: DB, u: Id, owner: bool, t: Id)
    requires u in db.accounts.users && (db.accounts.users[u].suspended)
    ensures !VisibleTopic(db, Reader(u, owner), t)
  {
  }

  /** The site's gate lets everyone read an open site, everyone with an account a private one, and only owners a
      personal one. */
  lemma GateLetsRead(mode: Mode, user: Option<User>)
    ensures CanRead(mode, user) <==> match mode
              case Open => true
              case Private => user.Some?
              case Personal => user.Some? && user.value.role == Owner
  {
  }

  // ----- Writing -----

  /** Who may post on a board: an active account, an owner if the site is personal, on a board that is not
      archived and that lets them write if they are no owner. */
  lemma WhoMayPost(db: DB, board: Id, u: Id)
    requires States.Valid(db)
    ensures BoardForWriter(db, board, u) == None <==>
            && AccountEffects.Active(db.accounts, u) && board in db.rooms.boards && !db.rooms.boards[board].archived
            && (|| db.accounts.users[u].role == Owner
                || (db.mode != Personal && LetsWrite(db.rooms, board, u)))
  {
    GroupsGive(db.rooms, board, u);
    if u in db.accounts.users {
      assert u >= 1;
    }
  }

  /** The audience a conversation started now has: owners on a personal site; on others members if the board is
      restricted or the site is private, and everyone if neither is so. */
  lemma AudienceIs(board: Board, mode: Mode)
    ensures BoardAudience(board, mode) == Owners <==> mode == Personal
    ensures BoardAudience(board, mode) == Audience.Members
      <==> mode == Private || (mode == Mode.Open && board.restricted)
    ensures BoardAudience(board, mode) == Public <==> mode == Mode.Open && !board.restricted
  {
  }

  /** Changing the mode decides who may write and for whom, at once, and leaves what everyone sees of what is
      there already as it was. */
  lemma ModeDecides(db: DB, mode: Mode, now: Time, board: Id, u: Id, reader: Reader, t: Id)
    requires States.Valid(db)
    ensures var after := Machine.Apply(db, Machine.SetMode(mode), now);
      && after.mode == mode && (after.accounts, after.rooms, after.content) == (db.accounts, db.rooms, db.content)
      && (VisibleTopic(after, reader, t) <==> VisibleTopic(db, reader, t))
      && (BoardForWriter(after, board, u) == None <==>
            && AccountEffects.Active(db.accounts, u) && board in db.rooms.boards && !db.rooms.boards[board].archived
            && (|| db.accounts.users[u].role == Owner
                || (mode != Personal && LetsWrite(db.rooms, board, u))))
  {
    WhoMayPost(Machine.Apply(db, Machine.SetMode(mode), now), board, u);
  }

  // ----- The feed and search -----

  /** A message a feed can list: not removed, on a board that is not archived. */
  ghost predicate Current(db: DB, p: Id) {
    && p in db.content.posts && !db.content.posts[p].removed && db.content.posts[p].topic in db.content.topics
    && db.content.topics[db.content.posts[p].topic].board in db.rooms.boards
    && !db.rooms.boards[db.content.topics[db.content.posts[p].topic].board].archived
  }

  lemma FeedIsOfCurrent(db: DB, reader: Reader, p: Id)
    ensures p in Views.Feed(db, reader) <==> Current(db, p) && VisibleTopic(db, reader, db.content.posts[p].topic)
  {
  }

  /** A visitor's feed has the public messages of unrestricted boards, a member's those of boards that let them
      read but for what is for owners, and an owner's everything. */
  lemma FeedsShow(db: DB, u: Id, p: Id)
    requires States.Valid(db)
    ensures p in Views.Feed(db, VISITOR) <==>
            && Current(db, p)
            && var t := db.content.topics[db.content.posts[p].topic];
               t.audience == Public && !db.rooms.boards[t.board].restricted
    ensures ActiveMember(db.accounts, u) ==> (p in Views.Feed(db, Reader(u, false)) <==>
            && Current(db, p)
            && var t := db.content.topics[db.content.posts[p].topic];
               t.audience in {Public, Audience.Members} && LetsRead(db.rooms, t.board, u))
    ensures AccountEffects.ActiveOwner(db.accounts, u) ==> (p in Views.Feed(db, Reader(u, true)) <==> Current(db, p))
  {
    FeedIsOfCurrent(db, VISITOR, p);
    FeedIsOfCurrent(db, Reader(u, false), p);
    FeedIsOfCurrent(db, Reader(u, true), p);
    if Current(db, p) {
      var t := db.content.posts[p].topic;
      VisitorsSee(db, t);
      if ActiveMember(db.accounts, u) {
        MembersSee(db, u, t);
      }
      if AccountEffects.ActiveOwner(db.accounts, u) {
        OwnersSee(db, u, t);
      }
    }
  }

  /** It has each of them once, newest first, and of two of the same time the one posted later. */
  lemma FeedIsNewestFirst(db: DB, reader: Reader, i: nat, j: nat)
    requires i < j < |Views.FeedList(db, reader)|
    ensures var list, posts := Views.FeedList(db, reader), db.content.posts;
      && list[i] in posts && list[j] in posts
      && (|| posts[list[i]].createdAt > posts[list[j]].createdAt
          || (posts[list[i]].createdAt == posts[list[j]].createdAt && list[i] > list[j]))
  {
    var key, list := Views.NewestFirst(db.content.posts), Views.FeedList(db, reader);
    Views.FeedIsDistinguished(db, reader);
    Listing.SortedListsAll(key, Views.Feed(db, reader));
    assert list[i] in Views.Feed(db, reader) && list[j] in Views.Feed(db, reader);
    assert Listing.Before(key(list[i]), key(list[j]));
  }

  /** A row of the feed shows the message and where it is; its author's name, unless that account was deleted;
      its number; and what the reader may do there. */
  lemma FeedRowShows(db: DB, reader: Reader, p: Id)
    requires p in Views.Feed(db, reader)
    ensures var row, post := Views.RowOf(db, reader, p), db.content.posts[p];
      var topic := db.content.topics[post.topic];
      && (row.id, row.topic, row.author, row.body) == (p, post.topic, post.author, post.body)
      && (row.createdAt, row.editedAt, row.revision) == (post.createdAt, post.editedAt, post.revision)
      && (row.title, row.audience, row.board) == (topic.title, topic.audience, topic.board)
      && (row.boardName, row.restricted)
         == (db.rooms.boards[topic.board].name, db.rooms.boards[topic.board].restricted)
      && row.number == |set q | q in db.content.posts && db.content.posts[q].topic == post.topic && q <= p|
      && (post.author in db.accounts.users ==>
            row.authorName == if db.accounts.users[post.author].deleted then "Former member"
                              else db.accounts.users[post.author].name)
  {
    assert (set q | q in db.content.posts && db.content.posts[q].topic == db.content.posts[p].topic && q <= p)
        == PostOps.Upto(db.content.posts, db.content.posts[p].topic, p);
  }

  /** ... which is to write for an owner and for a member the board lets write, and else to read. */
  lemma FeedRowShowsAccess(db: DB, u: Id, p: Id)
    requires States.Valid(db) && p in db.content.posts && db.content.posts[p].topic in db.content.topics
    ensures var board := db.content.topics[db.content.posts[p].topic].board;
      && (p in Views.Feed(db, VISITOR) ==> Views.RowOf(db, VISITOR, p).access == ReadOnly)
      && (p in Views.Feed(db, Reader(u, true)) ==> Views.RowOf(db, Reader(u, true), p).access == Write)
      && (ActiveMember(db.accounts, u) && p in Views.Feed(db, Reader(u, false)) ==>
            Views.RowOf(db, Reader(u, false), p).access == if LetsWrite(db.rooms, board, u) then Write else ReadOnly)
  {
    var board := db.content.topics[db.content.posts[p].topic].board;
    NobodyIsVisitor(db, board);
    GroupsGive(db.rooms, board, u);
    GroupsGive(db.rooms, board, 0);
  }

  /** The query is in the title or in a message not removed. */
  ghost predicate Says(c: Content, t: Id, query: string)
    requires t in c.topics
  {
    || Search.Contains(c.topics[t].title, query)
    || exists p ::
         && p in c.posts && c.posts[p].topic == t && !c.posts[p].removed
         && Search.Contains(c.posts[p].body, query)
  }

  /** A visitor's search finds public conversations on unrestricted boards that say the query, a member's those on
      boards that let them read but for what is for owners, and an owner's all that do. */
  lemma SearchesFind(db: DB, u: Id, query: string, t: Id)
    requires States.Valid(db) && t in db.content.topics
    ensures t in Views.Found(db, VISITOR, query) <==>
            && db.content.topics[t].audience == Public && db.content.topics[t].board in db.rooms.boards
            && !db.rooms.boards[db.content.topics[t].board].restricted && Says(db.content, t, query)
    ensures ActiveMember(db.accounts, u) ==> (t in Views.Found(db, Reader(u, false), query) <==>
            && db.content.topics[t].audience in {Public, Audience.Members}
            && LetsRead(db.rooms, db.content.topics[t].board, u) && Says(db.content, t, query))
    ensures AccountEffects.ActiveOwner(db.accounts, u) ==>
            (t in Views.Found(db, Reader(u, true), query) <==> Says(db.content, t, query))
  {
    Views.SearchFindsLiterally(db, VISITOR, query, t);
    Views.SearchFindsLiterally(db, Reader(u, false), query, t);
    Views.SearchFindsLiterally(db, Reader(u, true), query, t);
    VisitorsSee(db, t);
    if ActiveMember(db.accounts, u) {
      MembersSee(db, u, t);
    }
    if AccountEffects.ActiveOwner(db.accounts, u) {
      OwnersSee(db, u, t);
    }
  }
}
