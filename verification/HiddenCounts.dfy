/** Two runs from one new database that a member's export tells apart, though they differ only in which
    hidden conversation someone else's message went to. */
module HiddenCounts {
  import opened Schema
  import opened Permissions
  import opened Machine
  import AccountOps
  import Export
  import GrantLaws
  import PermissionLaws
  import PostOps
  import RoomOps
  import States

  // ----- Single steps -----

  lemma AccountMade(db: DB, name: string, hash: Digest, role: Role, now: Time) returns (id: Id)
    requires AccountOps.ValidName(name) && !AccountOps.NameTaken(db.accounts.users, name)
    ensures id >= 1 && id !in db.accounts.users
    ensures AccountOps.CreateAccount(db, name, hash, role, now).After(db)
         == AccountOps.WithUsers(db, db.accounts.users[id := AccountOps.NewUser(name, hash, role, now)])
  {
    id := NextId(db.accounts.users.Keys);
  }

  function Posted(c: Content, topic: Id, author: Id, body: string, now: Time): Content {
    c.(posts := c.posts[c.lastPost + 1 := Post(topic, author, body, now, 0, 0, false)], lastPost := c.lastPost + 1)
  }

  lemma NoImages(c: Content, topic: Id, author: Id, body: string, now: Time)
    ensures PostOps.AddPost(c, topic, author, body, [], now) == Posted(c, topic, author, body, now)
  {
    var d := Posted(c, topic, author, body, now);
    assert PostOps.Attach(d, c.lastPost + 1, []).attachments == d.attachments;
  }

  lemma ConversationMade(db: DB, board: Id, author: Id, title: string, body: string, now: Time)
    requires BoardForWriter(db, board, author) == None
      && BoardAudience(db.rooms.boards[board], db.mode) == Audience.Members
    requires PostOps.ValidTitle(title) && PostOps.ValidBody(body)
    ensures var id, c := db.content.lastTopic + 1, db.content;
      PostOps.CreateTopic(db, board, author, title, body, Audience.Members, [], now).After(db)
      == db.(content := Posted(c.(
           topics := c.topics[id := Topic(board, author, title, now, now, Audience.Members)], lastTopic := id),
           id, author, body, now))
  {
    var id, c := db.content.lastTopic + 1, db.content;
    var started := c.(
      topics := c.topics[id := Topic(board, author, title, now, now, Audience.Members)], lastTopic := id);
    NoImages(started, id, author, body, now);
  }

  lemma Replied(db: DB, topic: Id, author: Id, body: string, now: Time)
    requires States.Valid(db) && PermissionLaws.MayReply(db, topic, author) && PostOps.ValidBody(body)
    ensures PostOps.AddReply(db, topic, author, body, [], now).After(db)
         == db.(content := Posted(db.content, topic, author, body, now).(topics :=
              db.content.topics[topic := db.content.topics[topic].(updatedAt := now)]))
  {
    PermissionLaws.ReplySucceedsExactly(db, topic, author, body, [], now);
    NoImages(db.content, topic, author, body, now);
  }

  const CLOSED := RoomOps.BoardForm("Closed", "Closed", "", true)

  lemma ClosedIsValid()
    ensures RoomOps.ValidBoardForm(CLOSED)
  {
  }

  /** Closing a board hides it from a member, and moves nothing. */
  lemma BoardClosed(db: DB, owner: Id, board: Id, member: Id) returns (rooms: Rooms)
    requires RequireOwner(db.accounts, owner) == None && board in db.rooms.boards && board != 0 && member != 0
    ensures RoomOps.SaveBoard(db, owner, board, db.rooms.boards[board].revision, CLOSED, map[], map[]).After(db)
      == db.(rooms := rooms)
    ensures board in rooms.boards && rooms.boards[board].position == db.rooms.boards[board].position
    ensures BoardAccess(rooms, board, Reader(member, false)) == NoAccess
  {
    ClosedIsValid();
    var revision := db.rooms.boards[board].revision;
    var o := RoomOps.SaveBoard(db, owner, board, revision, CLOSED, map[], map[]);
    assert o.Committed?;
    GrantLaws.SavedFormRules(db, owner, board, revision, CLOSED, map[], map[], member);
    rooms := o.db.rooms;
  }

  // ----- From a database with two open conversations -----

  ghost predicate Open(db: DB, t: Id) {
    && t in db.content.topics && db.content.topics[t].audience == Audience.Members
    && var b := db.content.topics[t].board;
       b in db.rooms.boards && !db.rooms.boards[b].restricted && !db.rooms.boards[b].archived
  }

  ghost predicate Ready(db: DB, owner: Id, member: Id) {
    && db.mode == Private
    && owner in db.accounts.users && db.accounts.users[owner].role == Owner && !db.accounts.users[owner].suspended
    && member in db.accounts.users && db.accounts.users[member].role == Member && !db.accounts.users[member].suspended
  }

  lemma MayReplyThere(db: DB, t: Id, author: Id)
    requires Open(db, t) && db.mode == Private && author in db.accounts.users && !db.accounts.users[author].suspended
    requires author != 0
    ensures PermissionLaws.MayReply(db, t, author)
  {
  }

  function Message(topic: Id, author: Id): Post {
    Post(topic, author, "Hello", 0, 0, 0, false)
  }

  /** The owner replies in one conversation, the member in another or the same, and the board is closed. */
  function Story(their: Id, mine: Id, owner: Id, member: Id, board: Id, revision: int): Run {
    [At(0, OnPosts(PostOps.DoReply(their, owner, "Hello", []))),
     At(0, OnPosts(PostOps.DoReply(mine, member, "Hello", []))),
     At(0, OnRooms(RoomOps.DoSaveBoard(owner, board, revision, CLOSED, map[], map[])))]
  }

  lemma AfterFirst(db: DB, a: Step, rest: Run)
    ensures After(db, [a] + rest) == After(Apply(db, a.action, a.now), rest)
  {
    assert ([a] + rest)[1..] == rest;
  }

  lemma AfterThree(db: DB, a: Step, b: Step, c: Step)
    ensures After(db, [a, b, c])
         == Apply(Apply(Apply(db, a.action, a.now), b.action, b.now), c.action, c.now)
  {
    var one := Apply(db, a.action, a.now);
    var two := Apply(one, b.action, b.now);
    AfterFirst(db, a, [b, c]);
    AfterFirst(one, b, [c]);
    AfterFirst(two, c, []);
    assert [a, b, c] == [a] + [b, c] && [b, c] == [b] + [c] && [c] == [c] + [];
  }

  /** What is left of the story in a database: two messages, and a board nobody but the owner sees. */
  ghost predicate Told(db: DB, end: DB, their: Id, mine: Id, owner: Id, member: Id)
    requires mine in db.content.topics
  {
    var b, last := db.content.topics[mine].board, db.content.lastPost;
    && end.accounts == db.accounts
    && b in db.rooms.boards && b in end.rooms.boards
    && end.rooms.boards[b].position == db.rooms.boards[b].position
    && BoardAccess(end.rooms, b, Reader(member, false)) == NoAccess
    && end.content.posts == db.content.posts[last + 1 := Message(their, owner)][last + 2 := Message(mine, member)]
    && mine in end.content.topics
    && end.content.topics[mine] == db.content.topics[mine].(updatedAt := end.content.topics[mine].updatedAt)
  }

  lemma MessagesPosted(db: DB, their: Id, mine: Id, owner: Id, member: Id) returns (end: DB)
    requires States.Valid(db) && Ready(db, owner, member) && Open(db, their) && Open(db, mine)
    ensures end == Apply(Apply(db, OnPosts(PostOps.DoReply(their, owner, "Hello", [])), 0),
                         OnPosts(PostOps.DoReply(mine, member, "Hello", [])), 0)
    ensures end == db.(content := end.content)
    ensures end.content.posts ==
      db.content.posts[db.content.lastPost + 1 := Message(their, owner)]
                      [db.content.lastPost + 2 := Message(mine, member)]
    ensures mine in end.content.topics
         && end.content.topics[mine] == db.content.topics[mine].(updatedAt := end.content.topics[mine].updatedAt)
  {
    MayReplyThere(db, their, owner);
    Replied(db, their, owner, "Hello", 0);
    var mid := Apply(db, OnPosts(PostOps.DoReply(their, owner, "Hello", [])), 0);
    States.StepStaysValid(db, OnPosts(PostOps.DoReply(their, owner, "Hello", [])), 0);
    assert Open(mid, mine);
    MayReplyThere(mid, mine, member);
    Replied(mid, mine, member, "Hello", 0);
    end := Apply(mid, OnPosts(PostOps.DoReply(mine, member, "Hello", [])), 0);
  }

  lemma StoryIsTold(db: DB, their: Id, mine: Id, owner: Id, member: Id) returns (end: DB)
    requires States.Valid(db) && Ready(db, owner, member) && Open(db, their) && Open(db, mine)
    ensures var b := db.content.topics[mine].board;
      end == After(db, Story(their, mine, owner, member, b, db.rooms.boards[b].revision))
    ensures Told(db, end, their, mine, owner, member)
  {
    var b := db.content.topics[mine].board;
    var story := Story(their, mine, owner, member, b, db.rooms.boards[b].revision);
    AfterThree(db, story[0], story[1], story[2]);
    var posted := MessagesPosted(db, their, mine, owner, member);
    var rooms := BoardClosed(posted, owner, b, member);
    end := posted.(rooms := rooms);
  }

  // ----- What the export tells -----

  lemma OnlyMine(db: DB, end: DB, their: Id, mine: Id, owner: Id, member: Id)
    requires mine in db.content.topics && Told(db, end, their, mine, owner, member) && owner != member
    requires forall x :: x in db.content.posts ==> db.content.posts[x].author != member && x <= db.content.lastPost
    ensures Export.OwnPosts(end, member) == {db.content.lastPost + 2}
    ensures !VisibleTopic(end, Reader(member, false), mine)
    ensures Export.OthersBefore(end.content.posts, member, db.content.lastPost + 2) ==
      (set x | x in db.content.posts && db.content.posts[x].topic == mine) +
      (if their == mine then {db.content.lastPost + 1} else {})
  {
    forall x | x in db.content.posts ensures end.content.posts[x] == db.content.posts[x] {
    }
  }

  lemma Agree(db: DB, a: DB, b: DB, their: Id, mine: Id, owner: Id, member: Id)
    requires mine in db.content.topics && owner != member
    requires Told(db, a, mine, mine, owner, member) && Told(db, b, their, mine, owner, member)
    requires forall x :: x in db.content.posts ==> db.content.posts[x].author != member && x <= db.content.lastPost
    ensures Export.AgreeFor(a, b, Reader(member, false))
  {
    OnlyMine(db, a, mine, mine, owner, member);
    OnlyMine(db, b, their, mine, owner, member);
    var reader, p := Reader(member, false), db.content.lastPost + 2;
    forall q | Export.Own(a, member, q) ensures q == p {
      assert q in Export.OwnPosts(a, member);
    }
    assert Export.SameTopicFor(a, b, reader, mine);
    assert a.content.posts[p] == b.content.posts[p];
  }

  lemma Tells(db: DB, a: DB, b: DB, their: Id, mine: Id, owner: Id, member: Id)
    requires mine in db.content.topics && owner != member && their != mine
    requires Told(db, a, mine, mine, owner, member) && Told(db, b, their, mine, owner, member)
    requires forall x :: x in db.content.posts ==> db.content.posts[x].author != member && x <= db.content.lastPost
    ensures Export.AgreeFor(a, b, Reader(member, false))
    ensures Export.MemberContributions(a, Reader(member, false)) != Export.MemberContributions(b, Reader(member, false))
  {
    Agree(db, a, b, their, mine, owner, member);
    OnlyMine(db, a, mine, mine, owner, member);
    OnlyMine(db, b, their, mine, owner, member);
    var p := db.content.lastPost + 2;
    var before := set x | x in db.content.posts && db.content.posts[x].topic == mine;
    assert db.content.lastPost + 1 !in before;
    assert p in Export.OwnPosts(a, member) && p in Export.OwnPosts(b, member);
    assert |Export.OthersBefore(a.content.posts, member, p)| == |before| + 1;
    assert Export.OthersBefore(b.content.posts, member, p) == before;
    assert !Export.SameCount(a, b, Reader(member, false), p);
    Export.ExportShowsOnlyReadable(a, b, Reader(member, false));
  }

  // ----- From a new database -----

  const OWNER_NAME := "owner"
  const MEMBER_NAME := "member"

  /** An owner, a member, and two conversations by the owner. */
  function Setup(owner: Id): Run {
    [At(0, OnAccounts(AccountOps.DoCreateOwner(OWNER_NAME, ""))),
     At(0, OnAccounts(AccountOps.DoCreateUser(MEMBER_NAME, ""))),
     At(0, OnPosts(PostOps.DoCreateTopic(1, owner, "First", "Hello", Audience.Members, []))),
     At(0, OnPosts(PostOps.DoCreateTopic(1, owner, "Second", "Hello", Audience.Members, [])))]
  }

  /** Nobody but the owner has written anything, and two conversations are open on one board. */
  ghost predicate AllSet(db: DB, owner: Id, member: Id) {
    && Ready(db, owner, member) && owner != member
    && Open(db, 1) && Open(db, 2) && db.content.topics[1].board == db.content.topics[2].board == 1
    && (forall x :: x in db.content.posts ==> db.content.posts[x].author != member && x <= db.content.lastPost)
  }

  lemma NamesDiffer()
    ensures AccountOps.ValidName(OWNER_NAME) && AccountOps.ValidName(MEMBER_NAME)
      && Folded(OWNER_NAME) != Folded(MEMBER_NAME)
  {
    assert |Folded(OWNER_NAME)| == 5 && |Folded(MEMBER_NAME)| == 6;
  }

  lemma AccountsMade(start: DB) returns (db: DB, owner: Id, member: Id)
    requires IsNew(start)
    ensures db == Apply(Apply(start, OnAccounts(AccountOps.DoCreateOwner(OWNER_NAME, "")), 0),
                        OnAccounts(AccountOps.DoCreateUser(MEMBER_NAME, "")), 0)
    ensures db == start.(accounts := db.accounts) && Ready(db, owner, member) && owner != member && owner >= 1
  {
    NamesDiffer();
    owner := AccountMade(start, OWNER_NAME, "", Owner, 0);
    var one := Apply(start, OnAccounts(AccountOps.DoCreateOwner(OWNER_NAME, "")), 0);
    member := AccountMade(one, MEMBER_NAME, "", Member, 0);
    db := Apply(one, OnAccounts(AccountOps.DoCreateUser(MEMBER_NAME, "")), 0);
  }

  lemma ConversationsMade(db: DB, owner: Id, member: Id) returns (end: DB)
    requires Ready(db, owner, member) && owner != member && owner >= 1
    requires 1 in db.rooms.boards && !db.rooms.boards[1].restricted && !db.rooms.boards[1].archived
    requires db.content == Content(map[], 0, map[], 0, map[], 0)
    ensures end == Apply(Apply(db, OnPosts(PostOps.DoCreateTopic(1, owner, "First", "Hello", Audience.Members, [])), 0),
                         OnPosts(PostOps.DoCreateTopic(1, owner, "Second", "Hello", Audience.Members, [])), 0)
    ensures AllSet(end, owner, member)
  {
    ConversationMade(db, 1, owner, "First", "Hello", 0);
    var one := Apply(db, OnPosts(PostOps.DoCreateTopic(1, owner, "First", "Hello", Audience.Members, [])), 0);
    ConversationMade(one, 1, owner, "Second", "Hello", 0);
    end := Apply(one, OnPosts(PostOps.DoCreateTopic(1, owner, "Second", "Hello", Audience.Members, [])), 0);
  }

  lemma SetUp(start: DB) returns (db: DB, owner: Id, member: Id)
    requires IsNew(start)
    ensures db == After(start, Setup(owner)) && States.Valid(db) && AllSet(db, owner, member)
  {
    var mid;
    mid, owner, member := AccountsMade(start);
    db := ConversationsMade(mid, owner, member);
    var setup := Setup(owner);
    AfterFour(start, setup[0], setup[1], setup[2], setup[3]);
    States.EveryStateIsValid(start, setup);
  }

  lemma AfterFour(db: DB, a: Step, b: Step, c: Step, d: Step)
    ensures After(db, [a, b, c, d])
         == Apply(Apply(Apply(Apply(db, a.action, a.now), b.action, b.now), c.action, c.now), d.action, d.now)
  {
    AfterFirst(db, a, [b, c, d]);
    assert [a, b, c, d] == [a] + [b, c, d];
    AfterThree(Apply(db, a.action, a.now), b, c, d);
  }

  lemma {:induction false} StandingStill(run: Run)
    requires forall i :: 0 <= i < |run| ==> run[i].now == 0
    ensures Clocked(run, 0)
    decreases run
  {
    if run != [] {
      StandingStill(run[1..]);
    }
  }

  /** The whole run: the message goes to `their` conversation. */
  function Whole(owner: Id, member: Id, their: Id, revision: int): Run {
    Setup(owner) + Story(their, 1, owner, member, 1, revision)
  }

  lemma OneStepDiffers(owner: Id, member: Id, revision: int)
    ensures var a, b := Whole(owner, member, 1, revision), Whole(owner, member, 2, revision);
      && |a| == |b| == 7 && a[4] != b[4] && (forall i | 0 <= i < 7 && i != 4 :: a[i] == b[i])
      && Clocked(a, 0) && Clocked(b, 0)
  {
    StandingStill(Whole(owner, member, 1, revision));
    StandingStill(Whole(owner, member, 2, revision));
  }

  lemma WholeIsTold(start: DB, db: DB, owner: Id, member: Id, their: Id) returns (end: DB)
    requires db == After(start, Setup(owner)) && States.Valid(db) && AllSet(db, owner, member) && their in {1, 2}
    ensures end == After(start, Whole(owner, member, their, db.rooms.boards[1].revision))
    ensures Told(db, end, their, 1, owner, member)
  {
    end := StoryIsTold(db, their, 1, owner, member);
    States.AfterJoins(start, Setup(owner), Story(their, 1, owner, member, 1, db.rooms.boards[1].revision));
  }

  /** Numbers are not redacted. From any new database, two runs that differ in one step only, whether
      someone else's message goes to the member's conversation or to another one on the same board, which
      is hidden from the member in the end, lead to databases that hold the same of what the member wrote and can
      read, and to different exports. */
  lemma EarlierPostsShow(start: DB) returns (a: Run, b: Run, member: Id)
    requires IsNew(start)
    ensures |a| == |b| == 7 && a[4] != b[4] && (forall i | 0 <= i < 7 && i != 4 :: a[i] == b[i])
    ensures Clocked(a, 0) && Clocked(b, 0)
    ensures var reader := Reader(member, false);
      && !VisibleBoard(After(start, a), reader, 1) && !VisibleBoard(After(start, b), reader, 1)
      && Export.AgreeFor(After(start, a), After(start, b), reader)
      && Export.MemberContributions(After(start, a), reader) != Export.MemberContributions(After(start, b), reader)
  {
    var db, owner, reader := SetUp(start);
    var revision := db.rooms.boards[1].revision;
    member, a, b := reader, Whole(owner, reader, 1, revision), Whole(owner, reader, 2, revision);
    OneStepDiffers(owner, member, revision);
    var near := WholeIsTold(start, db, owner, member, 1);
    var far := WholeIsTold(start, db, owner, member, 2);
    Tells(db, near, far, 2, 1, owner, member);
  }
}
