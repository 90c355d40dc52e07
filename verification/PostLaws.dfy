/** What holds of conversations in every reachable state, and what time does to a message: its number
    never changes, and what is erased stays erased. */
module PostLaws {
  import opened Schema
  import opened Permissions
  import opened PostOps
  import AccountOps
  import AccountLaws
  import RoomOps
  import Machine

  ghost predicate NoImages(c: Content, p: Id) {
    forall a :: a in c.attachments ==> c.attachments[a].post != p
  }

  ghost predicate Deleted(users: map<Id, User>, u: Id) {
    u in users && users[u].deleted
  }

  /** A removed message has exactly the owner's placeholder, an unremoved message of a deleted account
      exactly the author's, and neither has images. */
  ghost predicate PostOk(c: Content, users: map<Id, User>, p: Id)
    requires p in c.posts
  {
    var post := c.posts[p];
    && 1 <= p <= c.lastPost
    && post.topic in c.topics && post.author in users
    && (post.removed ==> post.body == REMOVED_MESSAGE && NoImages(c, p))
    && (!post.removed && users[post.author].deleted ==> post.body == DELETED_MESSAGE && NoImages(c, p))
  }

  ghost predicate TopicOk(c: Content, users: map<Id, User>, boards: set<Id>, t: Id)
    requires t in c.topics
  {
    1 <= t <= c.lastTopic && c.topics[t].board in boards && c.topics[t].author in users && ValidTitle(c.topics[t].title)
  }

  ghost predicate ContentOk(c: Content, users: map<Id, User>, boards: set<Id>) {
    && (forall p :: p in c.posts ==> PostOk(c, users, p))
    && (forall t :: t in c.topics ==> TopicOk(c, users, boards, t))
    && (forall a :: a in c.attachments ==> 1 <= a <= c.lastAttachment && c.attachments[a].post in c.posts)
  }

  // ----- Every step keeps it -----

  lemma MoreUsersKeep(c: Content, users: map<Id, User>, users': map<Id, User>, boards: set<Id>, boards': set<Id>)
    requires ContentOk(c, users, boards) && AccountLaws.Carries(users, users') && boards <= boards'
    ensures ContentOk(c, users', boards')
  {
    forall p | p in c.posts ensures PostOk(c, users', p) {
      assert PostOk(c, users, p);
    }
    forall t | t in c.topics ensures TopicOk(c, users', boards', t) {
      assert TopicOk(c, users, boards, t);
    }
  }

  lemma AddPostKeeps(c: Content, users: map<Id, User>, boards: set<Id>, topic: Id, author: Id, body: string,
          images: seq<Image>, now: Time)
    requires ContentOk(c, users, boards) && topic in c.topics && author in users && !users[author].deleted
    ensures ContentOk(AddPost(c, topic, author, body, images, now), users, boards)
  {
    var c' := AddPost(c, topic, author, body, images, now);
    var id := c.lastPost + 1;
    forall a | a in c'.attachments
      ensures a in c.attachments
           || (c'.attachments[a].post == id && c.lastAttachment < a <= c'.lastAttachment)
    {
    }
    forall p | p in c'.posts ensures PostOk(c', users, p) {
      if p != id {
        assert PostOk(c, users, p);
      }
    }
    forall t | t in c'.topics ensures TopicOk(c', users, boards, t) {
      assert TopicOk(c, users, boards, t);
    }
  }

  lemma TopicsKeep(c: Content, users: map<Id, User>, boards: set<Id>, topics: map<Id, Topic>)
    requires ContentOk(c, users, boards) && topics.Keys == c.topics.Keys
    requires forall t :: t in topics ==>
      topics[t].board == c.topics[t].board && topics[t].author == c.topics[t].author && ValidTitle(topics[t].title)
    ensures ContentOk(c.(topics := topics), users, boards)
  {
    var c' := c.(topics := topics);
    forall p | p in c'.posts ensures PostOk(c', users, p) {
      assert PostOk(c, users, p);
    }
    forall t | t in c'.topics ensures TopicOk(c', users, boards, t) {
      assert TopicOk(c, users, boards, t);
    }
  }

  /** Replacing one message, and possibly taking its images away. */
  lemma PostKeeps(c: Content, users: map<Id, User>, boards: set<Id>, id: Id, post: Post, c': Content)
    requires ContentOk(c, users, boards) && id in c.posts
    requires c' == c.(posts := c.posts[id := post], attachments := c'.attachments)
    requires c'.attachments == c.attachments || c'.attachments == WithoutImages(c.attachments, id)
    requires PostOk(c', users, id)
    ensures ContentOk(c', users, boards)
  {
    forall p | p in c'.posts ensures PostOk(c', users, p) {
      assert p != id ==> PostOk(c, users, p);
    }
    forall t | t in c'.topics ensures TopicOk(c', users, boards, t) {
      assert TopicOk(c, users, boards, t);
    }
  }

  lemma CreateTopicKeeps(db: DB, board: Id, author: Id, title: string, body: string, audience: Audience,
          images: seq<Image>, now: Time)
    requires AccountLaws.AccountsOk(db.accounts)
    requires ContentOk(db.content, db.accounts.users, db.rooms.boards.Keys)
    ensures ContentOk(CreateTopic(db, board, author, title, body, audience, images, now).After(db).content,
                      db.accounts.users, db.rooms.boards.Keys)
  {
    var o := CreateTopic(db, board, author, title, body, audience, images, now);
    if o.Committed? {
      var users, boards := db.accounts.users, db.rooms.boards.Keys;
      var id := db.content.lastTopic + 1;
      var c := db.content.(topics := db.content.topics[id := Topic(board, author, title, now, now, audience)],
        lastTopic := id);
      forall p | p in c.posts ensures PostOk(c, users, p) {
        assert PostOk(db.content, users, p);
      }
      forall t | t in c.topics ensures TopicOk(c, users, boards, t) {
        assert t != id ==> TopicOk(db.content, users, boards, t);
      }
      AddPostKeeps(c, users, boards, id, author, body, images, now);
    }
  }

  lemma AddReplyKeeps(db: DB, topic: Id, author: Id, body: string, images: seq<Image>, now: Time)
    requires AccountLaws.AccountsOk(db.accounts)
    requires ContentOk(db.content, db.accounts.users, db.rooms.boards.Keys)
    ensures ContentOk(AddReply(db, topic, author, body, images, now).After(db).content,
                      db.accounts.users, db.rooms.boards.Keys)
  {
    var o := AddReply(db, topic, author, body, images, now);
    if o.Committed? {
      var users, boards := db.accounts.users, db.rooms.boards.Keys;
      var added := AddPost(db.content, topic, author, body, images, now);
      AddPostKeeps(db.content, users, boards, topic, author, body, images, now);
      assert TopicOk(added, users, boards, topic);
      assert forall t :: t in added.topics ==> TopicOk(added, users, boards, t);
      TopicsKeep(added, users, boards, added.topics[topic := db.content.topics[topic].(updatedAt := now)]);
    }
  }

  lemma EditPostKeeps(db: DB, id: Id, author: Id, body: string, revision: int, now: Time)
    requires AccountLaws.AccountsOk(db.accounts)
    requires ContentOk(db.content, db.accounts.users, db.rooms.boards.Keys)
    ensures ContentOk(EditPost(db, id, author, body, revision, now).After(db).content,
                      db.accounts.users, db.rooms.boards.Keys)
  {
    var o := EditPost(db, id, author, body, revision, now);
    if o.Committed? && o.db != db {
      assert PostOk(db.content, db.accounts.users, id);
      PostKeeps(db.content, db.accounts.users, db.rooms.boards.Keys, id, o.value, o.db.content);
    }
  }

  lemma RemovePostKeeps(db: DB, owner: Id, id: Id, revision: int, replaceTitle: bool, now: Time)
    requires AccountLaws.AccountsOk(db.accounts)
    requires ContentOk(db.content, db.accounts.users, db.rooms.boards.Keys)
    ensures ContentOk(RemovePost(db, owner, id, revision, replaceTitle, now).After(db).content,
                      db.accounts.users, db.rooms.boards.Keys)
  {
    var o := RemovePost(db, owner, id, revision, replaceTitle, now);
    if o.Committed? {
      var users, boards := db.accounts.users, db.rooms.boards.Keys;
      var c := db.content;
      assert PostOk(c, users, id);
      var c' := c.(attachments := WithoutImages(c.attachments, id), posts := c.posts[id := o.value]);
      PostKeeps(c, users, boards, id, o.value, c');
      assert forall t :: t in c.topics ==> TopicOk(c, users, boards, t);
      TopicsKeep(c', users, boards, o.db.content.topics);
    }
  }

  lemma PostStepKeeps(db: DB, a: Action, now: Time)
    requires AccountLaws.AccountsOk(db.accounts)
    requires ContentOk(db.content, db.accounts.users, db.rooms.boards.Keys)
    ensures ContentOk(Apply(db, a, now).content, db.accounts.users, db.rooms.boards.Keys)
  {
    match a
    case DoCreateTopic(board, author, title, body, audience, images) =>
      CreateTopicKeeps(db, board, author, title, body, audience, images, now);
    case DoReply(topic, author, body, images) => AddReplyKeeps(db, topic, author, body, images, now);
    case DoEditPost(id, author, body, revision) => EditPostKeeps(db, id, author, body, revision, now);
    case DoRemovePost(owner, id, revision, replaceTitle) => RemovePostKeeps(db, owner, id, revision, replaceTitle, now);
  }

  lemma DeletionKeeps(a: Accounts, c: Content, boards: set<Id>, user: Id)
    requires ContentOk(c, a.users, boards) && user in a.users && !a.users[user].deleted
    ensures ContentOk(ContentAfterDeletion(c, user), UsersAfterDeletion(a, user), boards)
  {
    var c', users' := ContentAfterDeletion(c, user), UsersAfterDeletion(a, user);
    forall p | p in c'.posts ensures PostOk(c', users', p) {
      assert PostOk(c, a.users, p);
    }
    forall t | t in c'.topics ensures TopicOk(c', users', boards, t) {
      assert TopicOk(c, a.users, boards, t);
    }
  }

  lemma WithoutTopicsKeeps(c: Content, users: map<Id, User>, boards: set<Id>, board: Id)
    requires ContentOk(c, users, boards)
    ensures ContentOk(RoomOps.WithoutTopics(c, RoomOps.TopicsOn(c, board)), users, boards - {board})
  {
    var c' := RoomOps.WithoutTopics(c, RoomOps.TopicsOn(c, board));
    forall p | p in c'.posts ensures PostOk(c', users, p) {
      assert PostOk(c, users, p);
    }
    forall t | t in c'.topics ensures TopicOk(c', users, boards - {board}, t) {
      assert TopicOk(c, users, boards, t);
    }
  }

  // ----- What time does to a message -----

  ghost predicate Erased(post: Post, users: map<Id, User>) {
    post.removed || Deleted(users, post.author)
  }

  /** A message keeps its conversation, author and time, and its body while it keeps its revision. A
      removed one never changes again; one of a deleted account only if an owner removes it. */
  ghost predicate LaterPost(before: Post, after: Post, authorDeleted: bool) {
    && after.topic == before.topic && after.author == before.author && after.createdAt == before.createdAt
    && before.revision <= after.revision
    && (before.revision == after.revision ==> after == before)
    && (before.removed ==> after == before)
    && (authorDeleted ==> after == before || after.removed)
  }

  /** A conversation keeps its board, author, time and audience. */
  ghost predicate LaterTopic(before: Topic, after: Topic) {
    && after.board == before.board && after.author == before.author
    && after.createdAt == before.createdAt && after.audience == before.audience
  }

  /** Messages go only with their whole conversation, and identifiers are never used again. */
  ghost predicate LaterContent(c: Content, users: map<Id, User>, c': Content) {
    && c.lastPost <= c'.lastPost && c.lastTopic <= c'.lastTopic
    && (forall t :: t in c'.topics ==> t in c.topics || t > c.lastTopic)
    && (forall p :: p in c'.posts ==> p in c.posts || p > c.lastPost)
    && (forall p :: p in c.posts ==> (p in c'.posts <==> c.posts[p].topic in c'.topics))
    && (forall p :: p in c.posts && p in c'.posts ==>
          LaterPost(c.posts[p], c'.posts[p], Deleted(users, c.posts[p].author)))
    && (forall t :: t in c.topics && t in c'.topics ==> LaterTopic(c.topics[t], c'.topics[t]))
  }

  /** The identifiers of images are never used again either: one from before still shows the very same
      image, and a new one is a number never used before, on a message just as new. */
  ghost predicate LaterImages(c: Content, c': Content) {
    && c.lastPost <= c'.lastPost && c.lastAttachment <= c'.lastAttachment
    && forall a :: a in c'.attachments ==>
         || (a in c.attachments && c'.attachments[a] == c.attachments[a])
         || (c.lastAttachment < a <= c'.lastAttachment && c.lastPost < c'.attachments[a].post <= c'.lastPost)
  }

  lemma SameContentMovesOn(c: Content, users: map<Id, User>, boards: set<Id>)
    requires ContentOk(c, users, boards)
    ensures LaterContent(c, users, c)
  {
    forall p | p in c.posts ensures c.posts[p].topic in c.topics {
      assert PostOk(c, users, p);
    }
  }

  ghost predicate Fits(db: DB) {
    AccountLaws.AccountsOk(db.accounts) && ContentOk(db.content, db.accounts.users, db.rooms.boards.Keys)
  }

  lemma AddPostMovesOn(c: Content, users: map<Id, User>, boards: set<Id>, c': Content, topic: Id, author: Id,
          body: string, images: seq<Image>, now: Time)
    requires ContentOk(c, users, boards)
    requires c' == c.(topics := c'.topics, lastTopic := c'.lastTopic)
    requires c.lastTopic <= c'.lastTopic && topic in c'.topics
    requires forall t :: t in c'.topics ==> t in c.topics || t > c.lastTopic
    requires forall t :: t in c.topics ==> t in c'.topics && LaterTopic(c.topics[t], c'.topics[t])
    ensures LaterContent(c, users, AddPost(c', topic, author, body, images, now))
  {
    forall p | p in c.posts ensures c.posts[p].topic in c.topics && p <= c.lastPost {
      assert PostOk(c, users, p);
    }
  }

  lemma CreateTopicMovesOn(db: DB, board: Id, author: Id, title: string, body: string, audience: Audience,
          images: seq<Image>, now: Time)
    requires Fits(db)
    ensures LaterContent(db.content, db.accounts.users,
      CreateTopic(db, board, author, title, body, audience, images, now).After(db).content)
  {
    var c, users, boards := db.content, db.accounts.users, db.rooms.boards.Keys;
    SameContentMovesOn(c, users, boards);
    if CreateTopic(db, board, author, title, body, audience, images, now).Committed? {
      forall t | t in c.topics ensures t <= c.lastTopic {
        assert TopicOk(c, users, boards, t);
      }
      var id := c.lastTopic + 1;
      var c' := c.(topics := c.topics[id := Topic(board, author, title, now, now, audience)], lastTopic := id);
      AddPostMovesOn(c, users, boards, c', id, author, body, images, now);
    }
  }

  lemma AddPostLeavesTopics(c: Content, topics: map<Id, Topic>, topic: Id, author: Id, body: string,
          images: seq<Image>, now: Time)
    ensures AddPost(c.(topics := topics), topic, author, body, images, now)
         == AddPost(c, topic, author, body, images, now).(topics := topics)
  {
  }

  /** A reply is a message added to a conversation that has a new time. */
  lemma ReplyIsAdded(db: DB, topic: Id, author: Id, body: string, images: seq<Image>, now: Time, c: Content)
    requires AddReply(db, topic, author, body, images, now).Committed? && topic in db.content.topics
    requires c == db.content.(topics := db.content.topics[topic := db.content.topics[topic].(updatedAt := now)])
    ensures AddReply(db, topic, author, body, images, now).db.content == AddPost(c, topic, author, body, images, now)
  {
    AddPostLeavesTopics(db.content, c.topics, topic, author, body, images, now);
    assert AddPost(db.content, topic, author, body, images, now).topics == db.content.topics;
  }

  lemma AddReplyMovesOn(db: DB, topic: Id, author: Id, body: string, images: seq<Image>, now: Time)
    requires Fits(db)
    ensures LaterContent(db.content, db.accounts.users,
      AddReply(db, topic, author, body, images, now).After(db).content)
  {
    var c, users, boards := db.content, db.accounts.users, db.rooms.boards.Keys;
    var o := AddReply(db, topic, author, body, images, now);
    if o.Committed? {
      var c' := c.(topics := c.topics[topic := c.topics[topic].(updatedAt := now)]);
      ReplyIsAdded(db, topic, author, body, images, now, c');
      AddPostMovesOn(c, users, boards, c', topic, author, body, images, now);
    } else {
      SameContentMovesOn(c, users, boards);
    }
  }

  lemma PostStepMovesOn(db: DB, a: Action, now: Time)
    requires Fits(db)
    ensures LaterContent(db.content, db.accounts.users, Apply(db, a, now).content)
  {
    match a
    case DoCreateTopic(board, author, title, body, audience, images) =>
      CreateTopicMovesOn(db, board, author, title, body, audience, images, now);
    case DoReply(topic, author, body, images) => AddReplyMovesOn(db, topic, author, body, images, now);
    case DoEditPost(id, author, body, revision) => EditPostMovesOn(db, id, author, body, revision, now);
    case DoRemovePost(owner, id, revision, replaceTitle) =>
      RemovePostMovesOn(db, owner, id, revision, replaceTitle, now);
  }

  lemma EditPostMovesOn(db: DB, id: Id, author: Id, body: string, revision: int, now: Time)
    requires Fits(db)
    ensures LaterContent(db.content, db.accounts.users, EditPost(db, id, author, body, revision, now).After(db).content)
  {
    SameContentMovesOn(db.content, db.accounts.users, db.rooms.boards.Keys);
  }

  /** One message changes, and perhaps the title of its conversation. */
  lemma OnePostMovesOn(c: Content, users: map<Id, User>, boards: set<Id>, id: Id, post: Post, topic: Id,
          title: string, c': Content)
    requires ContentOk(c, users, boards) && id in c.posts && topic in c.topics
    requires LaterPost(c.posts[id], post, Deleted(users, post.author))
    requires c' == c.(posts := c.posts[id := post], topics := c.topics[topic := c.topics[topic].(title := title)],
                      attachments := c'.attachments)
    ensures LaterContent(c, users, c')
  {
    SameContentMovesOn(c, users, boards);
  }

  lemma RemovePostMovesOn(db: DB, owner: Id, id: Id, revision: int, replaceTitle: bool, now: Time)
    requires Fits(db)
    ensures LaterContent(db.content, db.accounts.users,
      RemovePost(db, owner, id, revision, replaceTitle, now).After(db).content)
  {
    var c, users, boards := db.content, db.accounts.users, db.rooms.boards.Keys;
    var o := RemovePost(db, owner, id, revision, replaceTitle, now);
    if o.Committed? {
      var topic := c.posts[id].topic;
      var title := if replaceTitle then PLAIN_TITLE else c.topics[topic].title;
      assert c.topics[topic].(title := c.topics[topic].title) == c.topics[topic];
      OnePostMovesOn(c, users, boards, id, o.value, topic, title, o.db.content);
    } else {
      SameContentMovesOn(c, users, boards);
    }
  }

  lemma DeletionMovesOn(c: Content, users: map<Id, User>, boards: set<Id>, user: Id)
    requires ContentOk(c, users, boards) && user in users && !users[user].deleted
    ensures LaterContent(c, users, ContentAfterDeletion(c, user))
  {
    SameContentMovesOn(c, users, boards);
  }

  lemma WithoutTopicsMovesOn(c: Content, users: map<Id, User>, boards: set<Id>, board: Id)
    requires ContentOk(c, users, boards)
    ensures LaterContent(c, users, RoomOps.WithoutTopics(c, RoomOps.TopicsOn(c, board)))
  {
    SameContentMovesOn(c, users, boards);
  }

  lemma LaterContentChains(c: Content, u: map<Id, User>, b: set<Id>, c': Content, u': map<Id, User>, c'': Content)
    requires ContentOk(c, u, b) && AccountLaws.LaterUsers(u, u')
    requires LaterContent(c, u, c') && LaterContent(c', u', c'')
    ensures LaterContent(c, u, c'')
  {
    forall p | p in c.posts ensures p <= c.lastPost && c.posts[p].topic in c.topics && c.posts[p].topic <= c.lastTopic {
      assert PostOk(c, u, p) && TopicOk(c, u, b, c.posts[p].topic);
    }
    forall p | p in c.posts && p in c''.posts
      ensures LaterPost(c.posts[p], c''.posts[p], Deleted(u, c.posts[p].author))
    {
      var topic := c.posts[p].topic;
      assert topic in c''.topics && topic in c'.topics && p in c'.posts;
      assert LaterPost(c.posts[p], c'.posts[p], Deleted(u, c.posts[p].author));
      assert LaterPost(c'.posts[p], c''.posts[p], Deleted(u', c'.posts[p].author));
    }
  }

  lemma RoomStepMovesOn(db: DB, a: RoomOps.Action)
    requires Fits(db)
    ensures var after := RoomOps.Apply(db, a);
      && ContentOk(after.content, db.accounts.users, after.rooms.boards.Keys)
      && LaterContent(db.content, db.accounts.users, after.content)
  {
    var c, users, boards := db.content, db.accounts.users, db.rooms.boards.Keys;
    SameContentMovesOn(c, users, boards);
    if a.DoChangeBoard? && a.change == RoomOps.Delete {
      WithoutTopicsKeeps(c, users, boards, a.id);
      WithoutTopicsMovesOn(c, users, boards, a.id);
    } else {
      var after := RoomOps.Apply(db, a);
      RoomStepKeepsContent(db, a);
      assert AccountLaws.Carries(users, users) by { AccountLaws.SameUsersCarry(users); }
      MoreUsersKeep(c, users, users, boards, after.rooms.boards.Keys);
    }
  }

  /** Short of deleting a board, the transactions on boards and groups leave conversations alone. */
  lemma RoomStepKeepsContent(db: DB, a: RoomOps.Action)
    requires !(a.DoChangeBoard? && a.change == RoomOps.Delete)
    ensures var after := RoomOps.Apply(db, a);
      after.content == db.content && db.rooms.boards.Keys <= after.rooms.boards.Keys
  {
  }

  lemma AttachingMovesOn(c: Content, c': Content, post: Id, images: seq<Image>)
    requires c'.attachments == c.attachments && c'.lastAttachment == c.lastAttachment
    requires c.lastPost < post <= c'.lastPost
    ensures LaterImages(c, Attach(c', post, images))
  {
  }

  lemma PostStepKeepsImages(db: DB, a: Action, now: Time)
    ensures LaterImages(db.content, Apply(db, a, now).content)
  {
    var c, id := db.content, db.content.lastPost + 1;
    match a
    case DoCreateTopic(board, author, title, body, audience, images) =>
      var t := c.lastTopic + 1;
      AttachingMovesOn(c, c.(
        topics := c.topics[t := Topic(board, author, title, now, now, audience)], lastTopic := t,
        posts := c.posts[id := Post(t, author, body, now, 0, 0, false)], lastPost := id), id, images);
    case DoReply(topic, author, body, images) =>
      AttachingMovesOn(c, c.(posts := c.posts[id := Post(topic, author, body, now, 0, 0, false)], lastPost := id),
                       id, images);
    case DoEditPost(_, _, _, _) =>
    case DoRemovePost(_, _, _, _) =>
  }

  lemma StepKeepsImages(db: DB, a: Machine.Action, now: Time)
    ensures LaterImages(db.content, Machine.Apply(db, a, now).content)
  {
    match a
    case SetMode(_) =>
    case OnAccounts(account) => AccountOps.ApplyFrame(db, account, now);
    case OnRooms(room) =>
      if !(room.DoChangeBoard? && room.change == RoomOps.Delete) {
        RoomStepKeepsContent(db, room);
      }
    case OnPosts(post) => PostStepKeepsImages(db, post, now);
    case DeleteAccount(_, _, _) =>
  }

  lemma StepMovesOn(db: DB, a: Machine.Action, now: Time)
    requires Fits(db)
    ensures var after := Machine.Apply(db, a, now);
      Fits(after) && LaterContent(db.content, db.accounts.users, after.content)
  {
    var c, users, boards := db.content, db.accounts.users, db.rooms.boards.Keys;
    AccountLaws.StepKeepsAccounts(db, a, now);
    SameContentMovesOn(c, users, boards);
    match a
    case SetMode(_) =>
    case OnAccounts(account) =>
      AccountOps.ApplyFrame(db, account, now);
      AccountLaws.AccountStepCarries(db, account, now);
      MoreUsersKeep(c, users, AccountOps.Apply(db, account, now).accounts.users, boards, boards);
    case OnRooms(room) =>
      RoomOps.ApplyFrame(db, room);
      RoomStepMovesOn(db, room);
    case OnPosts(post) =>
      PostOps.ApplyFrame(db, post, now);
      PostStepKeeps(db, post, now);
      PostStepMovesOn(db, post, now);
    case DeleteAccount(user, name, hash) =>
      if DeleteAccount(db, user, name, hash).Committed? {
        DeletionKeeps(db.accounts, c, boards, user);
        DeletionMovesOn(c, users, boards, user);
      }
  }

  lemma {:induction false} RunMovesOn(db: DB, run: Machine.Run)
    requires Fits(db)
    ensures var after := Machine.After(db, run);
      && Fits(after)
      && AccountLaws.LaterUsers(db.accounts.users, after.accounts.users)
      && LaterContent(db.content, db.accounts.users, after.content) && LaterImages(db.content, after.content)
    decreases run
  {
    var users, boards := db.accounts.users, db.rooms.boards.Keys;
    AccountLaws.RunMovesOn(db, run);
    if run == [] {
      SameContentMovesOn(db.content, users, boards);
    } else {
      var next := Machine.Apply(db, run[0].action, run[0].now);
      AccountLaws.StepMovesOn(db, run[0].action, run[0].now);
      StepMovesOn(db, run[0].action, run[0].now);
      StepKeepsImages(db, run[0].action, run[0].now);
      RunMovesOn(next, run[1..]);
      LaterContentChains(db.content, users, boards, next.content, next.accounts.users, Machine.After(db, run).content);
    }
  }

  // ----- Erasure -----

  /** Erasure is permanent. In any later state where it still exists, a removed message is the very same
      placeholder; an unremoved message of a deleted account still has no words of its author's and no
      images, and the only thing that can have happened to it is removal by an owner. */
  lemma ErasedStaysErased(db: DB, run: Machine.Run, p: Id)
    requires Fits(db) && p in db.content.posts && p in Machine.After(db, run).content.posts
    requires Erased(db.content.posts[p], db.accounts.users)
    ensures var before, after := db.content.posts[p], Machine.After(db, run).content.posts[p];
      && after.body in {REMOVED_MESSAGE, DELETED_MESSAGE}
      && NoImages(Machine.After(db, run).content, p)
      && (before.removed ==> after == before && after.body == REMOVED_MESSAGE)
      && (!before.removed ==> before.body == DELETED_MESSAGE && (after == before || after.removed))
  {
    RunMovesOn(db, run);
    var after := Machine.After(db, run);
    assert PostOk(db.content, db.accounts.users, p);
    assert PostOk(after.content, after.accounts.users, p);
  }

  // ----- The author's placeholder is not the last word -----

  /** An owner's removal of message `p` that the store accepts, going by the rows as they are: an active
      owner, the current revision, and the title replaced only with the first message. */
  ghost predicate Removes(db: DB, a: Machine.Action, p: Id)
    requires p in db.content.posts
  {
    && a.OnPosts? && a.post.DoRemovePost? && a.post.id == p
    && RequireOwner(db.accounts, a.post.owner) == None
    && a.post.revision == db.content.posts[p].revision
    && (a.post.replaceTitle ==> Number(db.content.posts, p) == 1)
  }

  /** An unremoved message of a deleted account. */
  ghost predicate Orphaned(db: DB, p: Id) {
    p in db.content.posts && !db.content.posts[p].removed && Deleted(db.accounts.users, db.content.posts[p].author)
  }

  function Retired(post: Post): Post {
    post.(body := REMOVED_MESSAGE, removed := true, revision := post.revision + 1)
  }

  /** An owner can remove any message that is there and not removed yet, in whatever board and for
      whatever audience: the check that the owner can read it never refuses. */
  lemma RemovalSucceedsExactly(db: DB, a: Action, now: Time)
    requires Fits(db) && a.DoRemovePost?
    ensures RemovePost(db, a.owner, a.id, a.revision, a.replaceTitle, now).Committed? <==>
            && a.id in db.content.posts && !db.content.posts[a.id].removed
            && Removes(db, Machine.OnPosts(a), a.id)
  {
    if a.id in db.content.posts {
      assert PostOk(db.content, db.accounts.users, a.id);
      assert TopicOk(db.content, db.accounts.users, db.rooms.boards.Keys, db.content.posts[a.id].topic);
    }
  }

  lemma RemovalCommits(db: DB, a: Action, now: Time, p: Id)
    requires Fits(db) && Orphaned(db, p) && a.DoRemovePost? && a.id == p
    ensures RemovePost(db, a.owner, p, a.revision, a.replaceTitle, now).Committed?
      <==> Removes(db, Machine.OnPosts(a), p)
    ensures Removes(db, Machine.OnPosts(a), p) ==>
      Apply(db, a, now).content.posts == db.content.posts[p := Retired(db.content.posts[p])]
  {
    RemovalSucceedsExactly(db, a, now);
  }

  lemma OthersLeaveOrphan(db: DB, a: Action, now: Time, p: Id)
    requires Fits(db) && Orphaned(db, p) && !(a.DoRemovePost? && a.id == p)
    ensures var posts := Apply(db, a, now).content.posts; p in posts && posts[p] == db.content.posts[p]
  {
    var u := db.content.posts[p].author;
    assert AccountLaws.UserOk(db.accounts.users[u]);
    assert PostOk(db.content, db.accounts.users, p);
  }

  /** Exactly when the placeholder of a deleted account changes: on a removal by an active owner that
      carries the current revision, and then it becomes the owner's placeholder. */
  lemma OrphanChangesExactly(db: DB, a: Machine.Action, now: Time, p: Id)
    requires Fits(db) && Orphaned(db, p) && p in Machine.Apply(db, a, now).content.posts
    ensures var before, after := db.content.posts[p], Machine.Apply(db, a, now).content.posts[p];
      && before.body == DELETED_MESSAGE
      && after == if Removes(db, a, p) then Retired(before) else before
  {
    assert PostOk(db.content, db.accounts.users, p);
    match a
    case SetMode(_) =>
    case OnAccounts(account) => AccountOps.ApplyFrame(db, account, now);
    case OnRooms(room) =>
      if !(room.DoChangeBoard? && room.change == RoomOps.Delete) {
        RoomStepKeepsContent(db, room);
      }
    case OnPosts(post) =>
      if post.DoRemovePost? && post.id == p {
        RemovalCommits(db, post, now, p);
      } else {
        OthersLeaveOrphan(db, post, now, p);
      }
    case DeleteAccount(user, name, hash) =>
      assert AccountLaws.UserOk(db.accounts.users[db.content.posts[p].author]);
  }

  /** So an owner may still replace the author's placeholder with the other one. */
  lemma OwnerMayRemoveErased(db: DB, owner: Id, p: Id, now: Time)
    requires Fits(db) && p in db.content.posts && !db.content.posts[p].removed
    requires Deleted(db.accounts.users, db.content.posts[p].author)
    requires RequireOwner(db.accounts, owner) == None
    ensures var o := RemovePost(db, owner, p, db.content.posts[p].revision, false, now);
      o.Committed? && db.content.posts[p].body == DELETED_MESSAGE && o.db.content.posts[p].body == REMOVED_MESSAGE
  {
    RemovalCommits(db, DoRemovePost(owner, p, db.content.posts[p].revision, false), now, p);
    assert PostOk(db.content, db.accounts.users, p);
  }

  /** Some step of the run is such a removal. */
  ghost predicate RemovedDuring(db: DB, run: Machine.Run, p: Id)
    decreases run
  {
    && run != [] && p in db.content.posts
    && (Removes(db, run[0].action, p) || RemovedDuring(Machine.Apply(db, run[0].action, run[0].now), run[1..], p))
  }

  lemma StillOrphaned(db: DB, a: Machine.Action, now: Time, p: Id)
    requires Fits(db) && Orphaned(db, p) && p in Machine.Apply(db, a, now).content.posts && !Removes(db, a, p)
    ensures Orphaned(Machine.Apply(db, a, now), p)
  {
    OrphanChangesExactly(db, a, now, p);
    AccountLaws.StepMovesOn(db, a, now);
  }

  /** Identifiers are not used again, so a message that is there at the end was there after the first step. */
  lemma ThereAllAlong(db: DB, next: DB, later: DB, p: Id)
    requires Fits(db) && p in db.content.posts && p in later.content.posts
    requires LaterContent(db.content, db.accounts.users, next.content)
    requires LaterContent(next.content, next.accounts.users, later.content)
    ensures p in next.content.posts
  {
    assert PostOk(db.content, db.accounts.users, p);
  }

  /** Over whole runs: as long as it is there, the message of a deleted account is the very same placeholder
      if and only if no owner has removed it, and the owner's placeholder if one has. */
  lemma {:induction false} OrphanChangesExactlyOverRuns(db: DB, run: Machine.Run, p: Id)
    requires Fits(db) && Orphaned(db, p) && p in Machine.After(db, run).content.posts
    ensures var before, after := db.content.posts[p], Machine.After(db, run).content.posts[p];
      after == if RemovedDuring(db, run, p) then Retired(before) else before
    decreases run
  {
    if run != [] {
      var next, later := Machine.Apply(db, run[0].action, run[0].now), Machine.After(db, run);
      StepMovesOn(db, run[0].action, run[0].now);
      RunMovesOn(next, run[1..]);
      ThereAllAlong(db, next, later, p);
      OrphanChangesExactly(db, run[0].action, run[0].now, p);
      if Removes(db, run[0].action, p) {
        assert LaterPost(next.content.posts[p], later.content.posts[p],
          Deleted(next.accounts.users, next.content.posts[p].author));
      } else {
        StillOrphaned(db, run[0].action, run[0].now, p);
        OrphanChangesExactlyOverRuns(next, run[1..], p);
      }
    }
  }

  /** Deleting an account leaves other people's messages exactly as they were. */
  lemma DeletionSparesOthers(db: DB, user: Id, name: string, hash: Digest, p: Id)
    requires Fits(db) && p in db.content.posts && db.content.posts[p].author != user
    requires DeleteAccount(db, user, name, hash).Committed?
    ensures var c := DeleteAccount(db, user, name, hash).db.content;
      p in c.posts && c.posts[p] == db.content.posts[p] && Number(c.posts, p) == Number(db.content.posts, p)
  {
    var c := DeleteAccount(db, user, name, hash).db.content;
    assert Upto(c.posts, c.posts[p].topic, p) == Upto(db.content.posts, c.posts[p].topic, p);
  }

  // ----- Numbers -----

  /** A message's number never changes: over any run, as long as the message exists. */
  lemma NumbersNeverChange(db: DB, run: Machine.Run, p: Id)
    requires Fits(db) && p in db.content.posts && p in Machine.After(db, run).content.posts
    ensures Number(Machine.After(db, run).content.posts, p) == Number(db.content.posts, p)
  {
    RunMovesOn(db, run);
    var c, c' := db.content, Machine.After(db, run).content;
    assert PostOk(c, db.accounts.users, p);
    SameUpto(c, db.accounts.users, c', c.posts[p].topic, p);
  }

  lemma SameUpto(c: Content, users: map<Id, User>, c': Content, topic: Id, p: Id)
    requires LaterContent(c, users, c') && topic in c'.topics && p <= c.lastPost
    ensures Upto(c.posts, topic, p) == Upto(c'.posts, topic, p)
  {
  }

  /** A conversation keeps the audience it was started with, whatever the site's mode becomes. */
  lemma AudiencesNeverChange(db: DB, run: Machine.Run, t: Id)
    requires Fits(db) && t in db.content.topics && t in Machine.After(db, run).content.topics
    ensures LaterTopic(db.content.topics[t], Machine.After(db, run).content.topics[t])
  {
    RunMovesOn(db, run);
  }

  // ----- Stale forms -----

  /** An edit or a removal that carries the revision its form was opened with can only commit on the very
      message that form showed, whatever happened in between. */
  lemma StaleFormsAreRefused(shown: DB, run: Machine.Run, p: Id, author: Id, owner: Id, body: string,
          replaceTitle: bool, now: Time)
    requires Fits(shown) && p in shown.content.posts
    ensures var later, revision := Machine.After(shown, run), shown.content.posts[p].revision;
      (EditPost(later, p, author, body, revision, now).Committed?
       || RemovePost(later, owner, p, revision, replaceTitle, now).Committed?) ==>
        p in later.content.posts && later.content.posts[p] == shown.content.posts[p]
  {
    RunMovesOn(shown, run);
  }
}
