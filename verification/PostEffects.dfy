/** What posting, editing, removing and deleting an account do, row by row: when each of them commits, which
    rows it leaves changed and how, and that every other row is as it was. */
module PostEffects {
  import opened Schema
  import opened PostOps
  import AccountEffects
  import AccountLaws
  import AccountOps
  import PermissionLaws
  import Permissions

  /** The tables' constraints on a message's images: none twice, and credentials of accounts that exist. */
  ghost predicate ImagesFit(users: map<Id, User>, images: seq<Image>) {
    && (forall i, j :: 0 <= i < j < |images| ==>
          images[i].server != images[j].server || images[i].remoteId != images[j].remoteId)
    && (forall i :: 0 <= i < |images| ==> images[i].credential.Some? ==> images[i].credential.value in users)
  }

  lemma ImagesFitExactly(users: map<Id, User>, images: seq<Image>)
    ensures ImagesFit(users, images) <==> ImagesAllowed(users, images)
  {
  }

  /** One message more, the last one, with those images in their order under the next identifiers; no other
      message or image differs. */
  ghost predicate OneMorePost(c: Content, after: Content, post: Post, images: seq<Image>) {
    && after.lastPost == c.lastPost + 1 && after.posts == c.posts[after.lastPost := post]
    && after.lastAttachment == c.lastAttachment + |images|
    && (forall a :: a in after.attachments <==>
          a in c.attachments || c.lastAttachment < a <= c.lastAttachment + |images|)
    && (forall a :: a in c.attachments && a <= c.lastAttachment ==> after.attachments[a] == c.attachments[a])
    && (forall i :: 0 <= i < |images| ==>
          after.attachments[c.lastAttachment + 1 + i] == Attachment(after.lastPost, images[i]))
  }

  lemma PostIsAdded(c: Content, topic: Id, author: Id, body: string, images: seq<Image>, now: Time)
    ensures var after := AddPost(c, topic, author, body, images, now);
      && OneMorePost(c, after, Post(topic := topic, author := author, body := body, createdAt := now,
                                    editedAt := 0, revision := 0, removed := false), images)
      && (after.topics, after.lastTopic) == (c.topics, c.lastTopic)
  {
  }

  // ----- Starting a conversation -----

  /** A conversation is started by someone who may post on the board, for the audience the board has now, with a
      title and a message of allowed lengths. */
  lemma StartsTopicExactly(db: DB, board: Id, author: Id, title: string, body: string, audience: Audience,
                           images: seq<Image>, now: Time)
    ensures CreateTopic(db, board, author, title, body, audience, images, now).Committed? <==>
            && Permissions.BoardForWriter(db, board, author) == None
            && audience == Permissions.BoardAudience(db.rooms.boards[board], db.mode)
            && 3 <= |title| <= 160 && 1 <= |body| <= 20000 && ImagesFit(db.accounts.users, images)
  {
    ImagesFitExactly(db.accounts.users, images);
  }

  /** It is there afterwards, with that message and its images, and nothing else differs. */
  lemma TopicIsStarted(db: DB, board: Id, author: Id, title: string, body: string, audience: Audience,
                       images: seq<Image>, now: Time)
    requires CreateTopic(db, board, author, title, body, audience, images, now).Committed?
    ensures var o := CreateTopic(db, board, author, title, body, audience, images, now);
      var c, after := db.content, o.db.content;
      && o.db == db.(content := after)
      && o.value == after.lastTopic == c.lastTopic + 1
      && after.topics == c.topics[o.value := Topic(
           board := board, author := author, title := title, createdAt := now, updatedAt := now, audience := audience)]
      && OneMorePost(c, after, Post(topic := o.value, author := author, body := body, createdAt := now,
                                    editedAt := 0, revision := 0, removed := false), images)
  {
    var c, id := db.content, db.content.lastTopic + 1;
    PostIsAdded(c.(topics := c.topics[id := Topic(board, author, title, now, now, audience)], lastTopic := id),
                id, author, body, images, now);
  }

  // ----- Replying -----

  /** A reply adds its message and its images and moves the conversation's time on, and nothing else. */
  lemma ReplyIsAdded(db: DB, topic: Id, author: Id, body: string, images: seq<Image>, now: Time)
    requires AddReply(db, topic, author, body, images, now).Committed?
    ensures var o := AddReply(db, topic, author, body, images, now);
      var c, after := db.content, o.db.content;
      && o.db == db.(content := after)
      && topic in c.topics && after.lastTopic == c.lastTopic
      && after.topics == c.topics[topic := c.topics[topic].(updatedAt := now)]
      && o.value.post == after.lastPost
      && OneMorePost(c, after, Post(topic := topic, author := author, body := body, createdAt := now,
                                    editedAt := 0, revision := 0, removed := false), images)
  {
    PostIsAdded(db.content, topic, author, body, images, now);
  }

  // ----- Editing -----

  /** After an edit the message, stored and returned, has exactly the new text, trimmed, with a new time and
      revision if that differs; nothing else about it differs, and no other row. */
  lemma PostIsEdited(db: DB, id: Id, author: Id, body: string, revision: int, now: Time)
    requires EditPost(db, id, author, body, revision, now).Committed?
    ensures var o := EditPost(db, id, author, body, revision, now);
      && id in db.content.posts
      && var before := db.content.posts[id];
      && o.db == db.(content := db.content.(posts := db.content.posts[id := o.value]))
      && o.value.body == TrimSpace(body)
      && (o.value.topic, o.value.author, o.value.createdAt, o.value.removed)
         == (before.topic, before.author, before.createdAt, before.removed)
      && (before.body == TrimSpace(body) ==> o.value == before)
      && (before.body != TrimSpace(body) ==> o.value.editedAt == now && o.value.revision == revision + 1)
  {
    PermissionLaws.EditSucceedsExactly(db, id, author, body, revision, now);
    var posts := db.content.posts;
    assert posts[id := posts[id]] == posts;
    assert db.(content := db.content.(posts := posts)) == db;
  }

  // ----- Removing -----

  /** After a removal the message is the owner's placeholder and has no images; its conversation has the plain
      title if that was asked for; the log says who removed what; and no other row differs. */
  lemma PostIsRemoved(db: DB, owner: Id, id: Id, revision: int, replaceTitle: bool, now: Time)
    requires RemovePost(db, owner, id, revision, replaceTitle, now).Committed?
    ensures var o := RemovePost(db, owner, id, revision, replaceTitle, now);
      var c, after := db.content, o.db.content;
      && o.db == db.(content := after, events := o.db.events)
      && id in c.posts && owner in db.accounts.users && c.posts[id].topic in c.topics
      && var before := c.posts[id];
      && o.value == Post(
           topic := before.topic, author := before.author, body := "This message was removed by a site owner.",
           createdAt := before.createdAt, editedAt := before.editedAt, revision := revision + 1, removed := true)
      && after.posts == c.posts[id := o.value]
      && after.topics == (if replaceTitle
                          then c.topics[before.topic := c.topics[before.topic].(title := "Conversation")]
                          else c.topics)
      && (forall a :: a in after.attachments <==> a in c.attachments && c.attachments[a].post != id)
      && (forall a :: a in after.attachments ==> after.attachments[a] == c.attachments[a])
      && (after.lastTopic, after.lastPost, after.lastAttachment) == (c.lastTopic, c.lastPost, c.lastAttachment)
  {
  }

  lemma RemovalIsLogged(db: DB, owner: Id, id: Id, revision: int, replaceTitle: bool, now: Time)
    requires RemovePost(db, owner, id, revision, replaceTitle, now).Committed?
    ensures var o := RemovePost(db, owner, id, revision, replaceTitle, now);
      && id in db.content.posts && owner in db.accounts.users
      && o.db.events == db.events + [Event(
           actor := Some(owner), actorName := db.accounts.users[owner].name, action := "remove-message",
           subject := "message " + Numeral(id, 10) + " in conversation " + Numeral(db.content.posts[id].topic, 10),
           post := Some(id), titleReplaced := replaceTitle, createdAt := now)]
  {
  }

  // ----- Deleting an account -----

  /** An active account is deleted by giving its own name and current password, unless it is the last owner or
      the name that stands for deleted accounts is taken. */
  lemma DeletesAccountExactly(db: DB, user: Id, name: string, hash: Digest)
    requires AccountLaws.AccountsOk(db.accounts)
    ensures DeleteAccount(db, user, name, hash).Committed? <==>
            && AccountEffects.Active(db.accounts, user)
            && db.accounts.users[user].name == name && db.accounts.users[user].hash == hash
            && (db.accounts.users[user].role == Owner ==>
                  exists other :: other != user && AccountEffects.ActiveOwner(db.accounts, other))
            && |Tombstone(user)| <= 24
            && forall u :: u in db.accounts.users && u != user ==>
                 Folded(db.accounts.users[u].name) != Folded(Tombstone(user))
  {
    if AccountEffects.Active(db.accounts, user) {
      assert AccountLaws.UserOk(db.accounts.users[user]);
      if db.accounts.users[user].role == Owner {
        OtherOwners(db.accounts, user);
      }
      TombstoneIsLong(user);
      TombstoneIsFree(db.accounts.users, user, Tombstone(user));
    }
  }

  lemma TombstoneIsFree(users: map<Id, User>, user: Id, name: string)
    ensures AccountOps.NameTaken(users - {user}, name) <==>
            exists u :: u in users && u != user && Folded(users[u].name) == Folded(name)
  {
    if u :| u in users && u != user && Folded(users[u].name) == Folded(name) {
      assert u in users - {user};
    }
  }

  lemma TombstoneIsLong(user: Id)
    ensures |Tombstone(user)| >= 3
  {
    var n: nat := if user < 0 then 0 else user;
    assert |Digits(n, 36)| >= 1;
  }

  /** A second owner who is not deleted is an active one, because owners are never suspended. */
  lemma OtherOwners(a: Accounts, user: Id)
    requires AccountLaws.AccountsOk(a) && user in LiveOwners(a.users)
    ensures |LiveOwners(a.users)| > 1 <==> exists other :: other != user && AccountEffects.ActiveOwner(a, other)
  {
    var owners := LiveOwners(a.users);
    forall u ensures u in owners <==> AccountEffects.ActiveOwner(a, u) {
      assert u in a.users ==> AccountLaws.UserOk(a.users[u]);
    }
    if |owners| > 1 {
      var other := AccountLaws.Another(owners, user);
      assert AccountEffects.ActiveOwner(a, other);
    }
    if other :| other != user && AccountEffects.ActiveOwner(a, other) {
      assert other in owners - {user};
      assert |owners - {user}| > 0;
    }
  }

  /** Of the account only a row without a name, password, address or rights is left, shut out for good; nobody
      else's row differs but in whom and what they were invited by; and whatever could sign it in or invite on its
      behalf is gone. */
  lemma AccountIsDeleted(db: DB, user: Id, name: string, hash: Digest)
    requires DeleteAccount(db, user, name, hash).Committed?
    ensures var a, after := db.accounts, DeleteAccount(db, user, name, hash).db.accounts;
      && user in a.users && after.users.Keys == a.users.Keys
      && after.users[user] == User(
           name := "~d" + Numeral(user, 36), hash := "", role := Member, createdAt := 0, canInvite := false,
           invitedBy := None, invitedByName := "", invitationId := None, email := "", suspended := true,
           suspensionRevision := a.users[user].suspensionRevision + 1, deleted := true)
      && AccountEffects.SignedOut(a.sessions, after.sessions, user)
      && AccountEffects.Unlinked(a.tokens, after.tokens, user)
      && (forall i :: i in after.invitations <==> i in a.invitations && a.invitations[i].createdBy != user)
      && (forall i :: i in after.invitations ==> after.invitations[i] == a.invitations[i])
  {
  }

  lemma OthersForgetTheAccount(db: DB, user: Id, name: string, hash: Digest, u: Id)
    requires DeleteAccount(db, user, name, hash).Committed? && u in db.accounts.users && u != user
    ensures var before, users := db.accounts.users[u], DeleteAccount(db, user, name, hash).db.accounts.users;
      var i := before.invitationId;
      && u in users
      && users[u] == before.(
           invitedBy := if before.invitedBy == Some(user) then None else before.invitedBy,
           invitedByName := if before.invitedBy == Some(user) then "" else before.invitedByName,
           invitationId := if i.Some? && i.value in db.accounts.invitations
                              && db.accounts.invitations[i.value].createdBy == user then None else i)
  {
    var before := db.accounts.users[u];
    assert before == before.(invitedBy := before.invitedBy, invitedByName := before.invitedByName,
                             invitationId := before.invitationId);
  }

  /** What the account wrote stays in place without its words, titles or images; so does what others wrote, with
      all of theirs but the images on its credential. */
  lemma WordsAreDeleted(db: DB, user: Id, name: string, hash: Digest)
    requires DeleteAccount(db, user, name, hash).Committed?
    ensures var c, after := db.content, DeleteAccount(db, user, name, hash).db.content;
      && after.posts.Keys == c.posts.Keys && after.topics.Keys == c.topics.Keys
      && (forall p :: p in c.posts && (c.posts[p].author != user || c.posts[p].removed) ==>
            after.posts[p] == c.posts[p])
      && (forall p :: p in c.posts && c.posts[p].author == user && !c.posts[p].removed ==>
            after.posts[p] == c.posts[p].(body := "This message was deleted by its author.",
                                          revision := c.posts[p].revision + 1))
      && (forall t :: t in c.topics ==>
            after.topics[t] == c.topics[t].(title := if c.topics[t].author == user then "Conversation"
                                                     else c.topics[t].title))
      && (forall a :: a in after.attachments <==>
            && a in c.attachments && c.attachments[a].image.credential != Some(user)
            && (c.attachments[a].post in c.posts ==> c.posts[c.attachments[a].post].author != user))
      && (forall a :: a in after.attachments ==> after.attachments[a] == c.attachments[a])
      && (after.lastTopic, after.lastPost, after.lastAttachment) == (c.lastTopic, c.lastPost, c.lastAttachment)
  {
    forall t | t in db.content.topics
      ensures db.content.topics[t].(title := db.content.topics[t].title) == db.content.topics[t]
    {
    }
  }

  /** Its overrides and memberships are gone, and nobody else's; boards, groups and their grants stay. */
  lemma GrantsAreDeleted(db: DB, user: Id, name: string, hash: Digest)
    requires DeleteAccount(db, user, name, hash).Committed?
    ensures var after := DeleteAccount(db, user, name, hash).db;
      var r := after.rooms;
      && after.mode == db.mode
      && r == db.rooms.(boardMembers := r.boardMembers, groupMembers := r.groupMembers)
      && (forall k :: k in r.boardMembers <==> k in db.rooms.boardMembers && k.1 != user)
      && (forall k :: k in r.boardMembers ==> r.boardMembers[k] == db.rooms.boardMembers[k])
      && (forall m :: m in r.groupMembers <==> m in db.rooms.groupMembers && m.1 != user)
  {
  }

  /** The log keeps every entry, but not the account's name as the one who acted or was acted upon. */
  lemma LogForgetsTheAccount(db: DB, user: Id, name: string, hash: Digest)
    requires DeleteAccount(db, user, name, hash).Committed?
    ensures var after := DeleteAccount(db, user, name, hash).db;
      && |after.events| == |db.events|
      && forall i :: 0 <= i < |db.events| ==>
           var e := db.events[i];
           after.events[i] == e.(
             actorName := if e.actor == Some(user) then "Former member" else e.actorName,
             subject := if e.subject == name then "Former member" else e.subject)
  {
  }
}
