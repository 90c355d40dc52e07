/** What time does to images: their addresses are never reused, and nobody's go with someone else's account. */
module ImageLaws {
  import opened Schema
  import opened Permissions
  import opened PostOps
  import AccountOps
  import Machine
  import PostLaws
  import RoomOps
  import States
  import Imvault
  import Uploads

  // ----- Addresses -----

  /** An image's address shows the very same image at every time, or none; and none for ever once it has
      gone, whatever is posted later. */
  lemma AddressesRetire(db: DB, run: Machine.Run, later: Machine.Run, a: Id)
    requires PostLaws.Fits(db) && a in db.content.attachments
    ensures var before, after, end := db.content.attachments,
        Machine.After(db, run).content.attachments, Machine.After(db, run + later).content.attachments;
      && (a in after ==> after[a] == before[a])
      && (a !in after ==> a !in end)
  {
    PostLaws.RunMovesOn(db, run);
    PostLaws.RunMovesOn(Machine.After(db, run), later);
    States.AfterJoins(db, run, later);
  }

  /** A message gets its images when it is posted: none is ever added to it later. */
  lemma NoImageComesLater(db: DB, run: Machine.Run, a: Id, p: Id)
    requires PostLaws.Fits(db) && p in db.content.posts
    ensures var after := Machine.After(db, run).content.attachments;
      a in after && after[a].post == p ==> a in db.content.attachments && db.content.attachments[a] == after[a]
  {
    PostLaws.RunMovesOn(db, run);
    assert PostLaws.PostOk(db.content, db.accounts.users, p);
  }

  // ----- Credentials -----

  /** A post whose images are on its author's own credential or on none, as prepared ones are. */
  ghost predicate OwnImages(a: Machine.Action) {
    && (a.OnPosts? && a.post.DoCreateTopic? ==> OnOwnCredential(a.post.images, a.post.author))
    && (a.OnPosts? && a.post.DoReply? ==> OnOwnCredential(a.post.images, a.post.author))
  }

  /** What a request prepares is: only the poster's own credential is ever used to check an image. */
  lemma PreparedImagesAreOwn(s: Imvault.Server, o: Uploads.Poster, wanted: Uploads.Wanted, requests: nat,
                             board: Id, title: string, topic: Id, body: string, audience: Audience)
    requires Uploads.Obtained(s, o, wanted, requests).Some?
    ensures var images := Uploads.Obtained(s, o, wanted, requests).value.images;
      && OwnImages(Machine.OnPosts(DoCreateTopic(board, o.user, title, body, audience, images)))
      && OwnImages(Machine.OnPosts(DoReply(topic, o.user, body, images)))
  {
    Uploads.ObtainedAre(s, o, wanted, requests);
  }

  ghost predicate AllOwnImages(run: Machine.Run) {
    forall k :: 0 <= k < |run| ==> OwnImages(run[k].action)
  }

  ghost predicate Own(c: Content, a: Id)
    requires a in c.attachments
  {
    && c.attachments[a].post in c.posts
    && c.attachments[a].image.credential in {None, Some(c.posts[c.attachments[a].post].author)}
  }

  ghost predicate CredentialsOk(c: Content) {
    forall a :: a in c.attachments ==> Own(c, a)
  }

  /** A new message's images are those of its form. */
  lemma NewImageIsOwn(c: Content, post: Id, author: Id, images: seq<Image>, a: Id)
    requires OnOwnCredential(images, author) && post in c.posts && c.posts[post].author == author
    requires a in Attach(c, post, images).attachments
    requires a in c.attachments ==> c.attachments[a].post != post
    requires Attach(c, post, images).attachments[a].post == post
    ensures Own(Attach(c, post, images), a)
  {
  }

  lemma ImagesAreOld(db: DB)
    requires PostLaws.Fits(db)
    ensures forall a :: a in db.content.attachments ==> db.content.attachments[a].post <= db.content.lastPost
  {
    forall p | p in db.content.posts ensures p <= db.content.lastPost {
      assert PostLaws.PostOk(db.content, db.accounts.users, p);
    }
  }

  lemma StartedWithOwn(db: DB, board: Id, author: Id, title: string, body: string, audience: Audience,
                       images: seq<Image>, now: Time, image: Id)
    requires PostLaws.Fits(db) && OnOwnCredential(images, author)
    requires var c := CreateTopic(db, board, author, title, body, audience, images, now).After(db).content;
      image in c.attachments && c.attachments[image].post > db.content.lastPost
    ensures Own(CreateTopic(db, board, author, title, body, audience, images, now).After(db).content, image)
  {
    ImagesAreOld(db);
    var c, id, t := db.content, db.content.lastPost + 1, db.content.lastTopic + 1;
    var begun := c.(
      topics := c.topics[t := Topic(board, author, title, now, now, audience)], lastTopic := t,
      posts := c.posts[id := Post(t, author, body, now, 0, 0, false)], lastPost := id);
    if CreateTopic(db, board, author, title, body, audience, images, now).Committed? {
      NewImageIsOwn(begun, id, author, images, image);
    }
  }

  lemma RepliedWithOwn(db: DB, topic: Id, author: Id, body: string, images: seq<Image>, now: Time, image: Id)
    requires PostLaws.Fits(db) && OnOwnCredential(images, author)
    requires var c := AddReply(db, topic, author, body, images, now).After(db).content;
      image in c.attachments && c.attachments[image].post > db.content.lastPost
    ensures Own(AddReply(db, topic, author, body, images, now).After(db).content, image)
  {
    ImagesAreOld(db);
    var c, id := db.content, db.content.lastPost + 1;
    var begun := c.(posts := c.posts[id := Post(topic, author, body, now, 0, 0, false)], lastPost := id);
    if AddReply(db, topic, author, body, images, now).Committed? {
      NewImageIsOwn(begun, id, author, images, image);
    }
  }

  lemma PostedImageIsOwn(db: DB, a: Action, now: Time, image: Id)
    requires PostLaws.Fits(db) && OwnImages(Machine.OnPosts(a))
    requires image in Apply(db, a, now).content.attachments
    requires Apply(db, a, now).content.attachments[image].post > db.content.lastPost
    ensures Own(Apply(db, a, now).content, image)
  {
    match a
    case DoCreateTopic(board, author, title, body, audience, images) =>
      StartedWithOwn(db, board, author, title, body, audience, images, now, image);
    case DoReply(topic, author, body, images) => RepliedWithOwn(db, topic, author, body, images, now, image);
    case DoEditPost(_, _, _, _) => ImagesAreOld(db);
    case DoRemovePost(_, _, _, _) => ImagesAreOld(db);
  }

  lemma NoNewImages(db: DB, a: Machine.Action, now: Time)
    requires !a.OnPosts?
    ensures Machine.Apply(db, a, now).content.attachments.Keys <= db.content.attachments.Keys
  {
    match a
    case SetMode(_) =>
    case OnAccounts(account) => AccountOps.ApplyFrame(db, account, now);
    case OnRooms(room) =>
      if !(room.DoChangeBoard? && room.change == RoomOps.Delete) {
        PostLaws.RoomStepKeepsContent(db, room);
      }
    case DeleteAccount(_, _, _) =>
  }

  /** Only posting makes new messages, so only posting gives one images. */
  lemma ItIsPosted(db: DB, a: Machine.Action, now: Time, image: Id)
    requires PostLaws.Fits(db) && image in Machine.Apply(db, a, now).content.attachments
    requires Machine.Apply(db, a, now).content.attachments[image].post > db.content.lastPost
    ensures a.OnPosts?
  {
    if !a.OnPosts? {
      NoNewImages(db, a, now);
    }
  }

  lemma OldImageStaysOwn(c: Content, users: map<Id, User>, c': Content, image: Id)
    requires CredentialsOk(c) && PostLaws.LaterContent(c, users, c') && PostLaws.LaterImages(c, c')
    requires image in c'.attachments && c'.attachments[image].post in c'.posts
    requires c'.attachments[image].post <= c.lastPost
    ensures Own(c', image)
  {
    assert Own(c, image);
    var p := c.attachments[image].post;
    assert PostLaws.LaterPost(c.posts[p], c'.posts[p], PostLaws.Deleted(users, c.posts[p].author));
  }

  lemma StepKeepsCredentials(db: DB, a: Machine.Action, now: Time)
    requires PostLaws.Fits(db) && CredentialsOk(db.content) && OwnImages(a)
    ensures CredentialsOk(Machine.Apply(db, a, now).content)
  {
    var c, after := db.content, Machine.Apply(db, a, now);
    PostLaws.StepMovesOn(db, a, now);
    PostLaws.StepKeepsImages(db, a, now);
    forall image | image in after.content.attachments ensures Own(after.content, image) {
      if after.content.attachments[image].post > c.lastPost {
        ItIsPosted(db, a, now, image);
        PostedImageIsOwn(db, a.post, now, image);
      } else {
        OldImageStaysOwn(c, db.accounts.users, after.content, image);
      }
    }
  }

  /** Over any run whose posts carry their author's own images, every image shown is on the
      credential of its message's author or on none. */
  lemma {:induction false} RunKeepsCredentials(db: DB, run: Machine.Run)
    requires PostLaws.Fits(db) && CredentialsOk(db.content) && AllOwnImages(run)
    ensures CredentialsOk(Machine.After(db, run).content)
    decreases run
  {
    if run != [] {
      StepKeepsCredentials(db, run[0].action, run[0].now);
      PostLaws.StepMovesOn(db, run[0].action, run[0].now);
      RunKeepsCredentials(Machine.Apply(db, run[0].action, run[0].now), run[1..]);
    }
  }

  /** Deleting an account takes its own messages' images away and nobody else's, although every image on
      its credential goes. */
  lemma DeletionSparesImages(start: DB, run: Machine.Run, user: Id, name: string, hash: Digest, a: Id)
    requires Machine.IsNew(start) && AllOwnImages(run)
    requires DeleteAccount(Machine.After(start, run), user, name, hash).Committed?
    ensures var c := Machine.After(start, run).content;
      var after := DeleteAccount(Machine.After(start, run), user, name, hash).db.content.attachments;
      && (a in after <==>
            && a in c.attachments && c.attachments[a].post in c.posts
            && c.posts[c.attachments[a].post].author != user)
      && (a in after ==> after[a] == c.attachments[a])
  {
    States.EveryStateIsValid(start, []);
    RunKeepsCredentials(start, run);
    States.EveryStateIsValid(start, run);
    var c := Machine.After(start, run).content;
    assert a in c.attachments ==> Own(c, a);
  }
}
