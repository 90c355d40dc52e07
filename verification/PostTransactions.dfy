/** The statements of the transactions on conversations, messages, images and the activity log. */
module PostTransactions {
  import opened Schema
  import opened Permissions
  import opened Transactions
  import AccountOps
  import PostOps

  method InsertPost(tx: Tx, topic: Id, author: Id, body: string, now: Time) returns (r: Result<Id>)
    modifies tx
    ensures var c := old(tx.rows.content);
      if PostOps.ValidBody(body)
      then r == Ok(c.lastPost + 1) && tx.rows == old(tx.rows).(content := c.(
             posts := c.posts[c.lastPost + 1 := Post(topic, author, body, now, 0, 0, false)],
             lastPost := c.lastPost + 1))
      else r == Err(Constraint)
  {
    if !PostOps.ValidBody(body) {
      return Err(Constraint);
    }
    var c := tx.rows.content;
    var id := c.lastPost + 1;
    tx.rows := tx.rows.(content := c.(
      posts := c.posts[id := Post(topic, author, body, now, 0, 0, false)], lastPost := id));
    return Ok(id);
  }

  // ----- Images -----

  predicate SameImage(a: Image, b: Image) {
    a.server == b.server && a.remoteId == b.remoteId
  }

  /** UNIQUE (post_id, server, remote_id). */
  predicate Clashes(c: Content, post: Id, image: Image) {
    exists a | a in c.attachments :: c.attachments[a].post == post && SameImage(c.attachments[a].image, image)
  }

  lemma AttachPush(c: Content, post: Id, images: seq<Image>, image: Image)
    ensures var d := PostOps.Attach(c, post, images);
      PostOps.Attach(c, post, images + [image])
      == d.(attachments := d.attachments[d.lastAttachment + 1 := Attachment(post, image)],
        lastAttachment := d.lastAttachment + 1)
  {
  }

  /** While one new message gets its images, only they can clash. */
  lemma ClashesAre(c: Content, post: Id, images: seq<Image>, image: Image)
    requires forall a :: a in c.attachments ==> c.attachments[a].post != post
    ensures Clashes(PostOps.Attach(c, post, images), post, image) <==>
      exists k | 0 <= k < |images| :: SameImage(images[k], image)
  {
    var d := PostOps.Attach(c, post, images);
    forall k | 0 <= k < |images| && SameImage(images[k], image) ensures Clashes(d, post, image) {
      assert d.attachments[c.lastAttachment + 1 + k] == Attachment(post, images[k]);
    }
  }

  predicate CredentialKnown(users: map<Id, User>, image: Image) {
    image.credential.Some? ==> image.credential.value in users
  }

  lemma AllowedPush(users: map<Id, User>, images: seq<Image>, image: Image)
    ensures PostOps.ImagesAllowed(users, images + [image]) <==>
      && PostOps.ImagesAllowed(users, images)
      && !(exists k | 0 <= k < |images| :: SameImage(images[k], image))
      && CredentialKnown(users, image)
  {
    var more := images + [image];
    assert more[..|images|] == images && more[|images|] == image;
    if PostOps.ImagesAllowed(users, more) {
      forall k | 0 <= k < |images| ensures !SameImage(images[k], image) && images[k] in more {
        assert more[k] == images[k];
      }
      assert image in more;
    }
  }

  lemma AllowedPrefix(users: map<Id, User>, images: seq<Image>, i: nat)
    requires i <= |images|
    ensures PostOps.ImagesAllowed(users, images) ==> PostOps.ImagesAllowed(users, images[..i])
  {
  }

  lemma MayAttach(c: Content, users: map<Id, User>, post: Id, images: seq<Image>, image: Image)
    requires forall a :: a in c.attachments ==> c.attachments[a].post != post
    requires PostOps.ImagesAllowed(users, images)
    ensures PostOps.ImagesAllowed(users, images + [image]) ==
      (!Clashes(PostOps.Attach(c, post, images), post, image) && CredentialKnown(users, image))
  {
    ClashesAre(c, post, images, image);
    AllowedPush(users, images, image);
  }

  /** Inserts one row, or fails on a constraint. */
  method AttachImage(tx: Tx, post: Id, image: Image, ghost before: Content, ghost images: seq<Image>) returns (ok: bool)
    requires forall a :: a in before.attachments ==> before.attachments[a].post != post
    requires tx.rows.content == PostOps.Attach(before, post, images)
    requires PostOps.ImagesAllowed(tx.rows.accounts.users, images)
    modifies tx
    ensures ok == PostOps.ImagesAllowed(old(tx.rows.accounts.users), images + [image])
    ensures ok ==> tx.rows == old(tx.rows).(content := PostOps.Attach(before, post, images + [image]))
  {
    var c := tx.rows.content;
    MayAttach(before, tx.rows.accounts.users, post, images, image);
    ok := !Clashes(c, post, image) && CredentialKnown(tx.rows.accounts.users, image);
    if ok {
      AttachPush(before, post, images, image);
      tx.rows := tx.rows.(content := c.(
        attachments := c.attachments[c.lastAttachment + 1 := Attachment(post, image)],
        lastAttachment := c.lastAttachment + 1));
    }
  }

  method AttachImages(tx: Tx, post: Id, images: seq<Image>) returns (err: Option<Error>)
    requires forall a :: a in tx.rows.content.attachments ==> tx.rows.content.attachments[a].post != post
    modifies tx
    ensures err == if PostOps.ImagesAllowed(old(tx.rows.accounts.users), images) then None else Some(Constraint)
    ensures err == None ==> tx.rows == old(tx.rows).(content := PostOps.Attach(old(tx.rows.content), post, images))
  {
    ghost var before := tx.rows.content;
    ghost var users := tx.rows.accounts.users;
    assert PostOps.Attach(before, post, []) == before;
    for i := 0 to |images|
      invariant PostOps.ImagesAllowed(users, images[..i])
      invariant tx.rows == old(tx.rows).(content := PostOps.Attach(before, post, images[..i]))
    {
      assert images[..i + 1] == images[..i] + [images[i]];
      var ok := AttachImage(tx, post, images[i], before, images[..i]);
      AllowedPrefix(users, images, i + 1);
      if !ok {
        return Some(Constraint);
      }
    }
    assert images[..|images|] == images;
    return None;
  }

  /** Images belong to messages that exist, so a new message has none. */
  ghost predicate ImagesBelong(c: Content) {
    forall a :: a in c.attachments ==> c.attachments[a].post <= c.lastPost
  }

  /** A new message and its images. */
  method AddPost(tx: Tx, topic: Id, author: Id, body: string, images: seq<Image>, now: Time) returns (r: Result<Id>)
    requires ImagesBelong(tx.rows.content)
    modifies tx
    ensures if PostOps.ValidBody(body) && PostOps.ImagesAllowed(old(tx.rows.accounts.users), images)
      then r == Ok(old(tx.rows.content.lastPost) + 1)
           && tx.rows == old(tx.rows).(content :=
                PostOps.AddPost(old(tx.rows.content), topic, author, body, images, now))
      else r == Err(Constraint)
  {
    r := InsertPost(tx, topic, author, body, now);
    if r.Err? {
      return r;
    }
    var err := AttachImages(tx, r.value, images);
    if err.Some? {
      return Err(err.value);
    }
  }

  // ----- The transactions -----

  method CreateTopic(tx: Tx, board: Id, author: Id, title: string, body: string, audience: Audience,
                     images: seq<Image>, now: Time) returns (r: Result<Id>)
    requires ImagesBelong(tx.rows.content)
    modifies tx
    ensures Does(old(tx.rows), tx.rows, r,
      PostOps.CreateTopic(old(tx.rows), board, author, title, body, audience, images, now))
  {
    var err := BoardForWriter(tx.rows, board, author);
    if err.Some? {
      return Err(err.value);
    }
    if audience != BoardAudience(tx.rows.rooms.boards[board], tx.rows.mode) {
      return Err(AudienceChanged);
    }
    if !PostOps.ValidTitle(title) {
      return Err(Constraint);
    }
    var c := tx.rows.content;
    var id := c.lastTopic + 1;
    tx.rows := tx.rows.(content := c.(
      topics := c.topics[id := Topic(board, author, title, now, now, audience)], lastTopic := id));
    var post := AddPost(tx, id, author, body, images, now);
    if post.Err? {
      return Err(post.error);
    }
    return Ok(id);
  }

  method Reply(tx: Tx, topic: Id, author: Id, body: string, images: seq<Image>,
          now: Time) returns (r: Result<PostOps.Reply>)
    requires ImagesBelong(tx.rows.content)
    modifies tx
    ensures Does(old(tx.rows), tx.rows, r, PostOps.AddReply(old(tx.rows), topic, author, body, images, now))
  {
    var err := CanWrite(tx.rows, author);
    if err.Some? {
      return Err(err.value);
    }
    if topic !in tx.rows.content.topics {
      return Err(NoRows);
    }
    var t := tx.rows.content.topics[topic];
    if t.audience == Owners && tx.rows.accounts.users[author].role != Owner {
      return Err(NoRows);
    }
    err := BoardForWriter(tx.rows, t.board, author);
    if err.Some? {
      return Err(err.value);
    }
    var post := AddPost(tx, topic, author, body, images, now);
    if post.Err? {
      return Err(post.error);
    }
    var c := tx.rows.content;
    tx.rows := tx.rows.(content := c.(topics := c.topics[topic := t.(updatedAt := now)]));
    return Ok(PostOps.Reply(post.value, |PostOps.PostsIn(tx.rows.content.posts, topic)|));
  }

  method EditPost(tx: Tx, id: Id, author: Id, body: string, revision: int, now: Time) returns (r: Result<Post>)
    modifies tx
    ensures Does(old(tx.rows), tx.rows, r, PostOps.EditPost(old(tx.rows), id, author, body, revision, now))
  {
    var text := TrimSpace(body);
    if !ValidText(text, 1, 20000) {
      return Err(PostBody);
    }
    var err := RequireActive(tx.rows.accounts, author);
    if err.Some? {
      return Err(err.value);
    }
    if !ReadablePost(tx.rows, ReaderOf(tx.rows.accounts, author), id) {
      return Err(NoRows);
    }
    var p := tx.rows.content.posts[id];
    if p.author != author {
      return Err(NoRows);
    }
    err := BoardForWriter(tx.rows, tx.rows.content.topics[p.topic].board, author);
    if err.Some? {
      return Err(err.value);
    }
    if p.revision != revision {
      return Err(EditConflict);
    }
    if p.body != text {
      p := p.(body := text, editedAt := now, revision := p.revision + 1);
      tx.rows := tx.rows.(content := tx.rows.content.(posts := tx.rows.content.posts[id := p]));
    }
    return Ok(p);
  }

  method RemovePost(tx: Tx, owner: Id, id: Id, revision: int, replaceTitle: bool, now: Time) returns (r: Result<Post>)
    modifies tx
    ensures Does(old(tx.rows), tx.rows, r, PostOps.RemovePost(old(tx.rows), owner, id, revision, replaceTitle, now))
  {
    var err := RequireOwner(tx.rows.accounts, owner);
    if err.Some? {
      return Err(err.value);
    }
    if !ReadablePost(tx.rows, Reader(owner, true), id) {
      return Err(NoRows);
    }
    var c := tx.rows.content;
    var p := c.posts[id];
    if p.revision != revision || (replaceTitle && PostOps.Number(c.posts, id) != 1) {
      return Err(CommunityConflict);
    }
    c := c.(attachments := PostOps.WithoutImages(c.attachments, id));
    p := p.(body := PostOps.REMOVED_MESSAGE, removed := true, revision := p.revision + 1);
    c := c.(posts := c.posts[id := p]);
    if replaceTitle {
      c := c.(topics := c.topics[p.topic := c.topics[p.topic].(title := PostOps.PLAIN_TITLE)]);
    }
    var event := AccountOps.OwnerEvent(tx.rows, owner, "remove-message", PostOps.Subject(id, p.topic), Some(id),
      replaceTitle, now);
    tx.rows := tx.rows.(content := c, events := tx.rows.events + [event]);
    return Ok(p);
  }
}
