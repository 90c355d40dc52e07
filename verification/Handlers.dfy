/** The handlers that post a message: they check the page they read, upload, try to commit and clean up
    if that fails. `checked` is the database as it was when the page was read; other requests may have
    done anything to the store since, and go on doing so. */
module Handlers {
  import opened Schema
  import opened Permissions
  import opened Transactions
  import opened Imvault
  import opened Listing
  import opened Uploads
  import PermissionLaws
  import PostEffects
  import PostOps
  import States
  import Store

  /** What the board's page allowed when it was read. */
  predicate MayPost(checked: DB, reader: Reader, board: Id) {
    VisibleBoard(checked, reader, board)
    && BoardWriteError(BoardAccess(checked.rooms, board, reader), checked.rooms.boards[board].archived) == None
  }

  /** The transaction's own conditions for a new conversation, on the database as it is by then. */
  predicate StillOpen(db: DB, board: Id, author: Id, audience: Audience) {
    BoardForWriter(db, board, author) == None && audience == BoardAudience(db.rooms.boards[board], db.mode)
  }

  /** The check made when the page is read and the one made in the transaction come to the same: on the same
      database, for someone who may write at all, one passes exactly when the other does. */
  lemma ChecksAgree(db: DB, board: Id, author: Id)
    ensures BoardForWriter(db, board, author) == None <==>
            CanWrite(db, author) == None && MayPost(db, ReaderOf(db.accounts, author), board)
  {
  }

  /** And what the transaction asks for is what starting a conversation needs. */
  lemma StillOpenIsNeeded(db: DB, board: Id, author: Id, title: string, body: string, audience: Audience,
                          images: seq<Image>, now: Time)
    ensures PostOps.CreateTopic(db, board, author, title, body, audience, images, now).Committed? <==>
            && StillOpen(db, board, author, audience)
            && 3 <= |title| <= 160 && 1 <= |body| <= 20000 && PostEffects.ImagesFit(db.accounts.users, images)
  {
    PostEffects.StartsTopicExactly(db, board, author, title, body, audience, images, now);
  }

  /** What a request leaves at the image server. If the message was posted, nothing was deleted, and its
      images, at most four, are exactly those chosen, those linked and those the server said it created;
      if not, every file the server said it created was deleted again, and nothing else. */
  ghost predicate Tidied(reported: seq<string>, deleted: seq<string>, reported': seq<string>, deleted': seq<string>,
                         wanted: Wanted, parse: string -> Option<string>, posted: bool, images: seq<Image>)
  {
    if posted then
      && deleted' == deleted && reported <= reported' && |images| <= MAX_IMAGES
      && IdsOf(images) == Elements(wanted.ids) + Linked(parse, wanted.links) + Elements(reported'[|reported|..])
    else
      Balanced(reported, deleted, reported', deleted', [])
  }

  /** When nothing is posted, an image that was only chosen or linked is safe: one is deleted exactly if
      the server said that this request had created it. */
  lemma ChosenImagesAreSafe(reported: seq<string>, deleted: seq<string>, reported': seq<string>,
          deleted': seq<string>, id: string)
    requires Balanced(reported, deleted, reported', deleted', [])
    ensures id in deleted'[|deleted|..] <==> id in reported'[|reported|..]
  {
    assert id in multiset(deleted'[|deleted|..]) <==> id in multiset(reported'[|reported|..]);
  }

  /** The images a request wants, or nothing left behind. */
  method Obtain(client: Client, poster: Poster, wanted: Wanted, ghost users: map<Id, User>)
    returns (p: Preparation, ok: bool)
    modifies client
    ensures fresh(p) && p.Valid() && p.client == client
    ensures match Obtained(client.server, poster, wanted, old(client.requests))
      case None => !ok && Balanced(old(client.reported), old(client.deleted), client.reported, client.deleted, [])
      case Some(g) => ok && p.images == g.images
    ensures ok ==>
      && |p.images| <= MAX_IMAGES
      && client.deleted == old(client.deleted) && client.reported == old(client.reported) + p.created
      && Balanced(old(client.reported), old(client.deleted), client.reported, client.deleted, p.created)
      && IdsOf(p.images) == Elements(wanted.ids) + Linked(client.server.parse, wanted.links) + Elements(p.created)
      && (poster.user in users ==> PostOps.ImagesAllowed(users, p.images))
  {
    p := new Preparation(client, poster);
    ok := p.Prepare(wanted);
    if !ok {
      p.GiveUp(old(client.reported), old(client.deleted));
    } else {
      ObtainedAre(client.server, poster, wanted, old(client.requests));
      if poster.user in users {
        TidyIsAllowed(p.images, client.server.base, poster.user, users);
      }
    }
  }

  method CreateTopic(store: Store.Store, client: Client, checked: DB, mode: Mode, reader: Reader, token: bool,
                     board: Id, title: string, body: string, audience: Audience, wanted: Wanted, now: Time)
    returns (r: Option<Id>)
    requires store.Valid() && store.clock <= now
    modifies store, client
    ensures store.Valid() && old(store.run) <= store.run && store.clock <= now
    ensures var images := Obtained(client.server, Poster(reader.id, token), wanted, old(client.requests));
      && (r.Some? <==>
            && MayPost(checked, reader, board)
            && ValidText(TrimSpace(title), 3, 160) && ValidText(TrimSpace(body), 1, 20000)
            && audience == BoardAudience(checked.rooms.boards[board], mode)
            && images.Some? && StillOpen(old(store.db), board, reader.id, audience))
      && (r.Some? ==> Settles(old(store.db), store.db, Ok(r.value), PostOps.CreateTopic(
            old(store.db), board, reader.id, TrimSpace(title), TrimSpace(body), audience, images.value.images, now)))
      && (r == None ==> store.db == old(store.db))
      && Tidied(old(client.reported), old(client.deleted), client.reported, client.deleted,
                wanted, client.server.parse, r.Some?, if images.Some? then images.value.images else [])
  {
    if !MayPost(checked, reader, board) {
      return None;
    }
    var t, b := TrimSpace(title), TrimSpace(body);
    if !ValidText(t, 3, 160) || !ValidText(b, 1, 20000)
       || audience != BoardAudience(checked.rooms.boards[board], mode) {
      return None;
    }
    var p, ok := Obtain(client, Poster(reader.id, token), wanted, store.db.accounts.users);
    if !ok {
      return None;
    }
    var id := store.CreateTopic(board, reader.id, t, b, audience, p.images, now);
    if id.Err? {
      p.GiveUp(old(client.reported), old(client.deleted));
      return None;
    }
    return Some(id.value);
  }

  method Reply(store: Store.Store, client: Client, checked: DB, reader: Reader, token: bool, topic: Id,
               body: string, wanted: Wanted, now: Time)
    returns (r: Option<PostOps.Reply>)
    requires store.Valid() && store.clock <= now
    modifies store, client
    ensures store.Valid() && old(store.run) <= store.run && store.clock <= now
    ensures var images := Obtained(client.server, Poster(reader.id, token), wanted, old(client.requests));
      && (r.Some? <==>
            && VisibleTopic(checked, reader, topic) && MayPost(checked, reader, checked.content.topics[topic].board)
            && ValidText(TrimSpace(body), 1, 20000)
            && images.Some? && PermissionLaws.MayReply(old(store.db), topic, reader.id))
      && (r.Some? ==> Settles(old(store.db), store.db, Ok(r.value),
            PostOps.AddReply(old(store.db), topic, reader.id, TrimSpace(body), images.value.images, now)))
      && (r == None ==> store.db == old(store.db))
      && Tidied(old(client.reported), old(client.deleted), client.reported, client.deleted,
                wanted, client.server.parse, r.Some?, if images.Some? then images.value.images else [])
  {
    if !VisibleTopic(checked, reader, topic) || !MayPost(checked, reader, checked.content.topics[topic].board) {
      return None;
    }
    var b := TrimSpace(body);
    if !ValidText(b, 1, 20000) {
      return None;
    }
    var p, ok := Obtain(client, Poster(reader.id, token), wanted, store.db.accounts.users);
    if !ok {
      return None;
    }
    States.AccountsAreOk(store.start, store.run);
    PermissionLaws.ReplySucceedsExactly(store.db, topic, reader.id, b, p.images, now);
    var reply := store.Reply(topic, reader.id, b, p.images, now);
    if reply.Err? {
      p.GiveUp(old(client.reported), old(client.deleted));
      return None;
    }
    return Some(reply.value);
  }
}
