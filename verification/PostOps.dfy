/** Conversations, messages and their images: the transactions of store.go, image_store.go, editing.go,
    community_store.go and account_delete.go on those tables. */
module PostOps {
  import opened Schema
  import opened Permissions
  import opened AccountOps

  const REMOVED_MESSAGE := "This message was removed by a site owner."
  const DELETED_MESSAGE := "This message was deleted by its author."
  const PLAIN_TITLE := "Conversation"

  // ----- Numbers -----

  /** The messages of `topic` up to `post`. */
  function Upto(posts: map<Id, Post>, topic: Id, post: Id): set<Id> {
    set q | q in posts && posts[q].topic == topic && q <= post
  }

  /** A message's number: how many messages of its conversation have an identifier up to its own. */
  function Number(posts: map<Id, Post>, post: Id): nat
    requires post in posts
  {
    |Upto(posts, posts[post].topic, post)|
  }

  function PostsIn(posts: map<Id, Post>, topic: Id): set<Id> {
    set q | q in posts && posts[q].topic == topic
  }

  // ----- Images -----

  /** The table's constraints on the images of one new message: no image twice, and credentials of
      existing accounts. */
  predicate ImagesAllowed(users: map<Id, User>, images: seq<Image>) {
    && (forall i, j | 0 <= i < j < |images| ::
      images[i].server != images[j].server || images[i].remoteId != images[j].remoteId)
    && (forall image | image in images :: image.credential.Some? ==> image.credential.value in users)
  }

  /** Images shown on the credential of `user`, or on none. */
  ghost predicate OnOwnCredential(images: seq<Image>, user: Id) {
    forall image | image in images :: image.credential in {None, Some(user)}
  }

  /** The `n` identifiers after `last`. */
  function NewIds(last: nat, n: nat): (ids: set<Id>)
    ensures forall a :: a in ids <==> last < a <= last + n
  {
    if n == 0 then {} else NewIds(last, n - 1) + {last + n}
  }

  ghost function Attach(c: Content, post: Id, images: seq<Image>): Content {
    c.(attachments := c.attachments + (map a | a in NewIds(c.lastAttachment, |images|) ::
         Attachment(post, images[a - c.lastAttachment - 1])),
       lastAttachment := c.lastAttachment + |images|)
  }

  // ----- Posting -----

  /** A new message at the end of its conversation, with its images. */
  ghost function AddPost(c: Content, topic: Id, author: Id, body: string, images: seq<Image>, now: Time): Content {
    var id := c.lastPost + 1;
    Attach(c.(posts := c.posts[id := Post(topic, author, body, now, 0, 0, false)], lastPost := id), id, images)
  }

  predicate ValidTitle(title: string) {
    3 <= |title| <= 160
  }

  predicate ValidBody(body: string) {
    1 <= |body| <= 20000
  }

  ghost function CreateTopic(db: DB, board: Id, author: Id, title: string, body: string, audience: Audience,
                             images: seq<Image>, now: Time): Outcome<Id>
  {
    match BoardForWriter(db, board, author)
    case Some(e) => RolledBack(e)
    case None =>
      if audience != BoardAudience(db.rooms.boards[board], db.mode) then RolledBack(AudienceChanged)
      else if !ValidTitle(title) || !ValidBody(body) || !ImagesAllowed(db.accounts.users, images)
      then RolledBack(Constraint)
      else
        var id := db.content.lastTopic + 1;
        var c := db.content.(topics := db.content.topics[id := Topic(board, author, title, now, now, audience)],
          lastTopic := id);
        Committed(db.(content := AddPost(c, id, author, body, images, now)), id)
  }

  /** The new message's identifier, and the count that places it on a page. */
  datatype Reply = Reply(post: Id, count: nat)

  ghost function AddReply(db: DB, topic: Id, author: Id, body: string, images: seq<Image>, now: Time): Outcome<Reply> {
    match CanWrite(db, author)
    case Some(e) => RolledBack(e)
    case None =>
      if topic !in db.content.topics then RolledBack(NoRows)
      else
        var t := db.content.topics[topic];
        if t.audience == Owners && db.accounts.users[author].role != Owner then RolledBack(NoRows)
        else match BoardForWriter(db, t.board, author)
          case Some(e) => RolledBack(e)
          case None =>
            if !ValidBody(body) || !ImagesAllowed(db.accounts.users, images) then RolledBack(Constraint)
            else
              var added := AddPost(db.content, topic, author, body, images, now);
              var c := added.(topics := added.topics[topic := t.(updatedAt := now)]);
              Committed(db.(content := c), Reply(db.content.lastPost + 1, |PostsIn(c.posts, topic)|))
  }

  // ----- Editing -----

  ghost function EditPost(db: DB, id: Id, author: Id, body: string, revision: int, now: Time): Outcome<Post> {
    var text := TrimSpace(body);
    if !ValidText(text, 1, 20000) then RolledBack(PostBody)
    else match RequireActive(db.accounts, author)
      case Some(e) => RolledBack(e)
      case None =>
        if !ReadablePost(db, ReaderOf(db.accounts, author), id) then RolledBack(NoRows)
        else
          var p := db.content.posts[id];
          if p.author != author then RolledBack(NoRows)
          else match BoardForWriter(db, db.content.topics[p.topic].board, author)
            case Some(e) => RolledBack(e)
            case None =>
              if p.revision != revision then RolledBack(EditConflict)
              else if p.body == text then Committed(db, p)
              else
                var edited := p.(body := text, editedAt := now, revision := p.revision + 1);
                Committed(db.(content := db.content.(posts := db.content.posts[id := edited])), edited)
  }

  // ----- Removing -----

  function WithoutImages(attachments: map<Id, Attachment>, post: Id): map<Id, Attachment> {
    map a | a in attachments && attachments[a].post != post :: attachments[a]
  }

  function Digits(n: nat, base: nat): string
    requires 2 <= base <= 36
  {
    var digits := "0123456789abcdefghijklmnopqrstuvwxyz";
    if n < base then [digits[n]]
    else
      assert n == base * (n / base) + n % base >= 2 * (n / base);
      Digits(n / base, base) + [digits[n % base]]
  }

  /** A positive identifier in the given base. */
  function Numeral(id: Id, base: nat): string
    requires 2 <= base <= 36
  {
    Digits(if id < 0 then 0 else id, base)
  }

  function Subject(post: Id, topic: Id): string {
    "message " + Numeral(post, 10) + " in conversation " + Numeral(topic, 10)
  }

  ghost function RemovePost(db: DB, owner: Id, id: Id, revision: int, replaceTitle: bool, now: Time): Outcome<Post> {
    match RequireOwner(db.accounts, owner)
    case Some(e) => RolledBack(e)
    case None =>
      if !ReadablePost(db, Reader(owner, true), id) then RolledBack(NoRows)
      else
        var c := db.content;
        var p := c.posts[id];
        if p.revision != revision || (replaceTitle && Number(c.posts, id) != 1) then RolledBack(CommunityConflict)
        else
          var removed := p.(body := REMOVED_MESSAGE, removed := true, revision := p.revision + 1);
          var topics := if replaceTitle then
              c.topics[p.topic := c.topics[p.topic].(title := PLAIN_TITLE)]
            else c.topics;
          var event := OwnerEvent(db, owner, "remove-message", Subject(id, p.topic), Some(id), replaceTitle, now);
          Committed(db.(
            content := c.(attachments := WithoutImages(c.attachments, id),
                          posts := c.posts[id := removed], topics := topics),
            events := db.events + [event]), removed)
  }

  // ----- Deleting an account -----

  function LiveOwners(users: map<Id, User>): set<Id> {
    set u | u in users && users[u].role == Owner && !users[u].deleted
  }

  function CheckDeletion(a: Accounts, user: Id, name: string, hash: Digest): Option<Error> {
    match RequireActive(a, user)
    case Some(e) => Some(e)
    case None =>
      var u := a.users[user];
      if u.deleted then Some(NoRows)
      else if name != u.name || hash != u.hash then Some(AccountChanged)
      else if u.role == Owner && |LiveOwners(a.users)| <= 1 then Some(LastOwner)
      else None
  }

  /** The name that stands for a deleted account: "~d" and its identifier in base 36. */
  function Tombstone(user: Id): string {
    "~d" + Numeral(user, 36)
  }

  /** The row that is left: it keeps positions and references, and nothing else. */
  function Blanked(u: User, user: Id): User {
    User(Tombstone(user), "", Member, 0, false, None, "", None, "", true, u.suspensionRevision + 1, true)
  }

  /** The users table after a deletion: nobody is left invited by the account or through its links. */
  ghost function UsersAfterDeletion(a: Accounts, user: Id): map<Id, User> {
    map u | u in a.users ::
      if u == user then Blanked(a.users[user], user)
      else
        var row := a.users[u];
        var unlinked := if row.invitedBy == Some(user) then row.(invitedBy := None, invitedByName := "") else row;
        if row.invitationId.Some? && row.invitationId.value in a.invitations
           && a.invitations[row.invitationId.value].createdBy == user
        then unlinked.(invitationId := None) else unlinked
  }

  ghost function AccountsAfterDeletion(a: Accounts, user: Id): Accounts {
    Accounts(UsersAfterDeletion(a, user), SessionsWithout(a.sessions, user), TokensWithout(a.tokens, user),
             map i | i in a.invitations && a.invitations[i].createdBy != user :: a.invitations[i])
  }

  function UsersRows(rows: map<(Id, Id), Access>, user: Id): map<(Id, Id), Access> {
    map k | k in rows && k.1 != user :: rows[k]
  }

  function RoomsAfterDeletion(r: Rooms, user: Id): Rooms {
    r.(boardMembers := UsersRows(r.boardMembers, user),
       groupMembers := set m | m in r.groupMembers && m.1 != user)
  }

  ghost function ContentAfterDeletion(c: Content, user: Id): Content {
    c.(attachments := map a | a in c.attachments &&
         !(c.attachments[a].post in c.posts && c.posts[c.attachments[a].post].author == user) &&
         c.attachments[a].image.credential != Some(user) :: c.attachments[a],
       posts := map p | p in c.posts ::
         if c.posts[p].author == user && !c.posts[p].removed
         then c.posts[p].(body := DELETED_MESSAGE, revision := c.posts[p].revision + 1) else c.posts[p],
       topics := map t | t in c.topics ::
         if c.topics[t].author == user then c.topics[t].(title := PLAIN_TITLE) else c.topics[t])
  }

  const FORMER := "Former member"

  /** The log forgets who acted, and whom events with the account's name were about. */
  function EventsAfterDeletion(events: seq<Event>, user: Id, name: string): seq<Event> {
    seq(|events|, i requires 0 <= i < |events| =>
      var e := events[i];
      e.(actorName := if e.actor == Some(user) then FORMER else e.actorName,
         subject := if e.subject == name then FORMER else e.subject))
  }

  ghost function DeleteAccount(db: DB, user: Id, name: string, hash: Digest): Outcome<()> {
    match CheckDeletion(db.accounts, user, name, hash)
    case Some(e) => RolledBack(e)
    case None =>
      if NameTaken(db.accounts.users - {user}, Tombstone(user)) || !ValidName(Tombstone(user))
      then RolledBack(Constraint)
      else Committed(DB(db.mode, AccountsAfterDeletion(db.accounts, user), RoomsAfterDeletion(db.rooms, user),
                        ContentAfterDeletion(db.content, user), EventsAfterDeletion(db.events, user, name)), ())
  }

  // ----- All of them -----

  datatype Action =
    | DoCreateTopic(board: Id, author: Id, title: string, body: string, audience: Audience, images: seq<Image>)
    | DoReply(topic: Id, author: Id, body: string, images: seq<Image>)
    | DoEditPost(id: Id, author: Id, body: string, revision: int)
    | DoRemovePost(owner: Id, id: Id, revision: int, replaceTitle: bool)

  ghost function Apply(db: DB, a: Action, now: Time): DB {
    match a
    case DoCreateTopic(board, author, title, body, audience, images) =>
      CreateTopic(db, board, author, title, body, audience, images, now).After(db)
    case DoReply(topic, author, body, images) => AddReply(db, topic, author, body, images, now).After(db)
    case DoEditPost(id, author, body, revision) => EditPost(db, id, author, body, revision, now).After(db)
    case DoRemovePost(owner, id, revision, replaceTitle) =>
      RemovePost(db, owner, id, revision, replaceTitle, now).After(db)
  }

  lemma ApplyFrame(db: DB, a: Action, now: Time)
    ensures var after := Apply(db, a, now);
      after == DB(db.mode, db.accounts, db.rooms, after.content, after.events)
  {
  }
}
