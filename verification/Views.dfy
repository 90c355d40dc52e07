/** What readers are shown: the feed of recent messages, the pages of a conversation, and search. */
module Views {
  import opened Schema
  import opened Permissions
  import opened Listing
  import PostOps
  import Search

  function Author(users: map<Id, User>, u: Id): string {
    if u !in users || users[u].deleted then PostOps.FORMER else users[u].name
  }

  // ----- Recent -----

  /** Messages a reader may see, in boards that are not archived. */
  ghost function Feed(db: DB, reader: Reader): set<Id> {
    set p | p in db.content.posts && ReadablePost(db, reader, p) &&
            !db.rooms.boards[db.content.topics[db.content.posts[p].topic].board].archived
  }

  /** ORDER BY created_at DESC, id DESC */
  ghost function NewestFirst(posts: map<Id, Post>): Id -> Key {
    p => if p in posts then (-posts[p].createdAt, -p) else (0, -p)
  }

  /** A row of the feed. */
  datatype Row = Row(
    id: Id, topic: Id, author: Id, body: string, authorName: string, createdAt: Time, editedAt: Time,
    revision: nat, number: nat, title: string, board: Id, boardName: string, audience: Audience,
    restricted: bool, access: Access)

  ghost function RowOf(db: DB, reader: Reader, p: Id): Row
    requires p in Feed(db, reader)
  {
    var post := db.content.posts[p];
    var topic := db.content.topics[post.topic];
    var board := db.rooms.boards[topic.board];
    Row(p, post.topic, post.author, post.body, Author(db.accounts.users, post.author), post.createdAt, post.editedAt,
        post.revision, PostOps.Number(db.content.posts, p), topic.title, topic.board, board.name, topic.audience,
        board.restricted, BoardAccess(db.rooms, topic.board, reader))
  }

  ghost function FeedList(db: DB, reader: Reader): seq<Id> {
    Sorted(NewestFirst(db.content.posts), Feed(db, reader))
  }

  lemma FeedIsDistinguished(db: DB, reader: Reader)
    ensures Distinguishes(NewestFirst(db.content.posts), Feed(db, reader))
  {
  }

  /** The feed lists every message the reader may see exactly once, newest first, and reading its pages
      while there is more gives the whole of it, whatever the page size. */
  lemma FeedPagesListEverything(db: DB, reader: Reader, limit: nat, n: nat)
    requires n > 0 && !More(FeedList(db, reader), limit, (n - 1) * limit)
    ensures var read := Pages(FeedList(db, reader), limit, n);
      && |read| == |Feed(db, reader)|
      && (forall p :: p in read <==> p in Feed(db, reader))
      && Ordered(NewestFirst(db.content.posts), read)
  {
    FeedIsDistinguished(db, reader);
    SortedListsAll(NewestFirst(db.content.posts), Feed(db, reader));
    PagesPartition(FeedList(db, reader), limit, n);
  }

  // ----- What a reader can tell apart -----

  /** Two databases look alike to a reader: the same conversations are visible in the same boards, with the
      same rows, and hold the same messages by authors of the same name. Whatever else there is may differ. */
  ghost predicate LooksAlike(db: DB, db': DB, reader: Reader) {
    && (forall t :: VisibleTopic(db, reader, t) <==> VisibleTopic(db', reader, t))
    && (forall t :: VisibleTopic(db, reader, t) ==> SameTopic(db, db', reader, t))
    && (forall p :: Shown(db, reader, p) <==> Shown(db', reader, p))
    && (forall p :: Shown(db, reader, p) ==> SamePost(db, db', p))
  }

  ghost predicate Shown(db: DB, reader: Reader, p: Id) {
    p in db.content.posts && VisibleTopic(db, reader, db.content.posts[p].topic)
  }

  ghost predicate SameTopic(db: DB, db': DB, reader: Reader, t: Id)
    requires VisibleTopic(db, reader, t) && VisibleTopic(db', reader, t)
  {
    var board := db.content.topics[t].board;
    && db.content.topics[t] == db'.content.topics[t]
    && db.rooms.boards[board] == db'.rooms.boards[board]
    && BoardAccess(db.rooms, board, reader) == BoardAccess(db'.rooms, board, reader)
  }

  ghost predicate SamePost(db: DB, db': DB, p: Id)
    requires p in db.content.posts && p in db'.content.posts
  {
    && db.content.posts[p] == db'.content.posts[p]
    && Author(db.accounts.users, db.content.posts[p].author) == Author(db'.accounts.users, db'.content.posts[p].author)
  }

  lemma SameFeed(db: DB, db': DB, reader: Reader)
    requires LooksAlike(db, db', reader)
    ensures Feed(db, reader) == Feed(db', reader)
  {
    forall p ensures p in Feed(db, reader) <==> p in Feed(db', reader) {
      assert Shown(db, reader, p) <==> Shown(db', reader, p);
    }
  }

  lemma SameNumber(db: DB, db': DB, reader: Reader, p: Id)
    requires LooksAlike(db, db', reader) && Shown(db, reader, p)
    ensures PostOps.Number(db.content.posts, p) == PostOps.Number(db'.content.posts, p)
  {
    var t := db.content.posts[p].topic;
    forall q ensures q in PostOps.Upto(db.content.posts, t, p) <==> q in PostOps.Upto(db'.content.posts, t, p) {
      assert Shown(db, reader, q) <==> Shown(db', reader, q);
    }
    assert PostOps.Upto(db.content.posts, t, p) == PostOps.Upto(db'.content.posts, t, p);
  }

  /** Hidden messages cannot be told from the feed: databases that look alike to a reader have the same
      list for them, so the same pages, in order and in content. */
  lemma HiddenPostsDoNotShow(db: DB, db': DB, reader: Reader)
    requires LooksAlike(db, db', reader)
    ensures FeedList(db, reader) == FeedList(db', reader)
    ensures forall p :: p in Feed(db, reader) ==>
      p in Feed(db', reader) && RowOf(db, reader, p) == RowOf(db', reader, p)
  {
    SameFeed(db, db', reader);
    FeedIsDistinguished(db, reader);
    var key, key' := NewestFirst(db.content.posts), NewestFirst(db'.content.posts);
    forall p | p in Feed(db, reader) ensures key(p) == key'(p) {
      assert Shown(db, reader, p);
    }
    SortedDepends(key, key', Feed(db, reader));
    forall p | p in Feed(db, reader) ensures p in Feed(db', reader) && RowOf(db, reader, p) == RowOf(db', reader, p) {
      assert Shown(db, reader, p);
      SameNumber(db, db', reader, p);
    }
  }

  // ----- Conversations -----

  /** ORDER BY id */
  ghost function ById(): Id -> Key {
    p => (p, 0)
  }

  /** The messages of a conversation in the order they are listed. */
  ghost function TopicList(posts: map<Id, Post>, topic: Id): seq<Id> {
    Sorted(ById(), PostOps.PostsIn(posts, topic))
  }

  lemma UptoIsPrefix(posts: map<Id, Post>, topic: Id, list: seq<Id>, i: nat)
    requires Ordered(ById(), list) && i < |list|
    requires forall x :: x in list <==> x in PostOps.PostsIn(posts, topic)
    ensures Elements(list[..i + 1]) == PostOps.Upto(posts, topic, list[i])
  {
    var prefix := list[..i + 1];
    forall x | x in prefix ensures x in PostOps.Upto(posts, topic, list[i]) {
      var j :| 0 <= j < |prefix| && prefix[j] == x;
      assert list[j] == x && x in list;
      assert j < i ==> Before(ById()(list[j]), ById()(list[i]));
    }
    forall x | x in PostOps.Upto(posts, topic, list[i]) ensures x in prefix {
      assert x in list;
      var j :| 0 <= j < |list| && list[j] == x;
      assert prefix[j] == x;
    }
  }

  /** A message's number is its place in the listing, counted from 1. */
  lemma NumberIsPosition(posts: map<Id, Post>, p: Id)
    requires p in posts
    ensures var list, n := TopicList(posts, posts[p].topic), PostOps.Number(posts, p);
      1 <= n <= |list| && list[n - 1] == p
  {
    var topic := posts[p].topic;
    SortedListsAll(ById(), PostOps.PostsIn(posts, topic));
    var list := TopicList(posts, topic);
    assert p in list;
    var i :| 0 <= i < |list| && list[i] == p;
    UptoIsPrefix(posts, topic, list, i);
    DistinctCount(list[..i + 1]);
  }

  /** A permalink is right: the page its number points to lists the message, and the listing's own
      count (offset, place, and one) is that number. */
  lemma PermalinkIsRight(posts: map<Id, Post>, p: Id)
    requires p in posts
    ensures var list, n := TopicList(posts, posts[p].topic), PostOps.Number(posts, p);
      var offset := PageOffset(PageNumber(n));
      var page := Page(list, PAGE_SIZE, offset);
      exists i :: 0 <= i < |page| && page[i] == p && offset + i + 1 == n
  {
    NumberIsPosition(posts, p);
    PermalinkFindsItem(TopicList(posts, posts[p].topic), PostOps.Number(posts, p));
  }

  /** The count a reply returns, which places the writer on its page, is the new message's number. */
  lemma ReplyReturnsItsNumber(db: DB, topic: Id, author: Id, body: string, images: seq<Image>, now: Time)
    requires forall p :: p in db.content.posts ==> p <= db.content.lastPost
    requires PostOps.AddReply(db, topic, author, body, images, now).Committed?
    ensures var o := PostOps.AddReply(db, topic, author, body, images, now);
      && o.value.post in o.db.content.posts
      && o.value.count == PostOps.Number(o.db.content.posts, o.value.post)
  {
    var o := PostOps.AddReply(db, topic, author, body, images, now);
    assert PostOps.Upto(o.db.content.posts, topic, o.value.post) == PostOps.PostsIn(o.db.content.posts, topic);
  }

  // ----- Search -----

  /** The WHERE clause of a search: the title, or some message not removed, is LIKE the pattern. */
  ghost predicate Matches(c: Content, t: Id, pattern: string)
    requires t in c.topics
  {
    || Search.Like(pattern, c.topics[t].title)
    || exists p :: p in c.posts && c.posts[p].topic == t && !c.posts[p].removed && Search.Like(pattern, c.posts[p].body)
  }

  /** What a search finds: visible conversations, archived boards included, that match the pattern. */
  ghost function Found(db: DB, reader: Reader, query: string): set<Id> {
    set t | t in db.content.topics && VisibleTopic(db, reader, t)
      && Matches(db.content, t, "%" + Search.Escaped(query) + "%")
  }

  /** A search finds exactly the visible conversations whose title or unremoved messages contain the
      query, up to ASCII case. */
  lemma SearchFindsLiterally(db: DB, reader: Reader, query: string, t: Id)
    ensures t in Found(db, reader, query) <==>
      && VisibleTopic(db, reader, t)
      && (|| Search.Contains(db.content.topics[t].title, query)
          || exists p :: p in db.content.posts && db.content.posts[p].topic == t && !db.content.posts[p].removed
                         && Search.Contains(db.content.posts[p].body, query))
  {
    if t in db.content.topics {
      Search.SearchIsLiteral(query, db.content.topics[t].title);
    }
    forall p | p in db.content.posts
      ensures Search.Like("%" + Search.Escaped(query) + "%", db.content.posts[p].body)
              <==> Search.Contains(db.content.posts[p].body, query)
    {
      Search.SearchIsLiteral(query, db.content.posts[p].body);
    }
  }
}
