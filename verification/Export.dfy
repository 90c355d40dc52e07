/** A member's export of what they wrote: everything of their own, and of the rest only what they can
    still read. */
module Export {
  import opened Schema
  import opened Permissions
  import opened Listing
  import PostOps
  import PostLaws
  import Views
  import Machine

  datatype BoardRow = BoardRow(id: Id, category: string, name: string)

  datatype TopicRow = TopicRow(
    id: Id, board: Id, title: string, audience: Audience, createdAt: Time, updatedAt: Time, posts: nat)

  datatype AttachmentRow = AttachmentRow(id: Id, image: Image)

  datatype PostRow = PostRow(
    id: Id, topic: Id, board: Id, topicTitle: string, boardName: string, body: string, author: Id, authorName: string,
    createdAt: Time, editedAt: Time, revision: nat, removed: bool, number: nat, attachments: seq<AttachmentRow>)

  datatype Contributions = Contributions(boards: seq<BoardRow>, topics: seq<TopicRow>, posts: seq<PostRow>)

  /** An export is made by `reader` of what account `reader.id` wrote. */
  ghost predicate Own(db: DB, member: Id, p: Id) {
    p in db.content.posts && db.content.posts[p].author == member && db.content.posts[p].topic in db.content.topics
  }

  ghost function OwnPosts(db: DB, member: Id): set<Id> {
    set p | p in db.content.posts && Own(db, member, p)
  }

  ghost function OwnTopics(db: DB, member: Id): set<Id> {
    set p | p in OwnPosts(db, member) :: db.content.posts[p].topic
  }

  ghost function OwnBoards(db: DB, member: Id): set<Id> {
    set t | t in OwnTopics(db, member) && db.content.topics[t].board in db.rooms.boards :: db.content.topics[t].board
  }

  // ----- Rows -----

  ghost function BoardRowOf(db: DB, reader: Reader, b: Id): BoardRow {
    if VisibleBoard(db, reader, b) then BoardRow(b, db.rooms.boards[b].category, db.rooms.boards[b].name)
    else BoardRow(b, "", "")
  }

  ghost function PostCount(db: DB, reader: Reader, t: Id): nat {
    if VisibleTopic(db, reader, t) then |PostOps.PostsIn(db.content.posts, t)|
    else |set p | p in OwnPosts(db, reader.id) && db.content.posts[p].topic == t|
  }

  ghost function TopicRowOf(db: DB, reader: Reader, t: Id): TopicRow
    requires t in db.content.topics
  {
    var topic := db.content.topics[t];
    if VisibleTopic(db, reader, t) then
      TopicRow(t, topic.board, topic.title, topic.audience, topic.createdAt, topic.updatedAt, PostCount(db, reader, t))
    else
      TopicRow(t, topic.board, "", topic.audience, topic.createdAt, topic.createdAt, PostCount(db, reader, t))
  }

  ghost function ByPost(attachments: map<Id, Attachment>): Id -> Key {
    a => if a in attachments then (attachments[a].post, a) else (0, a)
  }

  ghost function ImagesOn(attachments: map<Id, Attachment>, p: Id): set<Id> {
    set a | a in attachments && attachments[a].post == p
  }

  ghost function AttachmentRows(attachments: map<Id, Attachment>, p: Id): seq<AttachmentRow> {
    Mapped(AttachmentRowOf(attachments), Sorted(ByPost(attachments), ImagesOn(attachments, p)))
  }

  ghost function AttachmentRowOf(attachments: map<Id, Attachment>): Id -> AttachmentRow {
    a =>
      if a in attachments then AttachmentRow(a, attachments[a].image)
      else AttachmentRow(a, Image("", "", None, "", Thumb))
  }

  ghost function PostRowOf(db: DB, reader: Reader, p: Id): PostRow
    requires Own(db, reader.id, p)
  {
    var post := db.content.posts[p];
    var topic := db.content.topics[post.topic];
    var seen := VisibleTopic(db, reader, post.topic);
    PostRow(p, post.topic, topic.board,
            if seen then topic.title else "", if seen then db.rooms.boards[topic.board].name else "",
            post.body, post.author, Views.Author(db.accounts.users, post.author),
            post.createdAt, post.editedAt, post.revision, post.removed, PostOps.Number(db.content.posts, p),
            if seen then AttachmentRows(db.content.attachments, p) else [])
  }

  // ----- The export -----

  ghost function Mapped<T, R>(f: T -> R, list: seq<T>): seq<R> {
    seq(|list|, i requires 0 <= i < |list| => f(list[i]))
  }

  lemma MappedDepends<T, R>(f: T -> R, g: T -> R, list: seq<T>)
    requires forall x :: x in list ==> f(x) == g(x)
    ensures Mapped(f, list) == Mapped(g, list)
  {
  }

  ghost function BoardList(db: DB, member: Id): seq<Id> {
    Sorted(ByPosition(db.rooms.boards), OwnBoards(db, member))
  }

  ghost function ByPosition(boards: map<Id, Board>): Id -> Key {
    b => if b in boards then (boards[b].position, b) else (0, b)
  }

  ghost function TopicIds(db: DB, member: Id): seq<Id> {
    Sorted(Views.ById(), OwnTopics(db, member))
  }

  ghost function ByTopic(posts: map<Id, Post>): Id -> Key {
    p => if p in posts then (posts[p].topic, p) else (0, p)
  }

  ghost function PostIds(db: DB, member: Id): seq<Id> {
    Sorted(ByTopic(db.content.posts), OwnPosts(db, member))
  }

  const NO_TOPIC := TopicRow(0, 0, "", Owners, 0, 0, 0)
  const NO_POST := PostRow(0, 0, 0, "", "", "", 0, "", 0, 0, 0, false, 0, [])

  ghost function MemberContributions(db: DB, reader: Reader): Contributions {
    Contributions(
      Mapped(b => BoardRowOf(db, reader, b), BoardList(db, reader.id)),
      Mapped(t => if t in db.content.topics then TopicRowOf(db, reader, t) else NO_TOPIC, TopicIds(db, reader.id)),
      Mapped(p => if Own(db, reader.id, p) then PostRowOf(db, reader, p) else NO_POST, PostIds(db, reader.id)))
  }

  // ----- What an export depends on -----

  /** Two databases hold the same of what a member wrote and can read: their messages; the id, board,
      audience and time of the conversations those are in, and the place of their boards; and the rest
      of those conversations and boards, and the messages' images, only where visible. */
  ghost predicate AgreeFor(db: DB, db': DB, reader: Reader) {
    && OwnPosts(db, reader.id) == OwnPosts(db', reader.id)
    && Views.Author(db.accounts.users, reader.id) == Views.Author(db'.accounts.users, reader.id)
    && (forall p :: Own(db, reader.id, p) ==> SameOwnPost(db, db', reader, p))
    && (forall p :: Own(db, reader.id, p) ==> SameTopicFor(db, db', reader, db.content.posts[p].topic))
  }

  ghost predicate SameOwnPost(db: DB, db': DB, reader: Reader, p: Id)
    requires p in db.content.posts
  {
    && p in db'.content.posts && db.content.posts[p] == db'.content.posts[p]
    && (VisibleTopic(db, reader, db.content.posts[p].topic) ==>
          AttachmentRows(db.content.attachments, p) == AttachmentRows(db'.content.attachments, p))
  }

  ghost predicate SameTopicFor(db: DB, db': DB, reader: Reader, t: Id) {
    && t in db.content.topics && t in db'.content.topics
    && var a, b := db.content.topics[t], db'.content.topics[t];
    && a.board == b.board && a.audience == b.audience && a.createdAt == b.createdAt
    && SameBoardFor(db, db', reader, a.board)
    && (VisibleTopic(db, reader, t) <==> VisibleTopic(db', reader, t))
    && (VisibleTopic(db, reader, t) ==>
          && a == b
          && PostOps.PostsIn(db.content.posts, t) == PostOps.PostsIn(db'.content.posts, t))
  }

  ghost predicate SameBoardFor(db: DB, db': DB, reader: Reader, b: Id) {
    && (b in db.rooms.boards <==> b in db'.rooms.boards)
    && (b in db.rooms.boards ==> db.rooms.boards[b].position == db'.rooms.boards[b].position)
    && (VisibleBoard(db, reader, b) <==> VisibleBoard(db', reader, b))
    && (VisibleBoard(db, reader, b) ==>
          db.rooms.boards[b].name == db'.rooms.boards[b].name
          && db.rooms.boards[b].category == db'.rooms.boards[b].category)
  }

  /** The member's messages have the same numbers in both. */
  ghost predicate SameNumbers(db: DB, db': DB, reader: Reader) {
    forall p :: Own(db, reader.id, p) && Own(db', reader.id, p) ==>
      PostOps.Number(db.content.posts, p) == PostOps.Number(db'.content.posts, p)
  }

  lemma SameSets(db: DB, db': DB, reader: Reader)
    requires AgreeFor(db, db', reader)
    ensures OwnTopics(db, reader.id) == OwnTopics(db', reader.id)
    ensures OwnBoards(db, reader.id) == OwnBoards(db', reader.id)
    ensures forall t :: t in OwnTopics(db, reader.id) ==> SameTopicFor(db, db', reader, t)
    ensures forall b :: b in OwnBoards(db, reader.id) ==> SameBoardFor(db, db', reader, b)
  {
    forall p | p in OwnPosts(db, reader.id)
      ensures p in db'.content.posts && db.content.posts[p].topic == db'.content.posts[p].topic
    {
      assert SameOwnPost(db, db', reader, p);
    }
    assert OwnTopics(db, reader.id) == OwnTopics(db', reader.id);
    forall t | t in OwnTopics(db, reader.id) ensures SameTopicFor(db, db', reader, t) {
      var p :| p in OwnPosts(db, reader.id) && db.content.posts[p].topic == t;
      assert Own(db, reader.id, p);
    }
  }

  lemma SameBoards(db: DB, db': DB, reader: Reader)
    requires AgreeFor(db, db', reader)
    ensures MemberContributions(db, reader).boards == MemberContributions(db', reader).boards
  {
    SameSets(db, db', reader);
    var rows := OwnBoards(db, reader.id);
    var key, key' := ByPosition(db.rooms.boards), ByPosition(db'.rooms.boards);
    forall b | b in rows ensures key(b) == key'(b) {
      assert SameBoardFor(db, db', reader, b);
    }
    SortedDepends(key, key', rows);
    SortedListsAll(key, rows);
    MappedDepends(b => BoardRowOf(db, reader, b), b => BoardRowOf(db', reader, b), BoardList(db, reader.id));
  }

  lemma SamePostCount(db: DB, db': DB, reader: Reader, t: Id)
    requires AgreeFor(db, db', reader) && SameTopicFor(db, db', reader, t)
    ensures PostCount(db, reader, t) == PostCount(db', reader, t)
  {
    forall p | p in OwnPosts(db, reader.id)
      ensures p in db'.content.posts && db.content.posts[p] == db'.content.posts[p]
    {
      assert SameOwnPost(db, db', reader, p);
    }
    assert (set p | p in OwnPosts(db, reader.id) && db.content.posts[p].topic == t)
        == (set p | p in OwnPosts(db', reader.id) && db'.content.posts[p].topic == t);
  }

  lemma SameTopics(db: DB, db': DB, reader: Reader)
    requires AgreeFor(db, db', reader)
    ensures MemberContributions(db, reader).topics == MemberContributions(db', reader).topics
  {
    SameSets(db, db', reader);
    var row := t => if t in db.content.topics then TopicRowOf(db, reader, t) else NO_TOPIC;
    var row' := t => if t in db'.content.topics then TopicRowOf(db', reader, t) else NO_TOPIC;
    var list := TopicIds(db, reader.id);
    SortedListsAll(Views.ById(), OwnTopics(db, reader.id));
    forall t | t in list ensures row(t) == row'(t) {
      SamePostCount(db, db', reader, t);
    }
    MappedDepends(row, row', list);
  }

  lemma SameOwn(db: DB, db': DB, reader: Reader, p: Id)
    requires AgreeFor(db, db', reader) && Own(db, reader.id, p)
    ensures Own(db', reader.id, p)
  {
    assert p in OwnPosts(db, reader.id);
  }

  /** Apart from its number, a message's row is the same. */
  lemma SamePostRow(db: DB, db': DB, reader: Reader, p: Id)
    requires AgreeFor(db, db', reader) && Own(db, reader.id, p)
    ensures Own(db', reader.id, p)
    ensures PostRowOf(db', reader, p) ==
            PostRowOf(db, reader, p).(number := PostOps.Number(db'.content.posts, p))
  {
    SameOwn(db, db', reader, p);
    assert SameOwnPost(db, db', reader, p);
    assert SameTopicFor(db, db', reader, db.content.posts[p].topic);
  }

  lemma SamePostIds(db: DB, db': DB, reader: Reader)
    requires AgreeFor(db, db', reader)
    ensures PostIds(db, reader.id) == PostIds(db', reader.id)
    ensures forall p :: p in PostIds(db, reader.id) <==> Own(db, reader.id, p)
  {
    var rows := OwnPosts(db, reader.id);
    var key, key' := ByTopic(db.content.posts), ByTopic(db'.content.posts);
    forall p | p in rows ensures key(p) == key'(p) {
      assert SameOwnPost(db, db', reader, p);
    }
    SortedDepends(key, key', rows);
    SortedListsAll(key, rows);
  }

  lemma SamePosts(db: DB, db': DB, reader: Reader)
    requires AgreeFor(db, db', reader) && SameNumbers(db, db', reader)
    ensures MemberContributions(db, reader).posts == MemberContributions(db', reader).posts
  {
    SamePostIds(db, db', reader);
    var row := p => if Own(db, reader.id, p) then PostRowOf(db, reader, p) else NO_POST;
    var row' := p => if Own(db', reader.id, p) then PostRowOf(db', reader, p) else NO_POST;
    forall p | p in PostIds(db, reader.id) ensures row(p) == row'(p) {
      SamePostRow(db, db', reader, p);
    }
    MappedDepends(row, row', PostIds(db, reader.id));
  }

  lemma PostsTellNumbers(db: DB, db': DB, reader: Reader)
    requires AgreeFor(db, db', reader)
    requires MemberContributions(db, reader).posts == MemberContributions(db', reader).posts
    ensures SameNumbers(db, db', reader)
  {
    SamePostIds(db, db', reader);
    var ids := PostIds(db, reader.id);
    forall p | Own(db, reader.id, p) && Own(db', reader.id, p)
      ensures PostOps.Number(db.content.posts, p) == PostOps.Number(db'.content.posts, p)
    {
      var i :| 0 <= i < |ids| && ids[i] == p;
      assert MemberContributions(db, reader).posts[i] == PostRowOf(db, reader, p);
      assert MemberContributions(db', reader).posts[i] == PostRowOf(db', reader, p);
    }
  }

  /** The messages of a conversation by others, up to one of the member's. */
  ghost function OthersBefore(posts: map<Id, Post>, member: Id, p: Id): set<Id>
    requires p in posts
  {
    set q | q in posts && posts[q].topic == posts[p].topic && q <= p && posts[q].author != member
  }

  ghost function OwnUpto(posts: map<Id, Post>, member: Id, p: Id): set<Id>
    requires p in posts
  {
    set q | q in posts && posts[q].topic == posts[p].topic && q <= p && posts[q].author == member
  }

  ghost predicate SameCount(db: DB, db': DB, reader: Reader, p: Id)
    requires p in db.content.posts && p in db'.content.posts
  {
    |OthersBefore(db.content.posts, reader.id, p)| == |OthersBefore(db'.content.posts, reader.id, p)|
  }

  /** In the conversations the member cannot see, equally many messages by others came before each of
      the member's own. */
  ghost predicate SameOthersBefore(db: DB, db': DB, reader: Reader) {
    forall p ::
      (Own(db, reader.id, p) && Own(db', reader.id, p) && !VisibleTopic(db, reader, db.content.posts[p].topic)) ==>
      SameCount(db, db', reader, p)
  }

  lemma NumberSplits(posts: map<Id, Post>, member: Id, p: Id)
    requires p in posts
    ensures PostOps.Number(posts, p) == |OwnUpto(posts, member, p)| + |OthersBefore(posts, member, p)|
  {
    var own, others := OwnUpto(posts, member, p), OthersBefore(posts, member, p);
    assert PostOps.Upto(posts, posts[p].topic, p) == own + others && own !! others;
  }

  lemma SameOwnUpto(db: DB, db': DB, reader: Reader, p: Id)
    requires AgreeFor(db, db', reader) && Own(db, reader.id, p)
    ensures Own(db', reader.id, p) && db'.content.posts[p] == db.content.posts[p]
    ensures OwnUpto(db.content.posts, reader.id, p) == OwnUpto(db'.content.posts, reader.id, p)
  {
    SameOwn(db, db', reader, p);
    assert SameOwnPost(db, db', reader, p);
    assert SameTopicFor(db, db', reader, db.content.posts[p].topic);
    var t := db.content.posts[p].topic;
    forall q ensures q in OwnUpto(db.content.posts, reader.id, p) <==> q in OwnUpto(db'.content.posts, reader.id, p) {
      assert q in OwnPosts(db, reader.id) <==> q in OwnPosts(db', reader.id);
      assert Own(db, reader.id, q) ==> SameOwnPost(db, db', reader, q);
    }
  }

  lemma UptoIsIn(posts: map<Id, Post>, t: Id, p: Id)
    ensures PostOps.Upto(posts, t, p) == set q | q in PostOps.PostsIn(posts, t) && q <= p
  {
  }

  /** A number is the same in both exactly when equally many messages by others came before; where the
      member can see them, they did. */
  lemma SameNumberExactly(db: DB, db': DB, reader: Reader, p: Id)
    requires AgreeFor(db, db', reader) && Own(db, reader.id, p)
    ensures Own(db', reader.id, p)
    ensures PostOps.Number(db.content.posts, p) == PostOps.Number(db'.content.posts, p)
      <==> SameCount(db, db', reader, p)
    ensures VisibleTopic(db, reader, db.content.posts[p].topic) ==>
            PostOps.Number(db.content.posts, p) == PostOps.Number(db'.content.posts, p)
  {
    SameOwnUpto(db, db', reader, p);
    NumberSplits(db.content.posts, reader.id, p);
    NumberSplits(db'.content.posts, reader.id, p);
    var t := db.content.posts[p].topic;
    if VisibleTopic(db, reader, t) {
      assert SameTopicFor(db, db', reader, t);
      UptoIsIn(db.content.posts, t, p);
      UptoIsIn(db'.content.posts, t, p);
    }
  }

  lemma SameNumbersExactly(db: DB, db': DB, reader: Reader)
    requires AgreeFor(db, db', reader)
    ensures SameNumbers(db, db', reader) <==> SameOthersBefore(db, db', reader)
  {
    forall p | Own(db, reader.id, p)
      ensures PostOps.Number(db.content.posts, p) == PostOps.Number(db'.content.posts, p) <==>
              (VisibleTopic(db, reader, db.content.posts[p].topic) || SameCount(db, db', reader, p))
      ensures Own(db', reader.id, p)
    {
      SameNumberExactly(db, db', reader, p);
    }
  }

  /** What an export gives away. Between databases that hold the same of what the member wrote and can
      read, it is the same exactly when, in the conversations hidden from the member, equally many
      messages by others came before each of the member's: hidden names, titles, activity and images
      never show, and that count is the only trace of hidden messages. */
  lemma ExportShowsOnlyReadable(db: DB, db': DB, reader: Reader)
    requires AgreeFor(db, db', reader)
    ensures MemberContributions(db, reader) == MemberContributions(db', reader) <==> SameOthersBefore(db, db', reader)
  {
    SameNumbersExactly(db, db', reader);
    SameBoards(db, db', reader);
    SameTopics(db, db', reader);
    if SameNumbers(db, db', reader) {
      SamePosts(db, db', reader);
    }
    if MemberContributions(db, reader) == MemberContributions(db', reader) {
      PostsTellNumbers(db, db', reader);
    }
  }

  /** That trace tells nothing new: numbers never change, so over any run that leaves what the member
      wrote and can read as it was, whatever else happens, the export stays the same. */
  lemma HiddenActivityNeverShows(db: DB, run: Machine.Run, reader: Reader)
    requires PostLaws.Fits(db) && AgreeFor(db, Machine.After(db, run), reader)
    ensures MemberContributions(db, reader) == MemberContributions(Machine.After(db, run), reader)
  {
    var db' := Machine.After(db, run);
    forall p | Own(db, reader.id, p) && Own(db', reader.id, p)
      ensures PostOps.Number(db.content.posts, p) == PostOps.Number(db'.content.posts, p)
    {
      PostLaws.NumbersNeverChange(db, run, p);
    }
    SameNumbersExactly(db, db', reader);
    ExportShowsOnlyReadable(db, db', reader);
  }

  // ----- Placing images -----

  /** The images of one message, in the order its rows come. */
  function ImagesFor(rows: seq<(Id, AttachmentRow)>, p: Id): seq<AttachmentRow> {
    if rows == [] then []
    else ImagesFor(rows[..|rows| - 1], p) + if rows[|rows| - 1].0 == p then [rows[|rows| - 1].1] else []
  }

  predicate DistinctPosts(posts: seq<PostRow>) {
    forall i, j | 0 <= i < j < |posts| :: posts[i].id != posts[j].id
  }

  /** Puts each image row on its message, through an index from message to place in the list; a message
      whose conversation has no title left gets none. */
  method PlaceImages(posts: seq<PostRow>, rows: seq<(Id, AttachmentRow)>) returns (out: seq<PostRow>)
    requires DistinctPosts(posts) && forall i :: 0 <= i < |posts| ==> posts[i].attachments == []
    ensures |out| == |posts|
    ensures forall i :: 0 <= i < |posts| ==>
      out[i] == posts[i].(attachments := if posts[i].topicTitle == "" then [] else ImagesFor(rows, posts[i].id))
  {
    var index: map<Id, nat> := map[];
    for i := 0 to |posts|
      invariant forall p :: p in index ==> index[p] < i && posts[index[p]].id == p
      invariant forall k :: 0 <= k < i ==> posts[k].id in index && index[posts[k].id] == k
    {
      index := index[posts[i].id := i];
    }
    out := posts;
    assert forall p :: p in index ==> index[p] < |posts|;
    for j := 0 to |rows|
      invariant |out| == |posts|
      invariant forall i :: 0 <= i < |posts| ==>
        out[i] == posts[i].(attachments := if posts[i].topicTitle == "" then [] else ImagesFor(rows[..j], posts[i].id))
    {
      assert rows[..j + 1][..j] == rows[..j];
      if rows[j].0 in index {
        var at := index[rows[j].0];
        assert at < |posts| && posts[at].id == rows[j].0;
        if out[at].topicTitle != "" {
          out := out[at := out[at].(attachments := out[at].attachments + [rows[j].1])];
        }
      }
    }
    assert rows[..|rows|] == rows;
  }

  // ----- ... gives the export's rows -----

  /** The images on a member's messages, as the query lists them: by message, then by identifier. */
  ghost function ImageList(db: DB, member: Id): seq<Id> {
    Sorted(ByPost(db.content.attachments), OwnImages(db, member))
  }

  ghost function OwnImages(db: DB, member: Id): set<Id> {
    set a | a in db.content.attachments && Own(db, member, db.content.attachments[a].post)
  }

  ghost function ImageRows(attachments: map<Id, Attachment>, list: seq<Id>): seq<(Id, AttachmentRow)>
    requires forall i :: 0 <= i < |list| ==> list[i] in attachments
  {
    seq(|list|, i requires 0 <= i < |list| =>
      (attachments[list[i]].post, AttachmentRow(list[i], attachments[list[i]].image)))
  }

  ghost function On(attachments: map<Id, Attachment>, list: seq<Id>, p: Id): seq<Id> {
    if list == [] then []
    else
      var last := list[|list| - 1];
      On(attachments, list[..|list| - 1], p) + if last in attachments && attachments[last].post == p then [last] else []
  }

  lemma {:induction false} OnKeepsOrder(attachments: map<Id, Attachment>, list: seq<Id>, p: Id)
    requires Ordered(ByPost(attachments), list)
    ensures forall a :: a in On(attachments, list, p) <==> a in list && a in attachments && attachments[a].post == p
    ensures Ordered(ByPost(attachments), On(attachments, list, p))
  {
    if list != [] {
      var front, last := list[..|list| - 1], list[|list| - 1];
      OnKeepsOrder(attachments, front, p);
      assert list == front + [last];
      var a := On(attachments, front, p);
      forall i | 0 <= i < |a| ensures Before(ByPost(attachments)(a[i]), ByPost(attachments)(last)) {
        assert a[i] in a;
        var k :| 0 <= k < |front| && front[k] == a[i];
        assert list[k] == a[i];
      }
    }
  }

  lemma {:induction false} ImagesForAreOn(attachments: map<Id, Attachment>, list: seq<Id>, p: Id)
    requires forall i :: 0 <= i < |list| ==> list[i] in attachments
    ensures ImagesFor(ImageRows(attachments, list), p) == Mapped(AttachmentRowOf(attachments), On(attachments, list, p))
  {
    if list != [] {
      var front, last := list[..|list| - 1], list[|list| - 1];
      ImagesForAreOn(attachments, front, p);
      var rows := ImageRows(attachments, list);
      assert rows[..|rows| - 1] == ImageRows(attachments, front);
    }
  }

  /** Placing the listed rows gives every readable message exactly its own images, in order, and every
      message in a hidden conversation none: what `PostRowOf` says. A conversation's title is never
      empty, so an empty one marks a hidden conversation. */
  lemma PlacedImagesAreRight(db: DB, reader: Reader, p: Id)
    requires Own(db, reader.id, p) && PostOps.ValidTitle(db.content.topics[db.content.posts[p].topic].title)
    ensures var list := ImageList(db, reader.id); forall i :: 0 <= i < |list| ==> list[i] in db.content.attachments
    ensures PostRowOf(db, reader, p).attachments ==
            if PostRowOf(db, reader, p).topicTitle == "" then []
            else ImagesFor(ImageRows(db.content.attachments, ImageList(db, reader.id)), p)
  {
    var attachments := db.content.attachments;
    var key := ByPost(attachments);
    var list := ImageList(db, reader.id);
    SortedListsAll(key, OwnImages(db, reader.id));
    forall i | 0 <= i < |list| ensures list[i] in attachments {
      assert list[i] in list;
      assert list[i] in OwnImages(db, reader.id);
    }
    ImagesForAreOn(attachments, list, p);
    OnKeepsOrder(attachments, list, p);
    SortedListsAll(key, ImagesOn(attachments, p));
    forall a ensures a in On(attachments, list, p) <==> a in ImagesOn(attachments, p) {
      assert a in list <==> a in OwnImages(db, reader.id);
    }
    OrderedListIsUnique(key, On(attachments, list, p), Sorted(key, ImagesOn(attachments, p)));
  }
}
