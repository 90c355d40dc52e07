/** What is in a member's export, told from the rows: everything they wrote, each thing once and in order, with
    what they can still see of where it is. */
module ExportRows {
  import opened Schema
  import opened Permissions
  import opened Listing
  import opened Export
  import PostOps
  import Views

  /** The rows of an export are one for each identifier, in order. */
  lemma RowsAreListed<R>(key: Id -> Key, ids: set<Id>, row: Id -> R, id: R -> Id)
    requires Distinguishes(key, ids) && forall x :: x in ids ==> id(row(x)) == x
    ensures var rows := Mapped(row, Sorted(key, ids));
      && (forall i :: 0 <= i < |rows| ==> id(rows[i]) in ids && rows[i] == row(id(rows[i])))
      && (forall i, j :: 0 <= i < j < |rows| ==> Before(key(id(rows[i])), key(id(rows[j]))))
      && (forall x :: x in ids ==> exists i :: 0 <= i < |rows| && id(rows[i]) == x)
  {
    SortedListsAll(key, ids);
    var list, rows := Sorted(key, ids), Mapped(row, Sorted(key, ids));
    forall i | 0 <= i < |rows| ensures list[i] in ids && rows[i] == row(list[i]) {
      assert list[i] in list;
    }
    forall x | x in ids ensures exists i :: 0 <= i < |rows| && id(rows[i]) == x {
      assert x in list;
      var i :| 0 <= i < |list| && list[i] == x;
      assert id(rows[i]) == x;
    }
  }

  // ----- Messages -----

  /** The row is the message as it is stored, with its place, and with title, board and images exactly if the
      member can see the conversation. */
  ghost predicate TellsPost(db: DB, reader: Reader, row: PostRow, p: Id)
    requires p in db.content.posts && db.content.posts[p].topic in db.content.topics
  {
    var post := db.content.posts[p];
    var topic := db.content.topics[post.topic];
    && (row.id, row.topic, row.board) == (p, post.topic, topic.board)
    && (row.body, row.author, row.removed) == (post.body, post.author, post.removed)
    && (row.createdAt, row.editedAt, row.revision) == (post.createdAt, post.editedAt, post.revision)
    && row.number == |set q | q in db.content.posts && db.content.posts[q].topic == post.topic && q <= p|
    && (post.author in db.accounts.users && !db.accounts.users[post.author].deleted ==>
          row.authorName == db.accounts.users[post.author].name)
    && (if VisibleTopic(db, reader, post.topic) then
          && row.topicTitle == topic.title
          && topic.board in db.rooms.boards && row.boardName == db.rooms.boards[topic.board].name
          && TellsImages(db.content.attachments, row.attachments, p)
        else row.topicTitle == "" && row.boardName == "" && row.attachments == [])
  }

  /** All images of the message, in the order they were attached. */
  ghost predicate TellsImages(attachments: map<Id, Attachment>, rows: seq<AttachmentRow>, p: Id) {
    && (forall i :: 0 <= i < |rows| ==>
          && rows[i].id in attachments
          && attachments[rows[i].id] == Attachment(p, rows[i].image))
    && (forall i, j :: 0 <= i < j < |rows| ==> rows[i].id < rows[j].id)
    && (forall a :: a in attachments && attachments[a].post == p ==>
          exists i :: 0 <= i < |rows| && rows[i].id == a)
  }

  lemma ImagesAreTold(attachments: map<Id, Attachment>, p: Id)
    ensures TellsImages(attachments, AttachmentRows(attachments, p), p)
  {
    var key, ids := ByPost(attachments), ImagesOn(attachments, p);
    var id := (row: AttachmentRow) => row.id;
    RowsAreListed(key, ids, AttachmentRowOf(attachments), id);
    var rows := AttachmentRows(attachments, p);
    forall i | 0 <= i < |rows|
      ensures rows[i].id in attachments && attachments[rows[i].id] == Attachment(p, rows[i].image)
    {
      assert id(rows[i]) in ids;
    }
    forall i, j | 0 <= i < j < |rows| ensures rows[i].id < rows[j].id {
      assert id(rows[i]) in ids && id(rows[j]) in ids && Before(key(id(rows[i])), key(id(rows[j])));
    }
    forall a | a in attachments && attachments[a].post == p ensures exists i :: 0 <= i < |rows| && rows[i].id == a {
      assert a in ids;
      var i :| 0 <= i < |rows| && id(rows[i]) == a;
    }
  }

  lemma PostIsTold(db: DB, reader: Reader, p: Id)
    requires Own(db, reader.id, p)
    ensures TellsPost(db, reader, PostRowOf(db, reader, p), p)
  {
    ImagesAreTold(db.content.attachments, p);
    assert (set q | q in db.content.posts && db.content.posts[q].topic == db.content.posts[p].topic && q <= p)
        == PostOps.Upto(db.content.posts, db.content.posts[p].topic, p);
  }

  /** An export has every message its member wrote, each once and as it is stored, by conversation and then in
      order; and nobody else's. */
  lemma OwnPostsAreExported(db: DB, reader: Reader)
    ensures var rows := MemberContributions(db, reader).posts;
      && (forall i :: 0 <= i < |rows| ==>
            Own(db, reader.id, rows[i].id) && TellsPost(db, reader, rows[i], rows[i].id))
      && (forall p :: Own(db, reader.id, p) ==> exists i :: 0 <= i < |rows| && rows[i].id == p)
      && (forall i, j :: 0 <= i < j < |rows| ==>
            rows[i].topic < rows[j].topic || (rows[i].topic == rows[j].topic && rows[i].id < rows[j].id))
  {
    var key, ids := ByTopic(db.content.posts), OwnPosts(db, reader.id);
    var row, id := p => if Own(db, reader.id, p) then PostRowOf(db, reader, p) else NO_POST, (row: PostRow) => row.id;
    RowsAreListed(key, ids, row, id);
    var rows := MemberContributions(db, reader).posts;
    forall i | 0 <= i < |rows|
      ensures Own(db, reader.id, rows[i].id) && TellsPost(db, reader, rows[i], rows[i].id)
    {
      assert id(rows[i]) in ids && rows[i] == row(id(rows[i]));
      PostIsTold(db, reader, rows[i].id);
    }
    forall i, j | 0 <= i < j < |rows|
      ensures rows[i].topic < rows[j].topic || (rows[i].topic == rows[j].topic && rows[i].id < rows[j].id)
    {
      assert Before(key(id(rows[i])), key(id(rows[j])));
    }
    forall p | Own(db, reader.id, p) ensures exists i :: 0 <= i < |rows| && rows[i].id == p {
      assert p in ids;
      var i :| 0 <= i < |rows| && id(rows[i]) == p;
    }
  }

  // ----- Conversations -----

  /** The row has the conversation's place, audience and time; and its title, its latest activity and everyone's
      messages exactly if the member can see it. */
  ghost predicate TellsTopic(db: DB, reader: Reader, row: TopicRow, t: Id)
    requires t in db.content.topics
  {
    var topic := db.content.topics[t];
    && (row.id, row.board, row.audience, row.createdAt) == (t, topic.board, topic.audience, topic.createdAt)
    && (if VisibleTopic(db, reader, t) then
          && row.title == topic.title && row.updatedAt == topic.updatedAt
          && row.posts == |set p | p in db.content.posts && db.content.posts[p].topic == t|
        else
          && row.title == "" && row.updatedAt == topic.createdAt
          && row.posts
             == |set p | p in db.content.posts && db.content.posts[p].topic == t
               && db.content.posts[p].author == reader.id|)
  }

  lemma TopicIsTold(db: DB, reader: Reader, t: Id)
    requires t in db.content.topics
    ensures TellsTopic(db, reader, TopicRowOf(db, reader, t), t)
  {
    var posts := db.content.posts;
    assert (set p | p in posts && posts[p].topic == t) == PostOps.PostsIn(posts, t);
    assert (set p | p in posts && posts[p].topic == t && posts[p].author == reader.id)
        == set p | p in OwnPosts(db, reader.id) && posts[p].topic == t;
  }

  /** The member has a message in the conversation. */
  ghost predicate Wrote(db: DB, member: Id, t: Id) {
    && t in db.content.topics
    && exists p :: p in db.content.posts && db.content.posts[p].author == member && db.content.posts[p].topic == t
  }

  lemma WroteIn(db: DB, member: Id)
    ensures forall t :: t in OwnTopics(db, member) <==> Wrote(db, member, t)
  {
    forall t | Wrote(db, member, t) ensures t in OwnTopics(db, member) {
      var p :| p in db.content.posts && db.content.posts[p].author == member && db.content.posts[p].topic == t;
      assert p in OwnPosts(db, member);
    }
  }

  lemma TopicRowsAreListed(db: DB, reader: Reader, ids: set<Id>, row: Id -> TopicRow, rows: seq<TopicRow>)
    requires ids <= db.content.topics.Keys && forall t :: t in ids ==> row(t) == TopicRowOf(db, reader, t)
    requires rows == Mapped(row, Sorted(Views.ById(), ids))
    ensures forall i :: 0 <= i < |rows| ==> rows[i].id in ids && TellsTopic(db, reader, rows[i], rows[i].id)
    ensures forall t :: t in ids ==> exists i :: 0 <= i < |rows| && rows[i].id == t
    ensures forall i, j :: 0 <= i < j < |rows| ==> rows[i].id < rows[j].id
  {
    var key, id := Views.ById(), (row: TopicRow) => row.id;
    RowsAreListed(key, ids, row, id);
    forall i | 0 <= i < |rows| ensures rows[i].id in ids && TellsTopic(db, reader, rows[i], rows[i].id) {
      assert id(rows[i]) in ids && rows[i] == row(id(rows[i]));
      TopicIsTold(db, reader, rows[i].id);
    }
    forall i, j | 0 <= i < j < |rows| ensures rows[i].id < rows[j].id {
      assert Before(key(id(rows[i])), key(id(rows[j])));
    }
    forall t | t in ids ensures exists i :: 0 <= i < |rows| && rows[i].id == t {
      var i :| 0 <= i < |rows| && id(rows[i]) == t;
    }
  }

  /** Exactly the conversations the member wrote in are there, in order. */
  lemma OwnTopicsAreExported(db: DB, reader: Reader)
    ensures var rows := MemberContributions(db, reader).topics;
      && (forall i :: 0 <= i < |rows| ==>
            Wrote(db, reader.id, rows[i].id) && TellsTopic(db, reader, rows[i], rows[i].id))
      && (forall t :: Wrote(db, reader.id, t) ==> exists i :: 0 <= i < |rows| && rows[i].id == t)
      && (forall i, j :: 0 <= i < j < |rows| ==> rows[i].id < rows[j].id)
  {
    var ids := OwnTopics(db, reader.id);
    var row := t => if t in db.content.topics then TopicRowOf(db, reader, t) else NO_TOPIC;
    WroteIn(db, reader.id);
    TopicRowsAreListed(db, reader, ids, row, MemberContributions(db, reader).topics);
  }

  // ----- Boards -----

  /** The row has the board's name and category exactly if the member can see it. */
  ghost predicate TellsBoard(db: DB, reader: Reader, row: BoardRow)
    requires row.id in db.rooms.boards
  {
    (row.category, row.name) == if VisibleBoard(db, reader, row.id)
                                then (db.rooms.boards[row.id].category, db.rooms.boards[row.id].name) else ("", "")
  }

  ghost predicate WroteOn(db: DB, member: Id, b: Id) {
    b in db.rooms.boards && exists t :: Wrote(db, member, t) && db.content.topics[t].board == b
  }

  lemma BoardsWroteOn(db: DB, member: Id)
    ensures forall b :: b in OwnBoards(db, member) <==> WroteOn(db, member, b)
  {
    WroteIn(db, member);
    forall b | WroteOn(db, member, b) ensures b in OwnBoards(db, member) {
      var t :| Wrote(db, member, t) && db.content.topics[t].board == b;
      assert t in OwnTopics(db, member);
    }
  }

  lemma BoardRowsAreListed(db: DB, reader: Reader, ids: set<Id>, row: Id -> BoardRow, rows: seq<BoardRow>)
    requires ids <= db.rooms.boards.Keys && forall b :: row(b) == BoardRowOf(db, reader, b)
    requires rows == Mapped(row, Sorted(ByPosition(db.rooms.boards), ids))
    ensures forall i :: 0 <= i < |rows| ==> rows[i].id in ids && TellsBoard(db, reader, rows[i])
    ensures forall b :: b in ids ==> exists i :: 0 <= i < |rows| && rows[i].id == b
    ensures forall i, j :: 0 <= i < j < |rows| ==>
      db.rooms.boards[rows[i].id].position <= db.rooms.boards[rows[j].id].position
  {
    var key := ByPosition(db.rooms.boards);
    var id := (row: BoardRow) => row.id;
    RowsAreListed(key, ids, row, id);
    forall i | 0 <= i < |rows| ensures rows[i].id in ids && TellsBoard(db, reader, rows[i]) {
      assert id(rows[i]) in ids && rows[i] == row(id(rows[i]));
    }
    forall i, j | 0 <= i < j < |rows|
      ensures db.rooms.boards[rows[i].id].position <= db.rooms.boards[rows[j].id].position
    {
      assert Before(key(id(rows[i])), key(id(rows[j])));
    }
    forall b | b in ids ensures exists i :: 0 <= i < |rows| && rows[i].id == b {
      var i :| 0 <= i < |rows| && id(rows[i]) == b;
    }
  }

  /** Exactly the boards the member wrote on are there, in the order of the board list. */
  lemma OwnBoardsAreExported(db: DB, reader: Reader)
    ensures var rows, boards := MemberContributions(db, reader).boards, db.rooms.boards;
      && (forall i :: 0 <= i < |rows| ==> WroteOn(db, reader.id, rows[i].id) && TellsBoard(db, reader, rows[i]))
      && (forall b :: WroteOn(db, reader.id, b) ==> exists i :: 0 <= i < |rows| && rows[i].id == b)
      && (forall i, j :: 0 <= i < j < |rows| ==> boards[rows[i].id].position <= boards[rows[j].id].position)
  {
    var ids, row := OwnBoards(db, reader.id), b => BoardRowOf(db, reader, b);
    BoardRowsAreListed(db, reader, ids, row, MemberContributions(db, reader).boards);
    BoardsWroteOn(db, reader.id);
  }
}
