/** The permission calculations agree with each other and with what posting does. */
module PermissionLaws {
  import opened Schema
  import opened Permissions
  import PostOps
  import AccountLaws

  // ----- Posting -----

  /** The author may write at all, sees the conversation, and its board is open for writing. */
  predicate MayReply(db: DB, topic: Id, author: Id) {
    && CanWrite(db, author) == None
    && var reader := ReaderOf(db.accounts, author);
       && VisibleTopic(db, reader, topic)
       && var board := db.content.topics[topic].board;
          BoardWriteError(BoardAccess(db.rooms, board, reader), db.rooms.boards[board].archived) == None
  }

  /** A reply succeeds exactly when the conversation is in the author's view and its board is writable,
      given a body and images the tables accept; so the checks made one by one while replying, which
      never consult the view of conversations, come to the same thing as the view. */
  lemma ReplySucceedsExactly(db: DB, topic: Id, author: Id, body: string, images: seq<Image>, now: Time)
    requires AccountLaws.AccountsOk(db.accounts)
    ensures PostOps.AddReply(db, topic, author, body, images, now).Committed? <==>
            && MayReply(db, topic, author)
            && PostOps.ValidBody(body) && PostOps.ImagesAllowed(db.accounts.users, images)
  {
    if author in db.accounts.users {
      assert author >= 1;
    }
  }

  /** An edit succeeds exactly when its author could still reply there, the message is theirs and not
      removed, and the form's revision is current, given a text that is valid once trimmed. */
  lemma EditSucceedsExactly(db: DB, id: Id, author: Id, body: string, revision: int, now: Time)
    ensures PostOps.EditPost(db, id, author, body, revision, now).Committed? <==>
            && ValidText(TrimSpace(body), 1, 20000)
            && id in db.content.posts
            && var p := db.content.posts[id];
               !p.removed && p.author == author && p.revision == revision && MayReply(db, p.topic, author)
  {
  }

  /** Authors can read what they post, at once: a new conversation ... */
  lemma AuthorsReadTheirTopics(db: DB, board: Id, author: Id, title: string, body: string, audience: Audience,
          images: seq<Image>, now: Time)
    requires AccountLaws.AccountsOk(db.accounts)
    requires PostOps.CreateTopic(db, board, author, title, body, audience, images, now).Committed?
    ensures var o := PostOps.CreateTopic(db, board, author, title, body, audience, images, now);
      && author in o.db.accounts.users
      && VisibleTopic(o.db, ReaderOf(o.db.accounts, author), o.value)
      && ReadablePost(o.db, ReaderOf(o.db.accounts, author), db.content.lastPost + 1)
  {
    assert author in db.accounts.users && author >= 1;
  }

  /** ... and a reply. */
  lemma AuthorsReadTheirReplies(db: DB, topic: Id, author: Id, body: string, images: seq<Image>, now: Time)
    requires AccountLaws.AccountsOk(db.accounts)
    requires PostOps.AddReply(db, topic, author, body, images, now).Committed?
    ensures var o := PostOps.AddReply(db, topic, author, body, images, now);
      && author in o.db.accounts.users
      && ReadablePost(o.db, ReaderOf(o.db.accounts, author), o.value.post)
  {
    ReplySucceedsExactly(db, topic, author, body, images, now);
  }

  // ----- The group report -----

  datatype MemberAccess = MemberAccess(user: Id, name: string, individual: Option<Access>, effective: Access)

  predicate Reportable(db: DB, row: (Id, Id)) {
    row.0 in db.rooms.boards && row.1 in db.accounts.users
  }

  /** One row of the report: a board and a member of the group. */
  function ReportRow(db: DB, row: (Id, Id)): MemberAccess
    requires Reportable(db, row)
  {
    MemberAccess(row.1, db.accounts.users[row.1].name,
                 if row in db.rooms.boardMembers then Some(db.rooms.boardMembers[row]) else None,
                 Effective(db, row.0, row.1))
  }

  /** The rows of one board, in order. */
  function MembersOn(db: DB, rows: seq<(Id, Id)>, board: Id): seq<MemberAccess>
    requires forall i :: 0 <= i < |rows| ==> Reportable(db, rows[i])
  {
    if rows == [] then []
    else
      var last := rows[|rows| - 1];
      MembersOn(db, rows[..|rows| - 1], board) + if last.0 == board then [ReportRow(db, last)] else []
  }

  /** The report says write for exactly the members the posting check lets write, and none for exactly
      those who are shut out, stopped by the site gate, or kept from seeing the board. */
  lemma {:induction false} MembersOnAgree(db: DB, rows: seq<(Id, Id)>, board: Id)
    requires board in db.rooms.boards && forall i :: 0 <= i < |rows| ==> Reportable(db, rows[i])
    ensures forall m :: m in MembersOn(db, rows, board) ==>
      && m.user in db.accounts.users
      && (m.effective == Write <==> BoardForWriter(db, board, m.user) == None)
      && (m.effective == NoAccess <==>
            (|| db.accounts.users[m.user].suspended
             || !CanRead(db.mode, Some(db.accounts.users[m.user]))
             || !VisibleBoard(db, ReaderOf(db.accounts, m.user), board)))
  {
    if rows != [] {
      MembersOnAgree(db, rows[..|rows| - 1], board);
      ReportAgrees(db, rows[|rows| - 1].0, rows[|rows| - 1].1);
    }
  }

  /** The owner's report on a group: each row is added to its board's list, through an index from board to
      place. */
  method GroupBoardMembers(db: DB, boards: seq<Id>, rows: seq<(Id, Id)>) returns (report: seq<seq<MemberAccess>>)
    requires forall i, j :: 0 <= i < j < |boards| ==> boards[i] != boards[j]
    requires forall i :: 0 <= i < |rows| ==> Reportable(db, rows[i]) && rows[i].0 in boards
    ensures |report| == |boards|
    ensures forall i :: 0 <= i < |boards| ==> report[i] == MembersOn(db, rows, boards[i])
  {
    var byId: map<Id, nat> := map[];
    report := [];
    for i := 0 to |boards|
      invariant |report| == i && forall k :: 0 <= k < i ==> report[k] == []
      invariant forall b :: b in byId ==> byId[b] < i && boards[byId[b]] == b
      invariant forall k :: 0 <= k < i ==> boards[k] in byId
    {
      byId := byId[boards[i] := i];
      report := report + [[]];
    }
    assert forall b :: b in byId ==> byId[b] < |boards|;
    for j := 0 to |rows|
      invariant |report| == |boards|
      invariant forall i :: 0 <= i < |boards| ==> report[i] == MembersOn(db, rows[..j], boards[i])
    {
      assert rows[..j + 1][..j] == rows[..j];
      assert rows[j].0 in boards;
      var at := byId[rows[j].0];
      report := report[at := report[at] + [ReportRow(db, rows[j])]];
    }
    assert rows[..|rows|] == rows;
  }
}
