/** The tables of the board's database, and the outcomes of the transactions that change them. */
module Schema {
  import Ascii

  type Id = int
  type Time = int
  type Digest = string    // a SHA-256 digest in the tables stands for the secret it was made from

  datatype Option<+T> = None | Some(value: T)

  datatype Error =
    | NoRows | Constraint
    | Suspended | NotOwner | PersonalMode | BadMode
    | UsernameTaken | BadInvitation | BadInvitationOptions | BadToken
    | MemberAction | CommunityConflict | MemberConfirmation
    | LastOwner | AccountChanged
    | BoardDetails | BoardConflict | BadAccess | BoardActionConflict | BoardConfirmation
    | GroupDetails | GroupName | GroupMembers | GroupConflict | GroupConfirmation
    | AudienceChanged | ReadOnlyBoard | ArchivedBoard | EditConflict | PostBody

  datatype Result<+T> = Ok(value: T) | Err(error: Error)

  datatype Mode = Personal | Private | Open
  datatype Role = Member | Owner
  datatype Audience = Owners | Members | Public
  datatype Access = NoAccess | ReadOnly | Write

  // ----- Accounts -----

  datatype User = User(
    name: string, hash: Digest, role: Role, createdAt: Time,
    canInvite: bool, invitedBy: Option<Id>, invitedByName: string, invitationId: Option<Id>,
    email: string, suspended: bool, suspensionRevision: nat, deleted: bool)

  datatype Session = Session(user: Id, expires: Time)

  // The schema admits one purpose, 'password_reset'.
  datatype Token = Token(user: Id, created: Time, expires: Time, usedAt: Option<Time>)

  datatype Invitation = Invitation(
    digest: Digest, prefix: string, title: string, createdBy: Id, createdAt: Time,
    maxUses: nat, uses: nat, expires: Option<Time>, revokedAt: Option<Time>)

  datatype Accounts = Accounts(
    users: map<Id, User>,
    sessions: map<Digest, Session>,
    tokens: map<Digest, Token>,
    invitations: map<Id, Invitation>)

  // ----- Boards and who may use them -----

  datatype Board = Board(
    category: string, name: string, description: string, position: int,
    restricted: bool, archived: bool, revision: nat)

  datatype Group = Group(name: string, description: string, revision: nat)

  datatype Rooms = Rooms(
    boards: map<Id, Board>, lastBoard: nat,
    boardMembers: map<(Id, Id), Access>,      // (board, user): individual overrides
    groups: map<Id, Group>, lastGroup: nat,
    groupMembers: set<(Id, Id)>,              // (group, user)
    boardGroups: map<(Id, Id), Access>)       // (board, group): grants

  // ----- Conversations -----

  datatype Topic = Topic(
    board: Id, author: Id, title: string, createdAt: Time, updatedAt: Time, audience: Audience)

  datatype Post = Post(
    topic: Id, author: Id, body: string, createdAt: Time, editedAt: Time, revision: nat, removed: bool)

  datatype Rendition = Preview | Thumb

  datatype Image = Image(server: string, remoteId: string, credential: Option<Id>, name: string, rendition: Rendition)

  datatype Attachment = Attachment(post: Id, image: Image)

  datatype Content = Content(
    topics: map<Id, Topic>, lastTopic: nat,
    posts: map<Id, Post>, lastPost: nat,
    attachments: map<Id, Attachment>, lastAttachment: nat)

  datatype Event = Event(
    actor: Option<Id>, actorName: string, action: string, subject: string,
    post: Option<Id>, titleReplaced: bool, createdAt: Time)

  datatype DB = DB(mode: Mode, accounts: Accounts, rooms: Rooms, content: Content, events: seq<Event>)

  /** What a transaction does: it commits a new database and returns a value, or it fails and the
      database stays as it was. */
  datatype Outcome<+T> = Committed(db: DB, value: T) | RolledBack(error: Error) {
    function After(before: DB): DB {
      if Committed? then db else before
    }

    function Answer(): Result<T> {
      if Committed? then Ok(value) else Err(error)
    }
  }

  // ----- Identifiers -----

  /** The next identifier of an INTEGER PRIMARY KEY without AUTOINCREMENT: one more than the largest. */
  function NextId(ids: set<Id>): (id: Id)
    ensures id >= 1
    ensures forall other :: other in ids ==> other < id
  {
    LargestExists(ids + {0}, 0);
    var m :| m in ids + {0} && forall other :: other in ids + {0} ==> other <= m;
    m + 1
  }

  lemma {:induction false} LargestExists(ids: set<Id>, m: Id)
    requires m in ids
    ensures exists largest :: largest in ids && forall other :: other in ids ==> other <= largest
  {
    if larger :| larger in ids && larger > m {
      var rest := ids - {m};
      LargestExists(rest, larger);
      var largest :| largest in rest && forall other :: other in rest ==> other <= largest;
      assert forall other :: other in ids ==> other == m || other in rest;
    }
  }

  // ----- Text -----

  /** How the NOCASE collation compares names. */
  function Folded(s: string): string {
    seq(|s|, i requires 0 <= i < |s| => Ascii.Fold(s[i]))
  }

  /** `value` has no NUL and between `min` and `max` characters. */
  predicate ValidText(value: string, min: nat, max: nat) {
    min <= |value| <= max && 0 as char !in value
  }

  predicate BreaksLine(c: char) {
    c < ' ' || 0x7F as char <= c <= 0x9F as char || c == 0x2028 as char || c == 0x2029 as char
  }

  predicate SingleLine(value: string) {
    forall c :: c in value ==> !BreaksLine(c)
  }

  predicate IsSpace(c: char) {
    9 as char <= c <= 13 as char || c == ' ' || c == 0x85 as char || c == 0xA0 as char
    || c == 0x1680 as char || 0x2000 as char <= c <= 0x200A as char || c == 0x2028 as char
    || c == 0x2029 as char || c == 0x202F as char || c == 0x205F as char || c == 0x3000 as char
  }

  function TrimLeft(s: string): string {
    if s != [] && IsSpace(s[0]) then TrimLeft(s[1..]) else s
  }

  function TrimRight(s: string): string {
    if s != [] && IsSpace(s[|s| - 1]) then TrimRight(s[..|s| - 1]) else s
  }

  function TrimSpace(s: string): string {
    TrimRight(TrimLeft(s))
  }
}
