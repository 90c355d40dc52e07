# Witmoot's rules, proved

This project models the board's state and the algorithms around it, and proves what they promise. It
covers the transactions of `internal/forum` on accounts, boards, groups, conversations and images, the
sign-in limiter, the link scanner and the search escaper, and the streaming and upload code that talks
to an imvault server.

Check everything with `dafny verify dfyconfig.toml` (Dafny 4.11).

## How it is built

- **The state machine.** `Schema` has the tables, as values. `AccountOps`, `RoomOps` and `PostOps` say
  what each transaction does, as a function from the database to an outcome: a new database and a
  value, or an error. `Machine` puts them together as actions, steps and runs. A transaction is one
  step, because there is one connection and a transaction takes the write lock when it begins. The
  clock is a parameter; runs under a clock that never goes back are called `Clocked`.
- **The store.** `Store` is the class with the database. A transaction works on the rows of an open
  transaction (`Transactions.Tx`) statement by statement, with the loops and early returns of the Go
  code (`RoomTransactions`, `PostTransactions`, `AccountTransactions`, `DeletionTransactions`), and is
  committed only if it answers with a value. Every method is proved to do, and to answer, exactly what
  its function says, and the store's invariant is that its database is where its committed
  transactions lead from a new one, under a clock that never goes back. So everything proved of runs
  holds of the store, what is proved of clocked runs too (`Store.Store.DeadLinksAdmitNobody`).
- **The effects.** `AccountEffects`, `RoomEffects` and `PostEffects` say of each transaction, in terms of
  the rows alone, exactly when it commits, which rows it leaves changed and how, and that every other row
  is as it was; `Visibility` says in those terms who sees and who may write what, in the feed and in
  search; `ExportRows` what an export has in it; `UploadLaws` which answers of the image server a
  message's images stand on.
- **The laws.** `AccountLaws`, `GrantLaws`, `Revisions`, `LinkLaws`, `PostLaws`, `ImageLaws` and
  `PermissionLaws` are about every state and every run; `Views`, `Listing` and `Export` about what readers are shown, and
  `HiddenCounts` has the two runs an export tells apart.
  `States` puts the invariants together: they hold in every state any run reaches from a new database.
- **The limiter.** `Limiter` is the index and the doubly linked list, with real nodes; `LimiterSpec`
  proves that it refines a table of live records, and `LimiterRuns` bounds what it grants over whole
  runs.
- **Text.** `Linkify` has the link scanner, `Utf8` what splitting does to multi-byte characters (RFC
  3629, section 4), `Search` the escaper and the LIKE predicate that reads its pattern (ISO/IEC 9075-2,
  section 8.5).
- **Images.** `Stream` has the bounded reader, for a source that splits its bytes as it likes;
  `Imvault` the client, for a server that answers anything, and its ownership cache; `Uploads` and
  `Handlers` the upload, commit and clean-up of a post while other requests change the board.

## Where code and documentation differ

The model follows the code.

- `README.md:350` promises 20 sign-in attempts per 15 minutes. The budget is 20 for each record, and a
  record can be spent just before it expires and its successor just after: 40 attempts fit into one
  interval (`LimiterRuns.FortyInOneInterval`), and no more (`LimiterRuns.GrantsPerInterval`). The
  promise holds of the next 15 minutes, but for refunds and evictions, if and only if the key's record
  is absent, expired, used up or outlives them (`LimiterRuns.TwentyHoldsExactly`).
- `internal/forum/migrations/010_auth_tokens.sql:4-6` says consumption of a reset link is recorded rather
  than deleted. Redeeming a link marks it, and then changing the password deletes it in the same
  transaction, so no committed row is ever marked used (`AccountLaws.RunKeepsAccounts`). A redeemed link
  is gone (`LinkLaws.StepLeavesSpent`), and a replay gets the answer a link that never existed gets
  (`LinkLaws.ValidIffRedeemable`).
- `internal/forum/export_store.go:55-59` says that conversations a member can no longer read lose their
  activity. Message numbers are not withheld, and they count other people's earlier messages: two
  histories of one database give a member different exports though they differ only in where someone
  else's message, hidden from the member, went (`HiddenCounts.EarlierPostsShow`). Exports are the same
  if and only if those counts are (`Export.ExportShowsOnlyReadable`).
- The placeholder of a deleted account is not final: it changes if and only if an active owner removes
  the message with its current revision, and then becomes the owner's placeholder
  (`PostLaws.OrphanChangesExactly`, over runs `PostLaws.OrphanChangesExactlyOverRuns`). A message an
  owner removed never changes again.
- The bounded reader reports every byte past the bound that is asked for, and after the last one it can
  come to a clean end (`Stream.EndAfterOverrun`). An end is the end of the body if and only if no read
  before it reported a byte (`Stream.BoundedImage.Read`).

## Model

| member | source | states |
|---|---|---|
| LimiterSpec.PruneDropsExactlyExpired | internal/forum/security.go:123-125 | Stopping at the first live record from the front drops every expired record and no other, because the list is in expiry order. |
| LimiterSpec.AllowKeepsSound | internal/forum/security.go:106-140 | Whatever the key and the later time, the records stay one per key, in expiry order, at most 10000, with counts of at most 20. |
| LimiterSpec.RefundKeepsSound | internal/forum/security.go:144-152 | So do they after a refund. |
| LimiterSpec.AllowRefinesTable | internal/forum/security.go:119-140 | The list behaves as a plain table of live records: an attempt finds the key's record, or makes one in place of an oldest if the table is full, and spends one attempt from it or is refused if all 20 are spent. |
| LimiterSpec.RefundRefinesTable | internal/forum/security.go:144-152 | A refund gives one attempt back to the key's record, if it has one with attempts spent, and touches no other. |
| RecordList.List.PushBack | internal/forum/security.go:131 | Links an element at the back: the list holds what it held and then the element, linked both ways. |
| RecordList.List.Remove | internal/forum/security.go:156 | Unlinks an element from any place: the list holds the others in order, linked both ways. |
| Limiter.Limiter.Remove | internal/forum/security.go:154-157 | Index and list lose the same record and stay in bijection. |
| Limiter.Limiter.Prune | internal/forum/security.go:123-125 | The loop over the linked list leaves exactly the records the front-only pruning of the sequence leaves. |
| Limiter.Limiter.Evict | internal/forum/security.go:128-130 | The loop leaves room for one record by dropping the oldest ones. |
| Limiter.Limiter.Admit | internal/forum/security.go:122-134 | Finds or makes the record an attempt is charged to; index and list agree on it. |
| Limiter.Limiter.Allow | internal/forum/security.go:119-140 | The linked structure answers and changes as the sequence of records does; no element outside the list is touched. |
| Limiter.Limiter.Refund | internal/forum/security.go:144-152 | The same for a refund, which moves no element. |
| LimiterRuns.RefusesExactlyWhenSpent | internal/forum/security.go:134-139 | An attempt is refused if and only if the key has a live record with all 20 attempts spent. |
| LimiterRuns.StepSpendsLeft | internal/forum/security.go:119-152 | No event grants a key more than what it has left before a given end, but for refunds and evictions of its record. |
| LimiterRuns.RunSpendsLeft | internal/forum/security.go:92-152 | No run up to that end grants a key more than what it has left at the start, plus its refunds, plus 20 for each eviction of its live record. |
| LimiterRuns.RunKeepsSound | internal/forum/security.go:106-152 | Every state of every run under a clock that never goes back is sound. |
| LimiterRuns.GrantsPerInterval | internal/forum/security.go:92-152 | In any half-open interval of 15 minutes of any run, a key is granted at most 40 attempts, plus its refunds, plus 20 for each eviction of its live record there. |
| LimiterRuns.AllThatIsLeftIsGranted | internal/forum/security.go:92-140 | And a key can have all it has left: from any sound records some run within 15 minutes grants it exactly that, without refund or eviction of its record. |
| LimiterRuns.TwentyHoldsExactly | internal/forum/security.go:92-140 | From any sound records, 20 attempts, plus refunds, plus 20 for each eviction, bound every run within 15 minutes if and only if the key's record is not at the start live, with attempts left and due to expire before the end. |
| LimiterRuns.FortyInOneInterval | internal/forum/security.go:92-140 | The bound of 40 is met from an empty limiter: a run that grants 40 attempts in 15 minutes, without refund or eviction. |
| Linkify.TrimRight | internal/forum/linkify.go:89 | Cuts off exactly the trailing punctuation. |
| Linkify.TrimURL | internal/forum/linkify.go:87-104 | Ends, with the longest prefix that ends neither in sentence punctuation nor in a closing bracket that outnumbers its openers. |
| Linkify.TrimmedIsLongest | internal/forum/linkify.go:85-104 | Taking bytes off one by one until the rest ends well finds that longest prefix. |
| Linkify.LongestGoodPrefixIsUnique | internal/forum/linkify.go:85-104 | There is one such prefix. |
| Linkify.TrimIsIdempotent | internal/forum/linkify.go:85-104 | Trimming an address again changes nothing. |
| Linkify.TrimKeepsScheme | internal/forum/linkify.go:85-104 | Trimming never cuts into the scheme. |
| Linkify.URLAt | internal/forum/linkify.go:63-73 | Reads the trimmed token at a position if and only if it has a host, and the index just past it. |
| Linkify.LinkFrom | internal/forum/linkify.go:27-33 | Finds the link that begins at a position if there is one, and nothing otherwise. |
| Linkify.Segments | internal/forum/linkify.go:23-45 | The scan's output splits the text: each segment is a whole link at its place, or text no position of which begins a link. |
| Linkify.SplitIsLossless | internal/forum/linkify.go:16-45 | The texts of such a split, put together, are the text. |
| Linkify.SplitIsUnique | internal/forum/linkify.go:16-45 | A text has one such split, so the output is determined by where links begin. |
| Linkify.LinksDoNotTouch | internal/forum/linkify.go:47-104 | No link begins right where another ends. |
| Linkify.SegmentsAlternate | internal/forum/linkify.go:16-45 | Plain text and links strictly alternate. |
| Linkify.SegmentsFit | internal/forum/linkify.go:23-45 | The segment after some others stands at the byte their texts add up to; it is not empty, it is the text's own bytes, and if plain it hides no link. |
| Linkify.TokenKeepsScheme | internal/forum/linkify.go:49-67 | The run of bytes up to the next terminator keeps the whole scheme. |
| Linkify.LinksLookRight | internal/forum/linkify.go:49-123 | Every link is an http(s) address at a word boundary, with a host, without a terminator byte, that ends well. |
| Linkify.LinkSegmentsLookRight | internal/forum/linkify.go:23-45 | So is every link segment, and its address is its text. |
| Linkify.LinkIsItsOwnSplit | internal/forum/linkify.go:23-45 | Splitting a link's own text gives that one link again. |
| Utf8.SegmentsAreWellFormed | internal/forum/linkify.go:16-45 | Splitting never cuts a character: the segments of well-formed UTF-8 are well-formed UTF-8. |
| Search.Pattern | internal/forum/store.go:250 | Builds the wildcard pattern with every special character of the query escaped. |
| Search.EscapedMatchesPrefix | internal/forum/store.go:249-253 | An escaped query and a wildcard match exactly the texts that start with the query, up to ASCII case. |
| Search.SearchIsLiteral | internal/forum/store.go:249-253 | For every query and text, whatever `%`, `_` and `\` they hold, the pattern matches the text under LIKE if and only if the query occurs in it, up to ASCII case. |
| Search.EscapeIsInjective | internal/forum/store.go:250 | Different queries make different patterns. |
| Views.SearchFindsLiterally | internal/forum/store.go:240-257 | A search finds exactly the visible conversations whose title, or one of whose messages not removed, contains the query. |
| Visibility.SearchesFind | internal/forum/store.go:240-257 | A visitor's search finds exactly the public conversations on unrestricted boards that say the query, a member's those not for owners on boards that let them read, an owner's all that do. |
| Stream.MultiReader.Read | internal/imvault/stream.go:96 | The joined reader gives the bytes already read and then the rest of the body, in any chunks. |
| Stream.BoundedImage.Read | internal/imvault/stream.go:53-68 | For every size asked for and every chunk received: what was delivered is a prefix of the body within 8 MiB, every byte past it that is read is reported as an error, and an end is the end of the body if and only if none was. |
| Stream.Copy | internal/imvault/stream.go:48-68 | Reading until the first end or error delivers a prefix of at most 8 MiB, the whole body if the end is clean, and never a clean end for a longer body; enough reads always get there. |
| Stream.ReadOnAfterOverrun | internal/imvault/stream.go:53-61 | Whatever comes after such a report, an end too, nothing more is delivered, and what was is not the whole body. |
| Stream.EndAfterOverrun | internal/imvault/stream.go:53-61 | Such an end does come: with a source that says at once when the body ends, a body one byte too long is delivered up to the bound, reported, and then ends cleanly. |
| Stream.ReadFull | internal/imvault/stream.go:84-89 | Gathers the prefix from any chunks, or stops with all there is. |
| Stream.StreamImage | internal/imvault/stream.go:72-98 | Never asks with a malformed identifier or rendition, and refuses if the request fails; closes and refuses a response only for a wrong status, a length over the bound, a failure or a start that is no image; a usable one is left open and still has every byte to give, the inspected start too. |
| Imvault.KeyIsExact | internal/imvault/stream.go:21 | What the cache's key is a digest of says exactly which credential and identifier it is for, whatever identifier a request carries, because a credential holds no NUL. |
| Imvault.OwnershipCache.CachedFile | internal/imvault/stream.go:16-39 | Whatever identifier is asked for and whatever other callers remember while the server is asked, nobody gets an image but that one, on a check with the same credential that succeeded less than 15 seconds ago, and nothing for a malformed identifier; a remembered check saves asking the server, a failed one is not remembered, and at most 1024 are. |
| Imvault.Client.File | internal/imvault/client.go:134-146 | Gives an image only if its identifier is well formed and the answer is about that very image; a malformed identifier is never sent. |
| Imvault.Client.Upload | internal/imvault/client.go:194-243 | Accepts exactly an answer that names one private image; after any other, exactly the files with a well-formed identifier that the answer named as created have been deleted. |
| Uploads.Preparation.Add | internal/forum/images.go:275-286 | Adds an image unless one with its identifier is there, and keeps what it has seen in step. |
| Uploads.Preparation.ChooseImages | internal/forum/images.go:287-296 | The loop stops at the first choice the server does not confirm, and otherwise has added every one, on the member's credential; nothing is uploaded or deleted. |
| Uploads.Preparation.FollowLinks | internal/forum/images.go:297-317 | The same for links: one that is there already is skipped, a public image needs no credential, and any other must be the member's own. |
| Uploads.Preparation.UploadImages | internal/forum/images.go:318-342 | The same for files; and whenever the loop stops, the files created and not deleted again are exactly those noted for clean-up. |
| Uploads.Preparation.Prepare | internal/forum/images.go:242-344 | Gets exactly the images the server's answers allow, in order, and fails exactly when they do not; on failure what is left behind is noted for clean-up. |
| Uploads.ObtainedAre | internal/forum/images.go:242-344 | Whatever the server answers, a request that gets its images gets at most four, distinct, on the member's credential or none: those chosen, those linked and those uploaded, no more and no fewer. |
| UploadLaws.ObtainedAreVerified | internal/forum/images.go:242-344 | Every image stands on an answer to this very request: one about that image to the member's own credential, with the name and rendition shown, or one that showed it to anyone; chosen images come first, then linked ones, then uploads. |
| UploadLaws.ChosenExactly | internal/forum/images.go:287-296 | Choosing goes through exactly if the account is connected and the answers, one for each image, confirm it. |
| UploadLaws.UploadedExactly | internal/forum/images.go:318-342 | Uploading goes through exactly if the account is connected and each file can be read, is small enough, looks right and is answered with one private image. |
| UploadLaws.LinkExactly | internal/forum/images.go:297-317 | A link goes through exactly if it is to this server and its image is there already, public, or the member's own. |
| UploadLaws.FollowedJoins | internal/forum/images.go:297-317 | Following some links and then others is following them all. |
| Uploads.Preparation.CleanUp | internal/forum/images.go:266-274 | Asks for the deletion of exactly the uploads noted, in order. |
| Uploads.TidyIsAllowed | internal/forum/migrations/003_imvault.sql:7-16 | The table's constraints can never refuse prepared images of an existing account. |
| Handlers.CreateTopic | internal/forum/web.go:720-770 | Whatever other requests do between check and transaction, the conversation is committed if and only if the check passed, the form is valid, the server's answers gave the images and the board is still open to the writer with the audience shown; then nothing was deleted, and otherwise the database is unchanged and every upload was deleted. |
| Handlers.Reply | internal/forum/web.go:772-808 | The same for a reply, which is committed if and only if the writer may still reply. |
| Handlers.ChosenImagesAreSafe | internal/forum/images.go:242-274 | When nothing is posted, an image is deleted if and only if the server said this request had created it, so chosen and linked images survive. |
| Permissions.ReportAgrees | internal/forum/group_access.go:119-129 | For every account, board, mode, suspension, archive flag, override and set of grants, the group report says write exactly when posting would be allowed and none exactly when the gate or the views deny reading. |
| Visibility.WhoSeesBoard | internal/forum/access.go:47-65 | A member reads a board that is not restricted, that their own override opens, or, without one, that a grant of a group of theirs opens; an owner every board; a visitor those not restricted; somebody suspended none. |
| Visibility.VisitorsSee | internal/forum/access.go:61-65 | In every reachable state a visitor sees a conversation if and only if it is public and its board is not restricted. |
| Visibility.MembersSee | internal/forum/access.go:61-65 | An active member sees one if and only if it is public or for members and its board lets them read. |
| Visibility.OwnersSee | internal/forum/access.go:61-65 | An active owner sees every one. |
| Visibility.SuspendedSeeNothing | internal/forum/access.go:61-65 | A suspended or deleted account sees none. |
| Visibility.GateLetsRead | internal/forum/access.go:39-41 | The gate lets everyone read an open site, accounts a private one and owners a personal one. |
| Visibility.WhoMayPost | internal/forum/access.go:82-126 | Posting on a board needs an active account and a board that is not archived; and for anyone but an owner that the site is not personal and that the board, their override or a group of theirs lets them write. |
| Visibility.AudienceIs | internal/forum/access.go:17-26 | A new conversation is for owners on a personal site, for everyone on an unrestricted board of an open one, and for members otherwise. |
| Visibility.ModeDecides | internal/forum/settings.go:50-56 | A change of mode decides at once who may write, and leaves what everyone sees as it was. |
| PermissionLaws.MembersOnAgree | internal/forum/group_access.go:119-144 | So does every row the report puts on a board's list. |
| PermissionLaws.GroupBoardMembers | internal/forum/group_access.go:119-144 | The loop with its index puts every row on its own board's list, in order. |
| PermissionLaws.ReplySucceedsExactly | internal/forum/store.go:339-382 | A reply commits if and only if the author may write, sees the conversation in the view, and its board is open for writing, given a body and images the tables accept. |
| PermissionLaws.EditSucceedsExactly | internal/forum/editing.go:29-72 | An edit commits if and only if its author could still reply there, the message is theirs and not removed, and the revision is current, given a valid text. |
| Handlers.ChecksAgree | internal/forum/web.go:720-730 | On one database, the check made when the page is read and the transaction's own come to the same for anyone who may write. |
| Handlers.StillOpenIsNeeded | internal/forum/store.go:303-337 | What the transaction asks for is exactly what starting a conversation needs. |
| PermissionLaws.AuthorsReadTheirTopics | internal/forum/store.go:303-337 | Authors can read the conversations they start. |
| PermissionLaws.AuthorsReadTheirReplies | internal/forum/store.go:339-382 | Authors can read what they reply. |
| States.EveryStateIsValid | internal/forum/store.go:108-117 | The invariants of accounts, conversations, identifiers and grants hold in every state any run reaches from a new database. |
| Store.Store.Commit | internal/forum/store.go:108-117 | Committing a transaction's rows is one step of the state machine, at a time not before the last one. |
| Store.Store.DeadLinksAdmitNobody | internal/forum/store.go:464-487 | An invitation link that was dead after any transaction of the store has admitted nobody since, unless its digest was issued anew. |
| AccountEffects.AccountIsMade | internal/forum/store.go:506-519 | An account made on the command line commits exactly if its name is allowed and free, and has the role it was made with and nothing else. |
| AccountEffects.RegistersExactly | internal/forum/store.go:449-504 | A registration commits exactly if the site is not personal, the name is allowed and free, and the site is open and no invitation was given or the one given still lets someone in. |
| AccountEffects.RegisteredIsMember | internal/forum/store.go:488-503 | It makes one account never there before: a member with the name and password given, no right to invite, and as inviter the creator of the invitation it came with, or none; every other account is as it was. |
| AccountEffects.RegistrationCostsOneUse | internal/forum/store.go:470-485 | It costs that invitation exactly one use, and no other row of any table changes. |
| AccountEffects.OwnersAreMade | internal/forum/store.go:506-519 | Nobody becomes an owner: over every run without one made on the command line, whoever is an owner after it was one before. |
| AccountEffects.SessionIsMade | internal/forum/store.go:424-440 | Signing in commits exactly for an active account and a session nobody has; that session is there, expired ones are gone, others as they were. |
| AccountEffects.SessionIsEnded | internal/forum/store.go:442-445 | Signing out ends that session and no other. |
| AccountEffects.ResetLinkIsMade | internal/forum/reset_store.go:29-45 | A reset link is made exactly for an active account; it replaces the account's others and no one else's. |
| AccountEffects.ResetLinksAreCleared | internal/forum/reset_store.go:103-106 | Clearing ends exactly the account's links. |
| AccountEffects.PasswordIsSet | internal/forum/reset_store.go:110-120 | The account has exactly the password given and no session or reset link; everything else is as it was. |
| AccountEffects.RedeemedPasswordIsSet | internal/forum/reset_store.go:124-157 | Redeeming a link answers with the account the link was made for and gives it exactly the password given, without sessions or links; every other account, session and link is as before. |
| AccountEffects.EmailIsSet | internal/forum/reset_store.go:160-173 | The account has exactly the address given. |
| AccountEffects.InvitationIsMade | internal/forum/invitation_store.go:52-74 | An invitation is made exactly by someone who may invite, within the limits, and has exactly the terms given. |
| AccountEffects.InvitePermissionIsSet | internal/forum/invitation_store.go:135-163 | The right is given or taken as asked; taking it revokes exactly the member's open invitations. |
| AccountEffects.InvitationIsRevoked | internal/forum/invitation_store.go:165-184 | Its creator or an owner revokes an invitation once, and no other changes. |
| AccountEffects.ChangesMemberExactly | internal/forum/community_store.go:35-60 | An active owner suspends exactly an active member and restores a suspended one, from a current form that confirms the name. |
| AccountEffects.MemberIsChanged | internal/forum/community_store.go:50-77 | A suspension ends the member's sessions, links and unrevoked invitations and nobody else's; a restoration brings back nothing; the log says so. |
| RoomEffects.SavesBoardExactly | internal/forum/board_store.go:40-109 | A board is saved exactly by an active owner, from a valid form with the current revision, that gives levels to live members and existing groups. |
| RoomEffects.BoardIsSaved | internal/forum/board_store.go:87-109 | The board has each field of its form in its place; a new one has a number never used, comes last and is not archived; others are as they were. |
| RoomEffects.BoardIsSavedWithGrants | internal/forum/board_store.go:65-85 | Its overrides and grants are those of the form, other boards' as they were, and each group's revision counts its grants added and removed. |
| RoomEffects.ChangesBoardExactly | internal/forum/board_lifecycle.go:43-92 | An active owner changes exactly a board that is there, with its current revision: archives one that is not archived, restores one that is, deletes one by its name. |
| RoomEffects.BoardIsArchived | internal/forum/board_lifecycle.go:67-75 | Archiving sets the flag and restoring clears it, and nothing else changes but the revision. |
| RoomEffects.BoardIsDeleted | internal/forum/board_lifecycle.go:76-88 | Deleting takes the board, its overrides and its grants, and no other row of those tables. |
| RoomEffects.ContentIsDeleted | internal/forum/board_lifecycle.go:76-88 | It takes exactly the board's conversations, their messages and those messages' images. |
| RoomEffects.LogIsUnlinked | internal/forum/migrations/014_moderation_log.sql:4-13 | The log keeps every entry, without links to messages that are gone. |
| RoomEffects.ArchivedBoardIsClosed | internal/forum/access.go:108-116 | While a board is archived nobody's new conversation, reply or edit commits there. |
| RoomEffects.SavesGroupExactly | internal/forum/group_store.go:79-149 | A group is saved exactly by an active owner, from a valid current form, under a name no other group has, with live members each named once. |
| RoomEffects.GroupIsSaved | internal/forum/group_store.go:79-149 | The group has the name, the description and exactly the members of its form; boards with a grant to it have a new revision, and nothing else changes. |
| RoomEffects.DeletesGroupExactly | internal/forum/group_store.go:156-182 | An active owner deletes exactly a group that is there, with its current revision, by its name. |
| RoomEffects.GroupIsDeleted | internal/forum/group_store.go:156-182 | The group, its members and its grants are gone, and nothing else changes but the revisions of its boards. |
| PostEffects.StartsTopicExactly | internal/forum/store.go:303-337 | A conversation is started exactly by someone who may post on the board, for the audience the board has, within the limits of the tables. |
| PostEffects.TopicIsStarted | internal/forum/store.go:303-337 | It is there with its title, board, audience and time, its message and the images in their order, and nothing else changes. |
| PostEffects.ReplyIsAdded | internal/forum/store.go:339-382 | A reply adds its message and images in their order and moves the conversation's time on, and nothing else. |
| PostEffects.PostIsEdited | internal/forum/editing.go:29-72 | After an edit the message, stored and returned, has exactly the new text, trimmed, with a new time and revision if that differs; everything else about it, and every other row, is as it was. |
| PostEffects.PostIsRemoved | internal/forum/community_store.go:81-114 | After a removal the message is the owner's placeholder without images, its conversation has the plain title if asked for, and no other row differs. |
| PostEffects.RemovalIsLogged | internal/forum/community_store.go:81-114 | The log says who removed which message where. |
| PostEffects.DeletesAccountExactly | internal/forum/account_delete.go:42-64 | An active account is deleted exactly if its own name and password are given, it is not the last owner, and the name that stands for it afterwards is free. |
| PostEffects.AccountIsDeleted | internal/forum/account_delete.go:21-40 | A row without name, password, address or rights is left, shut out; its sessions, links and invitations are gone, and nobody else's. |
| PostEffects.OthersForgetTheAccount | internal/forum/account_delete.go:79-80 | Everyone else's row is as it was but that it names the account no more as inviter. |
| PostEffects.WordsAreDeleted | internal/forum/account_delete.go:66-71 | Its messages are placeholders and its titles plain; everyone else's are as they were; exactly the images on its messages or its credential are gone. |
| PostEffects.GrantsAreDeleted | internal/forum/account_delete.go:76-77 | Its overrides and memberships are gone, and nobody else's. |
| PostEffects.LogForgetsTheAccount | internal/forum/account_delete.go:88-96 | The log keeps every entry without the account's name. |
| Store.Store.SaveBoard | internal/forum/board_store.go:40-63 | The statements settle on the specified outcome: details, overrides, grants and the groups' revisions together, or an error and nothing at all, in whatever order the form's maps are visited. |
| Store.Store.ChangeBoard | internal/forum/board_lifecycle.go:43-92 | The statements settle on the specified outcome, which `RoomEffects` tells row by row: the flag set or cleared, or the board deleted with everything that hangs on it, or nothing at all. |
| Store.Store.SaveGroup | internal/forum/group_store.go:79-103 | Details, members and the revisions of every board with a grant together, or nothing. |
| Store.Store.DeleteGroup | internal/forum/group_store.go:156-182 | The group goes with its members and grants and its boards get new revisions, or nothing happens. |
| Store.Store.CreateTopic | internal/forum/store.go:303-337 | A conversation, its first message and every image together, or nothing. |
| Store.Store.Reply | internal/forum/store.go:339-382 | A message, its images and the conversation's new time together, or nothing. |
| Store.Store.EditPost | internal/forum/editing.go:29-72 | The statements settle on the specified outcome: the author's own readable message gets the new text (`PostEffects.PostIsEdited`) if its revision is current, is left if the text is the same, and otherwise nothing changes. |
| Store.Store.RemovePost | internal/forum/community_store.go:81-114 | Placeholder, images, title and log entry together, or nothing. |
| Store.Store.Register | internal/forum/store.go:449-504 | The statements settle on the specified outcome: one member (`AccountEffects.RegisteredIsMember`) and one use of its invitation together; a failed registration spends nothing. |
| Store.Store.NewSession | internal/forum/store.go:424-440 | Clears expired sessions and adds one for an active account, or changes nothing. |
| Store.Store.CreateAuthToken | internal/forum/reset_store.go:29-45 | Replaces an active account's reset link, or changes nothing. |
| Store.Store.SetPassword | internal/forum/reset_store.go:110-120 | Replaces a password and ends sessions and reset links together, or changes nothing. |
| Store.Store.ResetPassword | internal/forum/reset_store.go:124-157 | Marks a link used and sets the password given (`AccountEffects.RedeemedPasswordIsSet`) in one step, after which the link is gone; or changes nothing. |
| Store.Store.SetInvitePermission | internal/forum/invitation_store.go:138-163 | Changes the right, and revokes the open invitations if it is taken away. |
| Store.Store.ChangeMember | internal/forum/community_store.go:35-77 | Suspends with the end of sessions, links and invitations, or restores the account and nothing else, and leaves a log entry; or changes nothing. |
| Store.Store.DeleteAccount | internal/forum/account_delete.go:21-96 | The chain of deletions and updates over the tables settles on the specified database, with the blank row, or changes nothing. |
| PostTransactions.AttachImages | internal/forum/image_store.go:77-84 | Inserting images one at a time attaches all of them or fails exactly when one is there twice or names a credential that does not exist. |
| RoomTransactions.InsertBoardMembers | internal/forum/board_store.go:65-85 | Visiting the form in any order inserts exactly the overrides it asks for, and fails exactly when some entry is not allowed. |
| RoomTransactions.InsertBoardGroups | internal/forum/group_access.go:37-60 | The same for group grants, with the revisions the triggers give the groups. |
| RoomTransactions.ReplaceGroupMembers | internal/forum/group_store.go:133-149 | Fails exactly when someone is unknown, deleted, an owner or named twice; otherwise the group has exactly those members. |
| AccountTransactions.UsedLinkGoes | internal/forum/reset_store.go:50-157 | The mark on a redeemed link is never seen outside its transaction. |
| AccountLaws.RunKeepsAccounts | internal/forum/community_store.go:33-77 | In every state of every run, suspension is odd in its revision; nobody suspended or deleted has a session, reset link or unrevoked invitation; nobody has two reset links; no invitation is overused; and deleted rows are blank. |
| AccountLaws.RunMovesOn | internal/forum/account_delete.go:18-64 | Over every run a deleted account stays as it is, nobody changes role, and a site with a live owner always has one. |
| GrantLaws.SavedFormRules | internal/forum/board_store.go:40-109 | After a save the board is what the form says, and every member's access on it is the one the form spells out: their own level, else the strongest of their groups. |
| GrantLaws.SavedGroupRules | internal/forum/group_store.go:79-149 | After a save the group has exactly the chosen members; other groups and all grants are untouched. |
| GrantLaws.RunKeepsGrants | internal/forum/migrations/007_user_groups.sql:7-34 | In every state of every run, overrides and memberships are for live members on boards and groups that exist, and grants join boards and groups that exist. |
| Revisions.BoardRevisionsNeverRecur | internal/forum/board_store.go:87-109 | If a board has the same revision at two times of any run, its settings, archive flag, group grants, and everyone's override and access are the same at both, restricted or not. |
| Revisions.GroupRevisionsNeverRecur | internal/forum/migrations/007_user_groups.sql:20-25 | The same for groups: name, description, grants and members. |
| Revisions.StaleSaveIsRefused | internal/forum/board_store.go:96-107 | A save with the revision its form was opened with commits only if nothing it would overwrite has changed since: settings, archive flag, grants, overrides, nor anyone's access. |
| LinkLaws.UsesCountAdmissions | internal/forum/store.go:464-487 | Over every run an invitation's uses grow by exactly the accounts it admitted, and it never admits more than it had uses left. |
| LinkLaws.UsesAreAdmissions | internal/forum/invitation_store.go:52-76 | From the issue of a link on, its uses are exactly the accounts it has admitted, never more than its limit. |
| LinkLaws.DeadAdmitsNobody | internal/forum/store.go:470-485 | Revoked, expired and used up are for ever, whatever permissions change. |
| LinkLaws.WithdrawnLinksAdmitNobody | internal/forum/invitation_store.go:135-163 | After a member loses the right to invite or is suspended, none of their earlier links ever admits anyone, even if the right is given back. |
| LinkLaws.ValidIffRedeemable | internal/forum/reset_store.go:87-99 | A reset link is shown as valid if and only if redeeming it at that time would succeed. |
| LinkLaws.NewestResetLinkWorks | internal/forum/reset_store.go:26-45 | A new reset link works for its account until it expires, its earlier ones never again, and everyone else's as before. |
| LinkLaws.StepLeavesSpent | internal/forum/reset_store.go:47-85 | After a redemption the link is gone, and no step but issuing it anew brings it back. |
| LinkLaws.RedeemedAtMostOnce | internal/forum/reset_store.go:47-85 | A digest issued once is redeemed at most once over any run. |
| LinkLaws.NewSessionSignsIn | internal/forum/store.go:415-440 | A new session signs in its own account until it expires, and clearing out expired ones ends no session that still counted. |
| LinkLaws.PasswordChangeSignsOut | internal/forum/reset_store.go:108-157 | A password change ends the account's sessions and reset links and changes nothing for anyone else. |
| LinkLaws.SuspensionIsFinalForOldLinks | internal/forum/community_store.go:33-77 | Restoring a member never brings back a session or reset link from before the suspension. |
| PostLaws.RunMovesOn | internal/forum/migrations/006_board_lifecycle.sql:3-24 | Over every run messages keep conversation, author and time, change only with their revision, go only with their whole conversation, and no identifier of a conversation, message or image is used again; an image belongs to one message for good, from when that is posted. |
| PostLaws.ErasedStaysErased | internal/forum/community_store.go:79-114 | A removed message stays the same placeholder without images for ever; a message of a deleted account never gets words or images back. |
| PostLaws.OwnerMayRemoveErased | internal/forum/community_store.go:81-114 | An owner may still turn the author's placeholder into the owner's. |
| PostLaws.OrphanChangesExactly | internal/forum/community_store.go:81-114 | As long as it exists, the message of a deleted account changes in a step if and only if the step is its removal by an active owner with its current revision, the title replaced only with the first message; and it becomes the owner's placeholder. |
| PostLaws.OrphanChangesExactlyOverRuns | internal/forum/account_delete.go:18-40 | So over any run: the very same placeholder if no such removal is in it, the owner's if one is. |
| PostLaws.RemovalSucceedsExactly | internal/forum/community_store.go:81-114 | An active owner's removal commits on any message that is there and not removed, with its current revision, the title replaced only with the first message, and on no other; the check that the owner can read it never refuses. |
| PostLaws.DeletionSparesOthers | internal/forum/account_delete.go:66-96 | Deleting an account leaves everyone else's messages and numbers as they were. |
| ImageLaws.AddressesRetire | internal/forum/migrations/006_board_lifecycle.sql:3-24 | An image's address shows that image or none at every later time, and none for ever once it has gone. |
| ImageLaws.NoImageComesLater | internal/forum/image_store.go:77-84 | No message ever gets an image after it was posted. |
| ImageLaws.PreparedImagesAreOwn | internal/forum/images.go:242-344 | What a request prepares is on the poster's credential or on none. |
| ImageLaws.RunKeepsCredentials | internal/forum/image_store.go:77-84 | Over any run of such posts, every image is on the credential of its message's author or on none. |
| ImageLaws.DeletionSparesImages | internal/forum/account_delete.go:68 | In every state such a run reaches, deleting an account takes exactly the images of its own messages away, although every image on its credential goes. |
| PostLaws.NumbersNeverChange | internal/forum/editing.go:16-22 | A message's number is the same in every later state in which it exists. |
| PostLaws.AudiencesNeverChange | internal/forum/store.go:317 | A conversation keeps the board and audience it was started with. |
| PostLaws.StaleFormsAreRefused | internal/forum/editing.go:60-62 | An edit or removal with the revision its form was opened with commits only on the very message the form showed. |
| Listing.ReadPage | internal/forum/recent.go:24-43 | Asking for one row more than the limit gives the page, and says there is more exactly when there is. |
| Listing.PagesPartition | internal/forum/recent.go:8-44 | For any page size, the pages read while there is more are the whole list, once and in order. |
| Listing.OrderedListIsUnique | internal/forum/recent.go:19 | Rows with distinct keys have one order. |
| Views.FeedPagesListEverything | internal/forum/recent.go:5-44 | The pages of the feed list every visible, unremoved message in boards that are not archived exactly once, newest first. |
| Visibility.FeedsShow | internal/forum/recent.go:8-19 | A visitor's feed has exactly the public, unremoved messages of unrestricted boards that are not archived, a member's those not for owners on boards that let them read, an owner's all. |
| Visibility.FeedIsNewestFirst | internal/forum/recent.go:19 | A message in the feed is newer than those after it, or of the same time and posted later. |
| Visibility.FeedRowShows | internal/forum/recent.go:9-15 | A row has its message's words, times, revision and number, where it is, and its author's name unless that account was deleted. |
| Visibility.FeedRowShowsAccess | internal/forum/recent.go:15 | It says write for an owner and for a member the board lets write, and read for everyone else. |
| Views.HiddenPostsDoNotShow | internal/forum/recent.go:5-19 | Databases that differ only in what a reader cannot see have the same feed for them, row by row. |
| Views.NumberIsPosition | internal/forum/store.go:281-301 | A message's number is its place in the listing, counted from 1. |
| Views.PermalinkIsRight | internal/forum/editing.go:132-134 | The page a permalink points to lists the message, and the listing's own count there is its number. |
| Views.ReplyReturnsItsNumber | internal/forum/store.go:377-381 | The count a reply returns is the new message's number. |
| Export.ExportShowsOnlyReadable | internal/forum/export_store.go:55-150 | Between databases that agree on what the member wrote and can read, the export is the same if and only if, in the conversations hidden from the member, equally many messages by others came before each of the member's. |
| ExportRows.OwnPostsAreExported | internal/forum/export_store.go:96-133 | An export has exactly the member's messages, each once, in order and as stored, with number, and with title, board and images exactly where they can see the conversation. |
| ExportRows.OwnTopicsAreExported | internal/forum/export_store.go:86-95 | It has exactly the conversations they wrote in, in order; of hidden ones only place, audience, time and how much they wrote. |
| ExportRows.OwnBoardsAreExported | internal/forum/export_store.go:77-85 | It has exactly the boards they wrote on, in the order of the board list, with names only where visible. |
| Export.HiddenActivityNeverShows | internal/forum/export_store.go:55-59 | Over a run that leaves that as it was, the export does not change, whatever else happens. |
| HiddenCounts.EarlierPostsShow | internal/forum/export_store.go:105-110 | From any new database, two runs that differ only in which hidden conversation someone else's message went to end in databases that agree on what the member wrote and can read, and in different exports. |
| Export.PlaceImages | internal/forum/export_store.go:116-133 | The loop through an index gives each message with a visible title its own images, in order, and the others none. |
| Export.PlacedImagesAreRight | internal/forum/export_store.go:116-133 | Going by the title withholds images exactly in the conversations the member cannot see, because no title is empty. |

## Left out

- Revisions.BoardRevisionsNeverRecur: speaks of accounts that are there and not deleted at both times, since deleting an account takes its overrides with it and leaves the board's revision alone; being suspended is part of the account, not of the board.
- Revisions.GroupRevisionsNeverRecur: likewise for a group's members.
- LinkLaws.DeadAdmitsNobody: assumes that the link's digest is not issued anew; digests stand for random secrets.
- LinkLaws.UsesCountAdmissions: likewise.
- LinkLaws.UsesAreAdmissions: likewise.
- LinkLaws.WithdrawnLinksAdmitNobody: likewise.
- Store.Store.DeadLinksAdmitNobody: likewise.
- LinkLaws.RedeemedAtMostOnce: likewise of a reset link's digest.
- LinkLaws.SuspensionIsFinalForOldLinks: likewise of the digests of sessions and reset links.
- ImageLaws.DeletionSparesImages: is about runs whose posts carry prepared images; the store itself would accept an image on anyone's credential.
- Imvault.OwnershipCache.CachedFile: asks that the credential holds no NUL, which the form that connects an account sees to (`internal/forum/images.go:36-40`).
- HTTP routing, templates, cookies, redirects, CSRF and multipart parsing; `load_images`, which only shows the form again.
- bcrypt, SHA-256, AES-GCM, random tokens and image decoding: digests and passwords are strings, and whether bytes look like an image is a parameter.
- Single statements that need no transaction (ending a session, clearing reset links, setting an email address, creating and revoking invitations, changing the mode) are steps of the machine without a method of the store.
- Avatars, profiles, time zones, branding, image connections and the owner's community export, members and policy: tables no law here is about.
- Which runes are letters or digits: a parameter of the link scanner. Trimming uses Unicode's list of spaces; text is a string of characters whose length is what the tables count.
- `container/list` keeps a ring with a sentinel; the list here has a front and a back that may be absent.
- SQLite itself: constraints, cascades and triggers are modelled as the migrations state them, with triggers also firing for rows deleted by a cascade; NUL characters in a LIKE pattern, full disks and lost connections are not modelled.
- The imvault server: its answers are arbitrary, but what it does with a request is not modelled; a deletion counts as asked for, whether or not it succeeds.
- Goroutines inside one request and timeouts; mutexes, beyond that each call of the limiter and the store is one step, and each stretch in which the cache holds its lock.
- HiddenCounts.EarlierPostsShow: compares two histories; a member has the export of one.
