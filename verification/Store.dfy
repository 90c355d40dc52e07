/** The store. Every transaction works statement by statement on an open transaction's rows; an early
    error return leaves the database as it was, a commit makes the rows the database's own. Each method
    does to the database, and answers, exactly what the specification of its transaction says, and
    keeps the invariant. `now` stands for `time.Now()`. */
module Store {
  import opened Schema
  import opened Transactions
  import AccountOps
  import AccountTransactions
  import DeletionTransactions
  import LinkLaws
  import Machine
  import PostOps
  import PostTransactions
  import RoomOps
  import RoomTransactions
  import States

  class Store {
    var db: DB
    ghost const start: DB
    ghost const origin: Time
    ghost var run: Machine.Run       // every transaction committed so far
    ghost var clock: Time            // never goes back

    /** The database is where these transactions lead from a new one, under a clock that never goes back. */
    ghost predicate Valid()
      reads this
    {
      && Machine.IsNew(start) && db == Machine.After(start, run)
      && Machine.Clocked(run, origin) && States.LastTime(run, origin) <= clock
    }

    constructor (start: DB, now: Time)
      requires Machine.IsNew(start)
      ensures Valid() && db == start && run == [] && origin == clock == now
    {
      db, this.start, origin, run, clock := start, start, now, [], now;
    }

    /** Makes a transaction's rows the database's own: the next step of the run. */
    method Commit(tx: Tx, ghost a: Machine.Action, ghost now: Time)
      requires Valid() && clock <= now && tx.rows == Machine.Apply(db, a, now)
      modifies this
      ensures Valid() && db == tx.rows
      ensures run == old(run) + [Machine.At(now, a)] && clock == now
    {
      States.OneMore(start, run, a, now);
      States.ClockedOn(run, origin, a, now);
      db, run, clock := tx.rows, run + [Machine.At(now, a)], now;
    }

    /** The laws of clocked runs hold of what the store does: an invitation link that was dead after any of
        its transactions has admitted nobody since. */
    lemma DeadLinksAdmitNobody(k: nat, digest: Digest)
      requires Valid() && k <= |run| && LinkLaws.NeverIssues(run[k..], digest)
      requires LinkLaws.Dead(Machine.After(start, run[..k]).accounts, digest, States.LastTime(run[..k], origin))
      ensures LinkLaws.Admissions(Machine.After(start, run[..k]), run[k..], digest) == 0
    {
      assert run == run[..k] + run[k..];
      States.ClockedFrom(run[..k], run[k..], origin);
      States.AccountsAreOk(start, run[..k]);
      LinkLaws.DeadAdmitsNobody(Machine.After(start, run[..k]), run[k..], digest, States.LastTime(run[..k], origin));
    }

    // ----- Boards and groups -----

    method SaveBoard(owner: Id, id: Id, revision: int, f: RoomOps.BoardForm,
                     members: map<Id, RoomOps.Level>, groups: map<Id, RoomOps.Level>) returns (r: Result<Id>)
      requires Valid()
      modifies this
      ensures Valid() && old(run) <= run && clock == old(clock)
      ensures Settles(old(db), db, r, RoomOps.SaveBoard(old(db), owner, id, revision, f, members, groups))
    {
      var tx := new Tx(db);
      r := RoomTransactions.SaveBoard(tx, owner, id, revision, f, members, groups);
      if r.Ok? {
        Commit(tx, Machine.OnRooms(RoomOps.DoSaveBoard(owner, id, revision, f, members, groups)), clock);
      }
    }

    method ChangeBoard(owner: Id, id: Id, revision: int, action: RoomOps.BoardAction,
            confirmation: string) returns (r: Result<()>)
      requires Valid()
      modifies this
      ensures Valid() && old(run) <= run && clock == old(clock)
      ensures Settles(old(db), db, r, RoomOps.ChangeBoard(old(db), owner, id, revision, action, confirmation))
    {
      var tx := new Tx(db);
      r := RoomTransactions.ChangeBoard(tx, owner, id, revision, action, confirmation);
      if r.Ok? {
        Commit(tx, Machine.OnRooms(RoomOps.DoChangeBoard(owner, id, revision, action, confirmation)), clock);
      }
    }

    method SaveGroup(owner: Id, id: Id, revision: int, name: string, description: string,
            members: seq<Id>) returns (r: Result<Id>)
      requires Valid()
      modifies this
      ensures Valid() && old(run) <= run && clock == old(clock)
      ensures Settles(old(db), db, r, RoomOps.SaveGroup(old(db), owner, id, revision, name, description, members))
    {
      var tx := new Tx(db);
      r := RoomTransactions.SaveGroup(tx, owner, id, revision, name, description, members);
      if r.Ok? {
        Commit(tx, Machine.OnRooms(RoomOps.DoSaveGroup(owner, id, revision, name, description, members)), clock);
      }
    }

    method DeleteGroup(owner: Id, id: Id, revision: int, confirmation: string) returns (r: Result<()>)
      requires Valid()
      modifies this
      ensures Valid() && old(run) <= run && clock == old(clock)
      ensures Settles(old(db), db, r, RoomOps.DeleteGroup(old(db), owner, id, revision, confirmation))
    {
      var tx := new Tx(db);
      r := RoomTransactions.DeleteGroup(tx, owner, id, revision, confirmation);
      if r.Ok? {
        Commit(tx, Machine.OnRooms(RoomOps.DoDeleteGroup(owner, id, revision, confirmation)), clock);
      }
    }

    // ----- Conversations -----

    method CreateTopic(board: Id, author: Id, title: string, body: string, audience: Audience,
                       images: seq<Image>, now: Time) returns (r: Result<Id>)
      requires Valid() && clock <= now
      modifies this
      ensures Valid() && old(run) <= run && old(clock) <= clock <= now
      ensures Settles(old(db), db, r, PostOps.CreateTopic(old(db), board, author, title, body, audience, images, now))
    {
      States.ImagesBelong(start, run);
      var tx := new Tx(db);
      r := PostTransactions.CreateTopic(tx, board, author, title, body, audience, images, now);
      if r.Ok? {
        Commit(tx, Machine.OnPosts(PostOps.DoCreateTopic(board, author, title, body, audience, images)), now);
      }
    }

    method Reply(topic: Id, author: Id, body: string, images: seq<Image>, now: Time) returns (r: Result<PostOps.Reply>)
      requires Valid() && clock <= now
      modifies this
      ensures Valid() && old(run) <= run && old(clock) <= clock <= now
      ensures Settles(old(db), db, r, PostOps.AddReply(old(db), topic, author, body, images, now))
    {
      States.ImagesBelong(start, run);
      var tx := new Tx(db);
      r := PostTransactions.Reply(tx, topic, author, body, images, now);
      if r.Ok? {
        Commit(tx, Machine.OnPosts(PostOps.DoReply(topic, author, body, images)), now);
      }
    }

    method EditPost(id: Id, author: Id, body: string, revision: int, now: Time) returns (r: Result<Post>)
      requires Valid() && clock <= now
      modifies this
      ensures Valid() && old(run) <= run && old(clock) <= clock <= now
      ensures Settles(old(db), db, r, PostOps.EditPost(old(db), id, author, body, revision, now))
    {
      var tx := new Tx(db);
      r := PostTransactions.EditPost(tx, id, author, body, revision, now);
      if r.Ok? {
        Commit(tx, Machine.OnPosts(PostOps.DoEditPost(id, author, body, revision)), now);
      }
    }

    method RemovePost(owner: Id, id: Id, revision: int, replaceTitle: bool, now: Time) returns (r: Result<Post>)
      requires Valid() && clock <= now
      modifies this
      ensures Valid() && old(run) <= run && old(clock) <= clock <= now
      ensures Settles(old(db), db, r, PostOps.RemovePost(old(db), owner, id, revision, replaceTitle, now))
    {
      var tx := new Tx(db);
      r := PostTransactions.RemovePost(tx, owner, id, revision, replaceTitle, now);
      if r.Ok? {
        Commit(tx, Machine.OnPosts(PostOps.DoRemovePost(owner, id, revision, replaceTitle)), now);
      }
    }

    // ----- Accounts -----

    method Register(name: string, hash: Digest, digest: Digest, now: Time) returns (r: Result<Id>)
      requires Valid() && clock <= now
      modifies this
      ensures Valid() && old(run) <= run && old(clock) <= clock <= now
      ensures Settles(old(db), db, r, AccountOps.Register(old(db), name, hash, digest, now))
    {
      States.DigestsDiffer(start, run);
      var tx := new Tx(db);
      r := AccountTransactions.Register(tx, name, hash, digest, now);
      if r.Ok? {
        Commit(tx, Machine.OnAccounts(AccountOps.DoRegister(name, hash, digest)), now);
      }
    }

    method NewSession(digest: Digest, user: Id, expires: Time, now: Time) returns (r: Result<()>)
      requires Valid() && clock <= now
      modifies this
      ensures Valid() && old(run) <= run && old(clock) <= clock <= now
      ensures Settles(old(db), db, r, AccountOps.NewSession(old(db), digest, user, expires, now))
    {
      var tx := new Tx(db);
      r := AccountTransactions.NewSession(tx, digest, user, expires, now);
      if r.Ok? {
        Commit(tx, Machine.OnAccounts(AccountOps.DoNewSession(digest, user, expires)), now);
      }
    }

    method CreateAuthToken(user: Id, digest: Digest, expires: Time, now: Time) returns (r: Result<()>)
      requires Valid() && clock <= now
      modifies this
      ensures Valid() && old(run) <= run && old(clock) <= clock <= now
      ensures Settles(old(db), db, r, AccountOps.CreateAuthToken(old(db), user, digest, expires, now))
    {
      var tx := new Tx(db);
      r := AccountTransactions.CreateAuthToken(tx, user, digest, expires, now);
      if r.Ok? {
        Commit(tx, Machine.OnAccounts(AccountOps.DoCreateAuthToken(user, digest, expires)), now);
      }
    }

    method SetPassword(user: Id, hash: Digest) returns (r: Result<()>)
      requires Valid()
      modifies this
      ensures Valid() && old(run) <= run && clock == old(clock)
      ensures Settles(old(db), db, r, AccountOps.SetPassword(old(db), user, hash))
    {
      var tx := new Tx(db);
      r := AccountTransactions.SetPassword(tx, user, hash);
      if r.Ok? {
        Commit(tx, Machine.OnAccounts(AccountOps.DoSetPassword(user, hash)), clock);
      }
    }

    method ResetPassword(digest: Digest, hash: Digest, at: Time) returns (r: Result<Id>)
      requires Valid() && clock <= at
      modifies this
      ensures Valid() && old(run) <= run && old(clock) <= clock <= at
      ensures Settles(old(db), db, r, AccountOps.ResetPassword(old(db), digest, hash, at))
    {
      var tx := new Tx(db);
      r := AccountTransactions.ResetPassword(tx, digest, hash, at);
      if r.Ok? {
        Commit(tx, Machine.OnAccounts(AccountOps.DoResetPassword(digest, hash)), at);
      }
    }

    method SetInvitePermission(user: Id, enabled: bool, now: Time) returns (r: Result<()>)
      requires Valid() && clock <= now
      modifies this
      ensures Valid() && old(run) <= run && old(clock) <= clock <= now
      ensures Settles(old(db), db, r, AccountOps.SetInvitePermission(old(db), user, enabled, now))
    {
      var tx := new Tx(db);
      r := AccountTransactions.SetInvitePermission(tx, user, enabled, now);
      if r.Ok? {
        Commit(tx, Machine.OnAccounts(AccountOps.DoSetInvitePermission(user, enabled)), now);
      }
    }

    method ChangeMember(owner: Id, member: Id, revision: int, action: AccountOps.MemberAction,
                        confirmation: string, now: Time) returns (r: Result<()>)
      requires Valid() && clock <= now
      modifies this
      ensures Valid() && old(run) <= run && old(clock) <= clock <= now
      ensures Settles(old(db), db, r,
                AccountOps.ChangeMember(old(db), owner, member, revision, action, confirmation, now))
    {
      var tx := new Tx(db);
      r := AccountTransactions.ChangeMember(tx, owner, member, revision, action, confirmation, now);
      if r.Ok? {
        Commit(tx, Machine.OnAccounts(AccountOps.DoChangeMember(owner, member, revision, action, confirmation)), now);
      }
    }

    method DeleteAccount(user: Id, name: string, hash: Digest) returns (r: Result<()>)
      requires Valid()
      modifies this
      ensures Valid() && old(run) <= run && clock == old(clock)
      ensures Settles(old(db), db, r, PostOps.DeleteAccount(old(db), user, name, hash))
    {
      var tx := new Tx(db);
      r := DeletionTransactions.DeleteAccount(tx, user, name, hash);
      if r.Ok? {
        Commit(tx, Machine.DeleteAccount(user, name, hash), clock);
      }
    }
  }
}
