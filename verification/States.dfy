/** The states the board can be in: every one that a run of transactions leads to from a new database. */
module States {
  import opened Schema
  import Machine
  import AccountLaws
  import AccountOps
  import GrantLaws
  import PostLaws
  import PostTransactions
  import Revisions

  /** The invariant of the whole database. */
  ghost predicate Valid(db: DB) {
    PostLaws.Fits(db) && Revisions.IdsOk(db.rooms) && GrantLaws.GrantsOk(db.rooms, db.accounts.users)
  }

  lemma NewIsValid(db: DB)
    requires Machine.IsNew(db)
    ensures Valid(db)
  {
  }

  lemma StepStaysValid(db: DB, a: Machine.Action, now: Time)
    requires Valid(db)
    ensures Valid(Machine.Apply(db, a, now))
  {
    GrantLaws.StepKeepsGrants(db, a, now);
    PostLaws.StepMovesOn(db, a, now);
    Revisions.StepMovesOn(db, a, now);
  }

  /** Whatever is done to a new board, in whatever order and at whatever times, the invariant holds. */
  lemma EveryStateIsValid(start: DB, run: Machine.Run)
    requires Machine.IsNew(start)
    ensures Valid(Machine.After(start, run))
  {
    NewIsValid(start);
    GrantLaws.RunKeepsGrants(start, run);
    PostLaws.RunMovesOn(start, run);
    Revisions.RunMovesOn(start, run);
  }

  lemma {:induction false} OneMore(db: DB, run: Machine.Run, a: Machine.Action, now: Time)
    ensures Machine.After(db, run + [Machine.At(now, a)]) == Machine.Apply(Machine.After(db, run), a, now)
    decreases run
  {
    var longer := run + [Machine.At(now, a)];
    if run == [] {
      assert longer[1..] == [];
    } else {
      assert longer[0] == run[0] && longer[1..] == run[1..] + [Machine.At(now, a)];
      OneMore(Machine.Apply(db, run[0].action, run[0].now), run[1..], a, now);
    }
  }

  /** When the latest step of a run was, if there was one since `origin`. */
  function LastTime(run: Machine.Run, origin: Time): Time {
    if run == [] then origin else run[|run| - 1].now
  }

  lemma {:induction false} ClockedOn(run: Machine.Run, origin: Time, a: Machine.Action, now: Time)
    requires Machine.Clocked(run, origin) && LastTime(run, origin) <= now
    ensures Machine.Clocked(run + [Machine.At(now, a)], origin)
    decreases run
  {
    var longer := run + [Machine.At(now, a)];
    if run == [] {
      assert longer[1..] == [];
    } else {
      assert longer[0] == run[0] && longer[1..] == run[1..] + [Machine.At(now, a)];
      ClockedOn(run[1..], run[0].now, a, now);
    }
  }

  /** What comes after any point of a run happens no earlier than that point. */
  lemma {:induction false} ClockedFrom(a: Machine.Run, b: Machine.Run, origin: Time)
    requires Machine.Clocked(a + b, origin)
    ensures Machine.Clocked(b, LastTime(a, origin))
    decreases a
  {
    if a == [] {
      assert a + b == b;
    } else {
      assert (a + b)[0] == a[0] && (a + b)[1..] == a[1..] + b;
      ClockedFrom(a[1..], b, a[0].now);
    }
  }

  lemma {:induction false} AfterJoins(db: DB, a: Machine.Run, b: Machine.Run)
    ensures Machine.After(db, a + b) == Machine.After(Machine.After(db, a), b)
    decreases a
  {
    if a == [] {
      assert a + b == b;
    } else {
      assert (a + b)[0] == a[0] && (a + b)[1..] == a[1..] + b;
      AfterJoins(Machine.Apply(db, a[0].action, a[0].now), a[1..], b);
    }
  }

  // ----- What the transactions themselves rely on -----

  /** Images belong to messages that exist, so a new message has none. */
  lemma ImagesBelong(start: DB, run: Machine.Run)
    requires Machine.IsNew(start)
    ensures PostTransactions.ImagesBelong(Machine.After(start, run).content)
  {
    EveryStateIsValid(start, run);
    var db := Machine.After(start, run);
    forall p | p in db.content.posts ensures p <= db.content.lastPost {
      assert PostLaws.PostOk(db.content, db.accounts.users, p);
    }
  }

  lemma DigestsDiffer(start: DB, run: Machine.Run)
    requires Machine.IsNew(start)
    ensures AccountOps.DigestsDiffer(Machine.After(start, run).accounts.invitations)
  {
    EveryStateIsValid(start, run);
  }

  lemma AccountsAreOk(start: DB, run: Machine.Run)
    requires Machine.IsNew(start)
    ensures AccountLaws.AccountsOk(Machine.After(start, run).accounts)
  {
    EveryStateIsValid(start, run);
  }
}
