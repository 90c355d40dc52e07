/** A transaction while it runs, and what it means for one to do what its specification says. */
module Transactions {
  import opened Schema

  /** An open transaction: a copy of the rows that only a commit makes the database's own. */
  class Tx {
    var rows: DB

    constructor (db: DB)
      ensures rows == db
    {
      rows := db;
    }
  }

  /** The database and the answer are those of the outcome; one that fails leaves the database alone. */
  ghost predicate Settles<T>(before: DB, after: DB, answer: Result<T>, o: Outcome<T>) {
    after == o.After(before) && answer == o.Answer()
  }

  /** The rows as a transaction leaves them, to be committed if it answers with a value. */
  ghost predicate Does<T>(before: DB, after: DB, answer: Result<T>, o: Outcome<T>) {
    answer == o.Answer() && (o.Committed? ==> after == o.db)
  }

  method Pick<T>(ids: set<T>) returns (id: T)
    requires ids != {}
    ensures id in ids
  {
    id :| id in ids;
  }

  /** The part of a form seen so far: everything but what is still to do. */
  ghost predicate Seen<K(!new), V>(access: map<K, V>, todo: set<K>, seen: map<K, V>) {
    && (forall u :: u in todo ==> u in access)
    && (forall u :: u in access ==> u in todo || (u in seen && seen[u] == access[u]))
    && (forall u :: u in seen ==> u in access && u !in todo)
  }

  lemma SeesOneMore<K(!new), V>(access: map<K, V>, todo: set<K>, seen: map<K, V>, u: K)
    requires Seen(access, todo, seen) && u in todo
    ensures Seen(access, todo - {u}, seen[u := access[u]])
  {
  }

  lemma SeesAll<K(!new), V>(access: map<K, V>, todo: set<K>, seen: map<K, V>)
    requires Seen(access, todo, seen) && todo == {}
    ensures seen == access
  {
  }
}
