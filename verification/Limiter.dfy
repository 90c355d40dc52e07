/** The sign-in limiter: a map from client network to list element, and a doubly
    linked list of records kept in creation order.

    `LimiterSpec` describes the limiter as a sequence of records and, more simply,
    as a table of live records; `Limiter` is the linked structure that implements it. */
module LimiterSpec {
  type Key = string

  // Times are nanoseconds, as in Go's time.Duration.
  const WINDOW: nat := 15 * 60 * 1_000_000_000
  const ATTEMPTS: nat := 20
  const CLIENTS: nat := 10000

  datatype Record = Record(key: Key, count: nat, until: int)

  ghost predicate DistinctKeys(s: seq<Record>) {
    forall i, j :: 0 <= i < j < |s| ==> s[i].key != s[j].key
  }

  ghost predicate SortedByExpiry(s: seq<Record>) {
    forall i, j :: 0 <= i < j < |s| ==> s[i].until <= s[j].until
  }

  /** What holds of the limiter's records between calls, `clock` being the time of the latest one. */
  ghost predicate Sound(s: seq<Record>, clock: int) {
    && DistinctKeys(s)
    && SortedByExpiry(s)
    && |s| <= CLIENTS
    && forall i :: 0 <= i < |s| ==> s[i].count <= ATTEMPTS && s[i].until <= clock + WINDOW
  }

  /** Pruning stops at the first live record: the rest of the list is never looked at. */
  ghost function Prune(s: seq<Record>, now: int): seq<Record> {
    if s != [] && s[0].until <= now then Prune(s[1..], now) else s
  }

  ghost function Evict(s: seq<Record>): seq<Record> {
    if |s| >= CLIENTS then Evict(s[1..]) else s
  }

  ghost predicate Has(s: seq<Record>, key: Key) {
    exists i :: 0 <= i < |s| && s[i].key == key
  }

  ghost function Find(s: seq<Record>, key: Key): (i: nat)
    requires Has(s, key)
    ensures i < |s| && s[i].key == key
  {
    if s[0].key == key then 0 else Find(s[1..], key) + 1
  }

  /** The records an attempt by `key` is charged against, with a new one appended if it had none. */
  ghost function Admit(s: seq<Record>, key: Key, now: int): seq<Record> {
    var live := Prune(s, now);
    if Has(live, key) then live else Evict(live) + [Record(key, 0, now + WINDOW)]
  }

  ghost function Charge(s: seq<Record>, key: Key): (seq<Record>, bool)
    requires Has(s, key)
  {
    var i := Find(s, key);
    if s[i].count >= ATTEMPTS then (s, false) else (s[i := s[i].(count := s[i].count + 1)], true)
  }

  ghost function Allow(s: seq<Record>, key: Key, now: int): (seq<Record>, bool) {
    var admitted := Admit(s, key, now);
    AdmitHas(s, key, now);
    Charge(admitted, key)
  }

  ghost function Refund(s: seq<Record>, key: Key): seq<Record> {
    if Has(s, key) then
      var i := Find(s, key);
      if s[i].count > 0 then s[i := s[i].(count := s[i].count - 1)] else s
    else s
  }

  lemma AdmitHas(s: seq<Record>, key: Key, now: int)
    ensures Has(Admit(s, key, now), key)
  {
    var live := Prune(s, now);
    if !Has(live, key) {
      var a := Admit(s, key, now);
      assert a[|a| - 1].key == key;
    }
  }

  // ----- Keeping sound -----

  /** Front-only pruning drops exactly the expired records, because the list is in expiry order. */
  lemma {:induction false} PruneDropsExactlyExpired(s: seq<Record>, now: int) returns (n: nat)
    requires SortedByExpiry(s)
    ensures n <= |s| && Prune(s, now) == s[n..]
    ensures forall i :: 0 <= i < n ==> s[i].until <= now
    ensures forall i :: n <= i < |s| ==> now < s[i].until
  {
    if s != [] && s[0].until <= now {
      var m := PruneDropsExactlyExpired(s[1..], now);
      n := m + 1;
      forall i | 0 <= i < n ensures s[i].until <= now {
        assert i == 0 || s[i] == s[1..][i - 1];
      }
      forall i | n <= i < |s| ensures now < s[i].until {
        assert s[i] == s[1..][i - 1];
      }
    } else {
      n := 0;
    }
  }

  lemma {:induction false} EvictKeepsNewest(s: seq<Record>)
    ensures Evict(s) == if |s| < CLIENTS then s else s[|s| - CLIENTS + 1..]
  {
    if |s| >= CLIENTS {
      EvictKeepsNewest(s[1..]);
    }
  }

  lemma FindUnique(s: seq<Record>, key: Key, i: nat)
    requires DistinctKeys(s) && i < |s| && s[i].key == key
    ensures Has(s, key) && Find(s, key) == i
  {
  }

  /** Admitting and charging keeps the records sound, at the later clock. */
  lemma AllowKeepsSound(s: seq<Record>, key: Key, before: int, now: int)
    requires Sound(s, before) && before <= now
    ensures Sound(Allow(s, key, now).0, now)
  {
    AdmitIsSound(s, key, before, now);
    AdmitHas(s, key, now);
  }

  lemma SuffixSound(s: seq<Record>, n: nat, clock: int)
    requires Sound(s, clock) && n <= |s|
    ensures Sound(s[n..], clock)
  {
  }

  lemma PushSound(s: seq<Record>, r: Record, clock: int)
    requires Sound(s, clock) && |s| < CLIENTS && !Has(s, r.key)
    requires r.count <= ATTEMPTS && r.until == clock + WINDOW
    ensures Sound(s + [r], clock)
  {
  }

  lemma SuffixLacks(s: seq<Record>, n: nat, key: Key)
    requires n <= |s| && !Has(s, key)
    ensures !Has(s[n..], key)
  {
    forall j | 0 <= j < |s| - n ensures s[n..][j].key != key {
      assert s[n..][j] == s[j + n];
    }
  }

  lemma AdmitIsSound(s: seq<Record>, key: Key, before: int, now: int)
    requires Sound(s, before) && before <= now
    ensures Sound(Prune(s, now), now) && Sound(Admit(s, key, now), now)
  {
    var n := PruneDropsExactlyExpired(s, now);
    assert Sound(s, now);
    SuffixSound(s, n, now);
    var live := Prune(s, now);
    if !Has(live, key) {
      EvictKeepsNewest(live);
      var m := if |live| < CLIENTS then 0 else 1;
      SuffixSound(live, m, now);
      SuffixLacks(live, m, key);
      assert Evict(live) == live[m..];
      PushSound(live[m..], Record(key, 0, now + WINDOW), now);
    }
  }

  lemma RefundKeepsSound(s: seq<Record>, key: Key, clock: int)
    requires Sound(s, clock)
    ensures Sound(Refund(s, key), clock)
  {
  }

  // ----- The limiter as a plain table -----

  ghost function Keys(s: seq<Record>): set<Key> {
    set r | r in s :: r.key
  }

  /** The table a caller has in mind: one record for each key that has one. */
  ghost function Table(s: seq<Record>): (m: map<Key, Record>)
    ensures m.Keys == Keys(s)
  {
    map k | k in Keys(s) :: Lookup(s, k)
  }

  ghost function Lookup(s: seq<Record>, key: Key): Record
    requires key in Keys(s)
  {
    s[Find(s, key)]
  }

  lemma LookupAt(s: seq<Record>, i: nat)
    requires DistinctKeys(s) && i < |s|
    ensures s[i].key in Keys(s) && Table(s)[s[i].key] == s[i]
  {
    assert s[i] in s;
    FindUnique(s, s[i].key, i);
  }

  lemma IndexOf(s: seq<Record>, key: Key) returns (i: nat)
    requires DistinctKeys(s) && key in Keys(s)
    ensures i < |s| && s[i].key == key && Table(s)[key] == s[i]
  {
    i := Find(s, key);
  }

  ghost function Live(m: map<Key, Record>, now: int): map<Key, Record> {
    map k | k in m && now < m[k].until :: m[k]
  }

  ghost predicate Oldest(m: map<Key, Record>, k: Key) {
    k in m && forall other :: other in m ==> m[k].until <= m[other].until
  }

  /** Finding a key's record in a table of live records: a key without one gets a new record,
      which replaces an oldest one when the table is full. */
  ghost predicate TableAdmits(live: map<Key, Record>, key: Key, now: int, admitted: map<Key, Record>) {
    var initial := Record(key, 0, now + WINDOW);
    if key in live then admitted == live
    else if |live| < CLIENTS then admitted == live[key := initial]
    else exists k :: Oldest(live, k) && admitted == (live - {k})[key := initial]
  }

  /** Spending an attempt from it, which is refused exactly when the record is used up. */
  ghost predicate TableCharges(m: map<Key, Record>, key: Key, after: map<Key, Record>, ok: bool) {
    && key in m
    && ok == (m[key].count < ATTEMPTS)
    && after == if ok then m[key := m[key].(count := m[key].count + 1)] else m
  }

  lemma {:induction false} TableSize(s: seq<Record>)
    requires DistinctKeys(s)
    ensures |Keys(s)| == |s| == |Table(s)|
  {
    assert Table(s).Keys == Keys(s);
    if s != [] {
      TableSize(s[1..]);
      KeysSplit(s);
    }
  }

  lemma KeysSplit(s: seq<Record>)
    requires DistinctKeys(s) && s != []
    ensures s[0].key !in Keys(s[1..]) && Keys(s) == Keys(s[1..]) + {s[0].key}
  {
    assert s == [s[0]] + s[1..];
  }

  lemma TableIs(s: seq<Record>, m: map<Key, Record>)
    requires DistinctKeys(s) && m.Keys == Keys(s)
    requires forall i :: 0 <= i < |s| ==> s[i].key in m && m[s[i].key] == s[i]
    ensures Table(s) == m
  {
    forall k | k in m ensures Table(s)[k] == m[k] {
      var i := IndexOf(s, k);
    }
  }

  lemma KeysAt(s: seq<Record>, i: nat, r: Record)
    requires i < |s| && r.key == s[i].key
    ensures Keys(s[i := r]) == Keys(s)
  {
    var u := s[i := r];
    forall k | k in Keys(s) ensures k in Keys(u) {
      var j :| 0 <= j < |s| && s[j].key == k;
      assert u[j] in u && u[j].key == k;
    }
    forall k | k in Keys(u) ensures k in Keys(s) {
      var j :| 0 <= j < |u| && u[j].key == k;
      assert s[j] in s && s[j].key == k;
    }
  }

  lemma TableAt(s: seq<Record>, i: nat, r: Record)
    requires DistinctKeys(s) && i < |s| && r.key == s[i].key
    ensures Table(s[i := r]) == Table(s)[r.key := r]
  {
    var u, m := s[i := r], Table(s)[r.key := r];
    KeysAt(s, i, r);
    LookupAt(s, i);
    forall j | 0 <= j < |u| ensures u[j].key in m && m[u[j].key] == u[j] {
      LookupAt(s, j);
    }
    TableIs(u, m);
  }

  lemma TableDrop(s: seq<Record>, n: nat)
    requires DistinctKeys(s) && n <= |s|
    ensures Table(s[n..]) == Table(s) - Keys(s[..n])
  {
    var p := s[n..];
    forall k | k in Keys(p) ensures k in Keys(s) && k !in Keys(s[..n]) && Table(p)[k] == Table(s)[k] {
      var j := IndexOf(p, k);
      LookupAt(s, j + n);
    }
    forall k | k in Keys(s) && k !in Keys(s[..n]) ensures k in Keys(p) {
      var j := IndexOf(s, k);
      assert s[j] !in s[..n];
      LookupAt(p, j - n);
    }
  }

  lemma KeyInPrefix(s: seq<Record>, n: nat, i: nat)
    requires DistinctKeys(s) && n <= |s| && i < |s|
    ensures s[i].key in Keys(s[..n]) <==> i < n
  {
    if i < n {
      assert s[..n][i] == s[i];
    } else {
      assert forall j :: 0 <= j < n ==> s[..n][j].key != s[i].key;
    }
  }

  lemma DroppedAreExpired(s: seq<Record>, n: nat, now: int)
    requires DistinctKeys(s) && n <= |s|
    requires forall i :: 0 <= i < |s| ==> (i < n <==> s[i].until <= now)
    ensures Table(s) - Keys(s[..n]) == Live(Table(s), now)
  {
    var m := Table(s);
    forall k | k in m ensures (k in Keys(s[..n])) == (m[k].until <= now) {
      var i := IndexOf(s, k);
      KeyInPrefix(s, n, i);
    }
  }

  lemma {:induction false} TableDropsExpired(s: seq<Record>, now: int)
    requires DistinctKeys(s) && SortedByExpiry(s)
    ensures DistinctKeys(Prune(s, now)) && Table(Prune(s, now)) == Live(Table(s), now)
  {
    var n := PruneDropsExactlyExpired(s, now);
    TableDrop(s, n);
    DroppedAreExpired(s, n, now);
  }

  lemma TablePush(s: seq<Record>, r: Record)
    requires DistinctKeys(s) && !Has(s, r.key)
    ensures DistinctKeys(s + [r]) && Table(s + [r]) == Table(s)[r.key := r]
  {
    var u := s + [r];
    LookupAt(u, |s|);
    assert Keys(u) == Keys(s) + {r.key};
    forall k | k in Keys(s) && k != r.key ensures Table(u)[k] == Table(s)[k] {
      var j := IndexOf(s, k);
      LookupAt(u, j);
    }
  }

  /** Evicting from a full list drops one oldest record of the table. */
  lemma TableTail(s: seq<Record>)
    requires DistinctKeys(s) && SortedByExpiry(s) && s != []
    ensures Oldest(Table(s), s[0].key)
    ensures Table(s[1..]) == Table(s) - {s[0].key}
  {
    TableDrop(s, 1);
    assert Keys(s[..1]) == {s[0].key};
    LookupAt(s, 0);
    forall k | k in Table(s) ensures s[0].until <= Table(s)[k].until {
      var i := IndexOf(s, k);
    }
  }

  /** Charging an attempt touches one entry of the table. */
  lemma ChargeTable(a: seq<Record>, key: Key)
    requires DistinctKeys(a) && Has(a, key)
    ensures TableCharges(Table(a), key, Table(Charge(a, key).0), Charge(a, key).1)
  {
    var i := Find(a, key);
    LookupAt(a, i);
    TableAt(a, i, a[i].(count := a[i].count + 1));
  }

  lemma HasIsInTable(s: seq<Record>, key: Key)
    ensures Has(s, key) <==> key in Table(s)
  {
    if Has(s, key) {
      var i := Find(s, key);
      assert s[i] in s;
    }
  }

  /** The linked list refines the table of live records: for any sound records and any later
      clock, an attempt finds or makes the key's record as `TableAdmits` says and charges it as
      `TableCharges` says. */
  lemma AllowRefinesTable(s: seq<Record>, key: Key, before: int, now: int)
    requires Sound(s, before) && before <= now
    ensures var admitted := Table(Admit(s, key, now));
      && TableAdmits(Live(Table(s), now), key, now, admitted)
      && TableCharges(admitted, key, Table(Allow(s, key, now).0), Allow(s, key, now).1)
  {
    AdmitIsSound(s, key, before, now);
    TableDropsExpired(s, now);
    AdmitTable(Prune(s, now), key, now);
    AdmitHas(s, key, now);
    ChargeTable(Admit(s, key, now), key);
  }

  lemma AdmitTable(live: seq<Record>, key: Key, now: int)
    requires DistinctKeys(live) && SortedByExpiry(live) && |live| <= CLIENTS
    ensures var admitted := if Has(live, key) then live else Evict(live) + [Record(key, 0, now + WINDOW)];
      TableAdmits(Table(live), key, now, Table(admitted))
  {
    HasIsInTable(live, key);
    if !Has(live, key) {
      TableSize(live);
      EvictKeepsNewest(live);
      var initial := Record(key, 0, now + WINDOW);
      if |live| < CLIENTS {
        TablePush(live, initial);
      } else {
        SuffixLacks(live, 1, key);
        TablePush(live[1..], initial);
        TableTail(live);
      }
    }
  }

  /** A refund gives one attempt back to the key's record, if it has one with attempts spent. */
  lemma RefundRefinesTable(s: seq<Record>, key: Key)
    requires DistinctKeys(s)
    ensures var m := Table(s);
      Table(Refund(s, key)) ==
      if key in m && m[key].count > 0 then m[key := m[key].(count := m[key].count - 1)] else m
  {
    HasIsInTable(s, key);
    if Has(s, key) {
      var i := Find(s, key);
      LookupAt(s, i);
      if s[i].count > 0 {
        TableAt(s, i, s[i].(count := s[i].count - 1));
      }
    }
  }
}

/** The doubly linked list the limiter keeps its records in, each element carrying one record. */
module RecordList {
  import opened LimiterSpec

  class Element {
    const key: Key
    const until: int
    var count: nat
    var prev: Element?
    var next: Element?

    constructor (key: Key, until: int)
      ensures this.key == key && this.until == until
      ensures count == 0 && prev == null && next == null
    {
      this.key, this.until := key, until;
      count, prev, next := 0, null, null;
    }
  }

  ghost function Without<T>(items: seq<T>, k: nat): (left: seq<T>)
    requires k < |items|
    ensures |left| == |items| - 1
  {
    if k == 0 then items[1..] else [items[0]] + Without(items[1..], k - 1)
  }

  lemma {:induction false} WithoutIs<T>(items: seq<T>, k: nat)
    requires k < |items|
    ensures Without(items, k) == items[..k] + items[k + 1..]
    decreases k
  {
    if k > 0 {
      WithoutIs(items[1..], k - 1);
    }
  }

  class List {
    var front: Element?
    var back: Element?
    var len: nat
    ghost var elements: seq<Element>    // from front to back
    ghost var nodes: set<Element>       // the same, as a set

    ghost predicate Ends()
      reads this
    {
      && len == |elements|
      && nodes == (set e | e in elements)
      && (forall i, j :: 0 <= i < j < |elements| ==> elements[i] != elements[j])
      && (if len == 0 then front == null && back == null
          else front == elements[0] && back == elements[len - 1])
    }

    ghost predicate Forward()
      reads this, elements
    {
      elements != [] ==>
        && elements[|elements| - 1].next == null
        && forall i {:trigger elements[i].next} :: 0 <= i < |elements| - 1 ==> elements[i].next == elements[i + 1]
    }

    ghost predicate Backward()
      reads this, elements
    {
      elements != [] ==>
        && elements[0].prev == null
        && forall i {:trigger elements[i].prev} :: 1 <= i < |elements| ==> elements[i].prev == elements[i - 1]
    }

    ghost predicate Valid()
      reads this, elements
    {
      Ends() && Forward() && Backward()
    }

    constructor ()
      ensures Valid() && elements == [] && nodes == {}
    {
      front, back, len := null, null, 0;
      elements, nodes := [], {};
    }

    method PushBack(element: Element)
      requires Valid() && element !in nodes && element.next == null
      modifies this, nodes`next, element`prev
      ensures Valid()
      ensures elements == old(elements) + [element] && nodes == old(nodes) + {element}
    {
      element.prev := back;
      if back == null {
        front := element;
      } else {
        back.next := element;
      }
      back := element;
      len := len + 1;
      elements, nodes := elements + [element], nodes + {element};
    }

    method Remove(element: Element, ghost k: nat)
      requires Valid() && k < |elements| && elements[k] == element
      modifies this, nodes`prev, nodes`next
      ensures Valid()
      ensures elements == Without(old(elements), k) && nodes == old(nodes) - {element}
    {
      WithoutIs(elements, k);
      Unlink(element, k);
    }

    method Unlink(element: Element, ghost k: nat)
      requires Valid() && k < |elements| && elements[k] == element
      modifies this, nodes`prev, nodes`next
      ensures Valid()
      ensures elements == old(elements[..k] + elements[k + 1..]) && nodes == old(nodes) - {element}
    {
      assert k == 0 <==> element.prev == null;
      assert k + 1 == len <==> element.next == null;
      if element.prev == null {
        front := element.next;
      } else {
        element.prev.next := element.next;
      }
      if element.next == null {
        back := element.prev;
      } else {
        element.next.prev := element.prev;
      }
      len := len - 1;
      elements, nodes := elements[..k] + elements[k + 1..], nodes - {element};
    }
  }
}

/** The limiter itself: index, list and counts updated in place. `now` stands for `time.Now()`. */
module Limiter {
  import opened LimiterSpec
  import opened RecordList

  ghost predicate Indexes(entries: map<Key, Element>, nodes: set<Element>) {
    && (forall e :: e in nodes ==> e.key in entries && entries[e.key] == e)
    && (forall k :: k in entries ==> entries[k] in nodes && entries[k].key == k)
  }

  lemma RemoveIndexed(entries: map<Key, Element>, nodes: set<Element>, element: Element)
    requires Indexes(entries, nodes) && element in nodes
    ensures Indexes(entries - {element.key}, nodes - {element})
  {
  }

  lemma PushIndexed(entries: map<Key, Element>, nodes: set<Element>, element: Element)
    requires Indexes(entries, nodes) && element.key !in entries
    ensures element !in nodes && Indexes(entries[element.key := element], nodes + {element})
  {
  }

  class Limiter {
    var entries: map<Key, Element>
    const order: List
    ghost var records: seq<Record>   // what the list holds, front to back

    /** Index and list are in bijection. */
    ghost predicate Indexed()
      reads this, order
    {
      Indexes(entries, order.nodes)
    }

    ghost predicate Holds()
      reads this, order, order.elements
    {
      && |records| == |order.elements|
      && forall i :: 0 <= i < |records| ==>
           var e := order.elements[i]; records[i] == Record(e.key, e.count, e.until)
    }

    ghost predicate Valid()
      reads this, order, order.elements
    {
      order.Valid() && Indexed() && Holds()
    }

    constructor ()
      ensures Valid() && records == [] && fresh(order) && fresh(order.nodes)
    {
      entries := map[];
      order := new List();
      records := [];
    }

    /** Valid structures hold one record per key, and the index answers for the list. */
    lemma IndexAgrees(key: Key)
      requires Valid()
      ensures DistinctKeys(records)
      ensures key in entries <==> Has(records, key)
      ensures key in entries ==> order.elements[Find(records, key)] == entries[key]
    {
      forall i, j | 0 <= i < j < |records| ensures records[i].key != records[j].key {
        assert order.elements[i] != order.elements[j];
      }
      if key in entries {
        var i :| 0 <= i < |order.elements| && order.elements[i] == entries[key];
        assert records[i].key == key;
        FindUnique(records, key, i);
      }
    }

    method Remove(element: Element)
      requires Valid() && order.front == element
      modifies this, order, order.nodes
      ensures Valid() && order.nodes <= old(order.nodes)
      ensures old(records) != [] && records == old(records)[1..] && order.len < old(order.len)
    {
      assert element == order.elements[0];
      RemoveIndexed(entries, order.nodes, element);
      order.Remove(element, 0);
      entries := entries - {element.key};
      records := records[1..];
    }

    method Prune(now: int)
      requires Valid()
      modifies this, order, order.nodes
      ensures Valid() && order.nodes <= old(order.nodes)
      ensures records == LimiterSpec.Prune(old(records), now)
    {
      while order.front != null && order.front.until <= now
        invariant Valid() && order.nodes <= old(order.nodes)
        invariant LimiterSpec.Prune(records, now) == LimiterSpec.Prune(old(records), now)
        decreases order.len
      {
        Remove(order.front);
      }
    }

    method Evict()
      requires Valid()
      modifies this, order, order.nodes
      ensures Valid() && order.nodes <= old(order.nodes)
      ensures records == LimiterSpec.Evict(old(records))
    {
      while order.len >= CLIENTS
        invariant Valid() && order.nodes <= old(order.nodes)
        invariant LimiterSpec.Evict(records) == LimiterSpec.Evict(old(records))
        decreases order.len
      {
        Remove(order.front);
      }
    }

    method PushBack(key: Key, until: int) returns (element: Element)
      requires Valid() && key !in entries
      modifies this, order, order.nodes
      ensures Valid() && order.nodes == old(order.nodes) + {element} && fresh(element)
      ensures records == old(records) + [Record(key, 0, until)]
      ensures key in entries && entries[key] == element
    {
      element := new Element(key, until);
      Append(element);
    }

    method Append(element: Element)
      requires Valid() && element.key !in entries && element.next == null
      modifies this, order, order.nodes`next, element`prev
      ensures Valid() && order.nodes == old(order.nodes) + {element}
      ensures records == old(records) + [Record(element.key, element.count, element.until)]
      ensures entries == old(entries)[element.key := element]
    {
      PushIndexed(entries, order.nodes, element);
      order.PushBack(element);
      entries := entries[element.key := element];
      records := records + [Record(element.key, element.count, element.until)];
      assert Indexed();
    }

    /** The record an attempt by `key` is charged to, made if need be. */
    method Admit(key: Key, now: int) returns (element: Element)
      requires Valid()
      modifies this, order, order.nodes
      ensures Valid() && fresh(order.nodes - old(order.nodes))
      ensures records == LimiterSpec.Admit(old(records), key, now)
      ensures key in entries && entries[key] == element
    {
      Prune(now);
      IndexAgrees(key);
      if key in entries {
        element := entries[key];
      } else {
        EvictKeepsNewest(records);
        SuffixLacks(records, |records| - |LimiterSpec.Evict(records)|, key);
        Evict();
        IndexAgrees(key);
        element := PushBack(key, now + WINDOW);
      }
    }

    method SetCount(entry: Element, ghost i: nat, count: nat)
      requires Valid() && i < |records| && order.elements[i] == entry
      modifies `records, entry`count
      ensures Valid()
      ensures records == old(records)[i := old(records)[i].(count := count)]
    {
      entry.count := count;
      records := records[i := records[i].(count := count)];
    }

    /** Charges an attempt to the record of `key`, unless that is used up. */
    method Allow(key: Key, now: int) returns (ok: bool)
      requires Valid()
      modifies this, order, order.nodes
      ensures Valid() && fresh(order.nodes - old(order.nodes))
      ensures (records, ok) == LimiterSpec.Allow(old(records), key, now)
    {
      var entry := Admit(key, now);
      IndexAgrees(key);
      ghost var i := Find(records, key);
      if entry.count >= ATTEMPTS {
        return false;
      }
      SetCount(entry, i, entry.count + 1);
      return true;
    }

    /** Takes one attempt off the record of `key`, if it has one. */
    method Refund(key: Key)
      requires Valid()
      modifies this, order.nodes
      ensures Valid() && unchanged(order)
      ensures records == LimiterSpec.Refund(old(records), key)
    {
      IndexAgrees(key);
      if key in entries {
        var entry := entries[key];
        ghost var i := Find(records, key);
        if entry.count > 0 {
          SetCount(entry, i, entry.count - 1);
        }
      }
    }
  }
}
