/** The session resource cache: SessionResourceRepository in
    src/zglab_rag/conversation/repositories.py.  `owners` gives each conversation's owner;
    a time is a number of microseconds, ordered as its UTC ISO text. */
module ResourceCache {
  import opened Filtering
  import opened Options
  import opened Sorting
  import opened Text
  import Seqs

  datatype Kind = PERSONAL_RETRIEVAL | WEB_EVIDENCE | TOOL_RESULT

  /** The unique key of the table. */
  datatype Slot = Slot(conversation: int, kind: Kind, key: string)

  datatype Body = Body(payload: string, provenance: string, fingerprint: string, request: string)

  datatype Row = Row(id: int, slot: Slot, body: Body, size: int, created: int, expires: int, used: int)

  datatype Put = Put(owner: int, slot: Slot, body: Body, ttl: int, maxItems: int, maxBytes: int, maxItemBytes: int,
                     now: int)

  datatype Get = Get(owner: int, slot: Slot, fingerprint: string, now: int)

  /** Primary key and unique slot. */
  ghost predicate Table(rows: seq<Row>) {
    Distinct(rows) && forall a, b :: a in rows && b in rows && (a.id == b.id || a.slot == b.slot) ==> a == b
  }

  /** ORDER BY last_used_at, created_at, id */
  predicate OlderFirst(a: Row, b: Row) {
    a.used < b.used || (a.used == b.used && (a.created < b.created || (a.created == b.created && a.id <= b.id)))
  }

  lemma AgeIsAnOrder()
    ensures TotalPreorder(OlderFirst)
  {
  }

  function Owned(owners: map<int, int>, conversation: int, owner: int): bool {
    conversation in owners && owners[conversation] == owner
  }

  function SizeOf(body: Body): nat {
    Bytes(body.payload) + Bytes(body.provenance)
  }

  function Of(conversation: int): Row -> bool {
    (r: Row) => r.slot.conversation == conversation
  }

  /** The rows of one conversation. */
  function Mine(rows: seq<Row>, conversation: int): seq<Row> {
    Filter(rows, Of(conversation))
  }

  function Total(rows: seq<Row>): int {
    if rows == [] then 0 else Total(rows[..|rows| - 1]) + rows[|rows| - 1].size
  }

  /** The index of the row in `slot`, or -1. */
  function Position(rows: seq<Row>, slot: Slot): (i: int)
    ensures -1 <= i < |rows| && (i >= 0 ==> rows[i].slot == slot)
    ensures i < 0 ==> forall r :: r in rows ==> r.slot != slot
  {
    if rows == [] then -1
    else if rows[|rows| - 1].slot == slot then |rows| - 1
    else
      SplitLast(rows);
      Position(rows[..|rows| - 1], slot)
  }

  /** One more than the greatest id in the table. */
  function NextId(rows: seq<Row>): (id: int)
    ensures forall r :: r in rows ==> r.id < id
  {
    if rows == [] then 1
    else
      SplitLast(rows);
      var before, last := NextId(rows[..|rows| - 1]), rows[|rows| - 1].id + 1;
      if before > last then before else last
  }

  // ----- put_bounded -----

  /** The checks that do not depend on the table's rows. */
  predicate Accepted(put: Put, owners: map<int, int>) {
    && put.ttl > 0
    && 0 < SizeOf(put.body) <= put.maxItemBytes && SizeOf(put.body) <= put.maxBytes
    && Owned(owners, put.slot.conversation, put.owner)
  }

  function NotExpired(conversation: int, now: int): Row -> bool {
    (r: Row) => !(r.slot.conversation == conversation && r.expires <= now)
  }

  /** INSERT … ON CONFLICT DO UPDATE: an existing row keeps its id and creation time. */
  function Upserted(rows: seq<Row>, put: Put): seq<Row> {
    var i := Position(rows, put.slot);
    if i >= 0 then rows[i := Written(put, rows[i].id, rows[i].created)]
    else rows + [Written(put, NextId(rows), put.now)]
  }

  function Written(put: Put, id: int, created: int): Row {
    Row(id, put.slot, put.body, SizeOf(put.body), created, put.now + put.ttl, put.now)
  }

  predicate Fitting(rows: seq<Row>, items: int, bytes: int) {
    |rows| <= items && Total(rows) <= bytes
  }

  /** The length of the shortest prefix without which the rest fits. */
  function EvictCount(byAge: seq<Row>, items: int, bytes: int): (n: nat)
    ensures n <= |byAge|
  {
    if byAge == [] || Fitting(byAge, items, bytes) then 0 else 1 + EvictCount(byAge[1..], items, bytes)
  }

  function Except(gone: seq<Row>): Row -> bool {
    (r: Row) => r !in gone
  }

  function ByAge(rows: seq<Row>, conversation: int): seq<Row> {
    Sort(Mine(rows, conversation), OlderFirst)
  }

  /** The table without the least recently used rows that do not fit. */
  function Evicted(rows: seq<Row>, conversation: int, items: int, bytes: int): seq<Row> {
    var byAge := ByAge(rows, conversation);
    Filter(rows, Except(byAge[..EvictCount(byAge, items, bytes)]))
  }

  /** The rows that a put evicts. */
  function Oldest(rows: seq<Row>, put: Put): seq<Row> {
    var byAge := ByAge(rows, put.slot.conversation);
    byAge[..EvictCount(byAge, put.maxItems, put.maxBytes)]
  }

  /** The table before eviction. */
  function Filled(rows: seq<Row>, put: Put): seq<Row> {
    Upserted(Filter(rows, NotExpired(put.slot.conversation, put.now)), put)
  }

  function AfterPut(rows: seq<Row>, put: Put, owners: map<int, int>): seq<Row> {
    if Accepted(put, owners) then Evicted(Filled(rows, put), put.slot.conversation, put.maxItems, put.maxBytes)
    else rows
  }

  // ----- get_valid -----

  function NotId(id: int): Row -> bool {
    (r: Row) => r.id != id
  }

  function Found(rows: seq<Row>, get: Get, owners: map<int, int>): Option<Row> {
    var i := Position(rows, get.slot);
    if i >= 0 && Owned(owners, get.slot.conversation, get.owner) then Some(rows[i]) else None
  }

  function Hit(rows: seq<Row>, get: Get, owners: map<int, int>): Option<Row> {
    var found := Found(rows, get, owners);
    if found.Some? && get.now < found.value.expires && found.value.body.fingerprint == get.fingerprint then found
    else None
  }

  function AfterGet(rows: seq<Row>, get: Get, owners: map<int, int>): seq<Row> {
    var found := Found(rows, get, owners);
    if found.None? then rows
    else if found.value.expires <= get.now then Filter(rows, NotId(found.value.id))
    else if found.value.body.fingerprint != get.fingerprint then rows
    else rows[Position(rows, get.slot) := found.value.(used := get.now)]
  }

  // ----- the eviction loop -----

  lemma {:induction false} TotalOfPermutation(a: seq<Row>, b: seq<Row>)
    requires multiset(a) == multiset(b)
    ensures Total(a) == Total(b)
  {
    SameElements(a, b);
    if a != [] {
      var n := |a| - 1;
      assert a[n] in b;
      var i :| 0 <= i < |b| && b[i] == a[n];
      SplitLast(a);
      Seqs.RemoveAt(b, i);
      TotalOfPermutation(a[..n], b[..i] + b[i + 1..]);
      TotalWithout(b, i);
    }
  }

  lemma {:induction false} TotalWithout(rows: seq<Row>, i: nat)
    requires i < |rows|
    ensures Total(rows) == Total(rows[..i] + rows[i + 1..]) + rows[i].size
  {
    var n := |rows| - 1;
    if i == n {
      assert rows[..i] + rows[i + 1..] == rows[..n];
    } else {
      TotalWithout(rows[..n], i);
      var rest := rows[..i] + rows[i + 1..];
      assert rest[..|rest| - 1] == rows[..n][..i] + rows[..n][i + 1..];
      assert rest[|rest| - 1] == rows[n];
    }
  }

  lemma FilterKeepsTable(rows: seq<Row>, p: Row -> bool)
    requires Table(rows)
    ensures Table(Filter(rows, p))
  {
    FilterElements(rows, p);
    FilterStaysDistinct(rows, p);
  }

  lemma ByAgeOfTable(rows: seq<Row>, conversation: int)
    requires Table(rows)
    ensures SortedBy(ByAge(rows, conversation), OlderFirst) && Distinct(ByAge(rows, conversation))
    ensures multiset(ByAge(rows, conversation)) == multiset(Mine(rows, conversation))
    ensures forall r :: r in ByAge(rows, conversation) <==> r in rows && r.slot.conversation == conversation
  {
    var mine := Mine(rows, conversation);
    AgeIsAnOrder();
    SortIsSorted(mine, OlderFirst);
    SameElements(ByAge(rows, conversation), mine);
    FilterElements(rows, Of(conversation));
    FilterStaysDistinct(rows, Of(conversation));
    DistinctOfPermutation(mine, ByAge(rows, conversation));
  }

  lemma SplitMembers<T>(s: seq<T>, n: nat)
    requires Distinct(s) && n <= |s|
    ensures Distinct(s[n..]) && forall x :: x in s[n..] <==> x in s && x !in s[..n]
  {
    assert s == s[..n] + s[n..];
    forall i, j | 0 <= i < n && 0 <= j < |s| - n ensures s[..n][i] != s[n..][j] {
      assert s[i] != s[n + j];
    }
  }

  /** After `n` evictions the conversation holds the rest of its rows by age. */
  lemma RestByAge(rows: seq<Row>, conversation: int, n: nat)
    requires Table(rows) && n <= |ByAge(rows, conversation)|
    ensures var byAge := ByAge(rows, conversation);
            ByAge(Filter(rows, Except(byAge[..n])), conversation) == byAge[n..]
            && multiset(Mine(Filter(rows, Except(byAge[..n])), conversation)) == multiset(byAge[n..])
  {
    var byAge := ByAge(rows, conversation);
    var rest := Filter(rows, Except(byAge[..n]));
    var mine := Mine(rest, conversation);
    ByAgeOfTable(rows, conversation);
    FilterElements(rows, Except(byAge[..n]));
    FilterElements(rest, Of(conversation));
    FilterStaysDistinct(rows, Except(byAge[..n]));
    FilterStaysDistinct(rest, Of(conversation));
    SplitMembers(byAge, n);
    SameMembers(mine, byAge[n..]);
    AgeIsAnOrder();
    SortIsUnique(mine, byAge[n..], OlderFirst);
  }

  /** Deleting the oldest remaining row is one eviction more. */
  lemma OneMoreEviction(rows: seq<Row>, byAge: seq<Row>, n: nat, m: nat)
    requires Table(rows) && n < |byAge| && m == n + 1 && forall r :: r in byAge ==> r in rows
    ensures Filter(Filter(rows, Except(byAge[..n])), NotId(byAge[n].id)) == Filter(rows, Except(byAge[..m]))
  {
    Seqs.TakeNext(byAge, n);
    assert byAge[n] in rows;
    FilterTwice(rows, Except(byAge[..n]), NotId(byAge[n].id), Except(byAge[..m]));
  }

  lemma OneMoreCounted(byAge: seq<Row>, n: nat, m: nat, items: int, bytes: int)
    requires n < |byAge| && m == n + 1 && !Fitting(byAge[n..], items, bytes)
    ensures EvictCount(byAge[n..], items, bytes) == 1 + EvictCount(byAge[m..], items, bytes)
  {
    assert byAge[n..][1..] == byAge[m..];
  }

  lemma RestFits(rows: seq<Row>, conversation: int, byAge: seq<Row>, n: nat, mine: seq<Row>, items: int, bytes: int)
    requires Table(rows) && byAge == ByAge(rows, conversation) && n <= |byAge|
    requires mine == Mine(Filter(rows, Except(byAge[..n])), conversation)
    ensures Fitting(mine, items, bytes) <==> Fitting(byAge[n..], items, bytes)
    ensures Sort(mine, OlderFirst) == byAge[n..]
  {
    RestByAge(rows, conversation, n);
    SameElements(mine, byAge[n..]);
    TotalOfPermutation(mine, byAge[n..]);
  }

  /** The table after `n` turns of the eviction loop. */
  ghost predicate EvictedTo(rows: seq<Row>, conversation: int, items: int, bytes: int, byAge: seq<Row>, n: nat,
                            kept: seq<Row>) {
    && n <= |byAge| && kept == Filter(rows, Except(byAge[..n]))
    && EvictCount(byAge, items, bytes) == n + EvictCount(byAge[n..], items, bytes)
  }

  lemma NoneEvicted(rows: seq<Row>, conversation: int, items: int, bytes: int, byAge: seq<Row>)
    ensures EvictedTo(rows, conversation, items, bytes, byAge, 0, rows)
  {
    FilterAll(rows, Except(byAge[..0]));
    assert byAge[0..] == byAge;
  }

  lemma EvictsOneMore(rows: seq<Row>, conversation: int, items: int, bytes: int, byAge: seq<Row>, n: nat, m: nat,
                      kept: seq<Row>)
    requires Table(rows) && byAge == ByAge(rows, conversation) && n < |byAge| && m == n + 1
    requires EvictedTo(rows, conversation, items, bytes, byAge, n, kept) && !Fitting(byAge[n..], items, bytes)
    ensures EvictedTo(rows, conversation, items, bytes, byAge, m, Filter(kept, NotId(byAge[n].id)))
  {
    ByAgeOfTable(rows, conversation);
    OneMoreEviction(rows, byAge, n, m);
    OneMoreCounted(byAge, n, m, items, bytes);
  }

  lemma EvictedAll(rows: seq<Row>, conversation: int, items: int, bytes: int, byAge: seq<Row>, n: nat, kept: seq<Row>)
    requires byAge == ByAge(rows, conversation) && EvictedTo(rows, conversation, items, bytes, byAge, n, kept)
    requires n == |byAge| || Fitting(byAge[n..], items, bytes)
    ensures kept == Evicted(rows, conversation, items, bytes)
  {
  }

  /** Deletes the least recently used row until the rest fits. */
  method Evict(rows: seq<Row>, conversation: int, items: int, bytes: int) returns (kept: seq<Row>)
    requires Table(rows)
    ensures kept == Evicted(rows, conversation, items, bytes)
  {
    ghost var byAge, n := ByAge(rows, conversation), 0;
    NoneEvicted(rows, conversation, items, bytes, byAge);
    kept := rows;
    while true
      invariant EvictedTo(rows, conversation, items, bytes, byAge, n, kept)
      decreases |byAge| - n
    {
      var mine := Mine(kept, conversation);
      RestFits(rows, conversation, byAge, n, mine, items, bytes);
      if |mine| <= items && Total(mine) <= bytes {
        break;
      }
      var order := Sort(mine, OlderFirst);
      if order == [] {
        break;
      }
      EvictsOneMore(rows, conversation, items, bytes, byAge, n, n + 1, kept);
      kept := Filter(kept, NotId(order[0].id));
      n := n + 1;
    }
    EvictedAll(rows, conversation, items, bytes, byAge, n, kept);
  }

  lemma LookupsAgree(rows: seq<Row>, slot: Slot, i: nat)
    requires Table(rows) && i < |rows| && rows[i].slot == slot
    ensures Position(rows, slot) == i
  {
    var p := Position(rows, slot);
    assert rows[i] in rows;
    if p >= 0 {
      assert rows[p] in rows;
    }
  }

  lemma UpsertKeepsTable(rows: seq<Row>, put: Put)
    requires Table(rows)
    ensures Table(Upserted(rows, put))
  {
    var i := Position(rows, put.slot);
    if i >= 0 {
      ReplaceKeepsTable(rows, i, Written(put, rows[i].id, rows[i].created));
    }
  }

  lemma ReplaceKeepsTable(rows: seq<Row>, i: nat, r: Row)
    requires Table(rows) && i < |rows| && r.id == rows[i].id && r.slot == rows[i].slot
    ensures Table(rows[i := r])
  {
    var after := rows[i := r];
    forall j, k | 0 <= j < |rows| && 0 <= k < |rows| && (after[j].id == after[k].id || after[j].slot == after[k].slot)
      ensures j == k
    {
      assert rows[j] in rows && rows[k] in rows;
    }
  }

  class SessionResources {
    const owners: map<int, int>
    var rows: seq<Row>

    constructor (owners: map<int, int>)
      ensures this.owners == owners && rows == []
    {
      this.owners, rows := owners, [];
    }

    method Lookup(slot: Slot) returns (i: int)
      requires Table(rows)
      ensures i == Position(rows, slot)
    {
      i := 0;
      while i < |rows|
        invariant 0 <= i <= |rows|
        invariant forall j :: 0 <= j < i ==> rows[j].slot != slot
      {
        if rows[i].slot == slot {
          LookupsAgree(rows, slot, i);
          return;
        }
        i := i + 1;
      }
      i := -1;
    }

    /** SessionResourceRepository.get_valid */
    method GetValid(get: Get) returns (hit: Option<Row>)
      requires Table(rows)
      modifies `rows
      ensures hit == Hit(old(rows), get, owners) && rows == AfterGet(old(rows), get, owners)
      ensures Table(rows)
    {
      var i := Lookup(get.slot);
      if i < 0 || get.slot.conversation !in owners || owners[get.slot.conversation] != get.owner {
        return None;
      }
      var row := rows[i];
      if row.expires <= get.now {
        FilterKeepsTable(rows, NotId(row.id));
        rows := Filter(rows, NotId(row.id));
        return None;
      }
      if row.body.fingerprint != get.fingerprint {
        return None;
      }
      ReplaceKeepsTable(rows, i, row.(used := get.now));
      rows := rows[i := row.(used := get.now)];
      return Some(row);
    }

    /** SessionResourceRepository.put_bounded; false stands for the ValueError it raises. */
    method PutBounded(put: Put) returns (ok: bool)
      requires Table(rows)
      modifies `rows
      ensures ok <==> Accepted(put, owners)
      ensures rows == AfterPut(old(rows), put, owners) && Table(rows)
    {
      if put.ttl <= 0 {
        return false;
      }
      var size := SizeOf(put.body);
      if !(0 < size <= put.maxItemBytes) || size > put.maxBytes {
        return false;
      }
      if put.slot.conversation !in owners || owners[put.slot.conversation] != put.owner {
        return false;
      }
      FilterKeepsTable(rows, NotExpired(put.slot.conversation, put.now));
      rows := Filter(rows, NotExpired(put.slot.conversation, put.now));
      UpsertKeepsTable(rows, put);
      rows := Upserted(rows, put);
      FilterKeepsTable(rows, Except(Oldest(rows, put)));
      var kept := Evict(rows, put.slot.conversation, put.maxItems, put.maxBytes);
      rows := kept;
      return true;
    }
  }
}
