/** What every put and every run of the session resource cache satisfies. */
module CacheLaws {
  import opened Filtering
  import opened Options
  import opened Sorting
  import opened ResourceCache
  import Seqs

  // ----- one put -----

  /** Sizes in the table are positive (a CHECK of the schema). */
  ghost predicate Sized(rows: seq<Row>) {
    forall r :: r in rows ==> r.size > 0
  }

  lemma {:induction false} FewerStillFit(byAge: seq<Row>, m: nat, n: nat, items: int, bytes: int)
    requires m <= n <= |byAge| && Sized(byAge) && Fitting(byAge[m..], items, bytes)
    ensures Fitting(byAge[n..], items, bytes)
    decreases n
  {
    if m < n {
      var k := n - 1;
      FewerStillFit(byAge, m, k, items, bytes);
      TotalWithout(byAge[k..], 0);
      assert byAge[k..][0] == byAge[k] && byAge[k] in byAge;
      assert byAge[k..][..0] + byAge[k..][1..] == byAge[n..];
    }
  }

  /** What is evicted is the shortest prefix by age whose removal makes the rest fit. */
  lemma {:induction false} EvictCountIsLeast(byAge: seq<Row>, items: int, bytes: int, m: nat)
    requires m <= |byAge| && Sized(byAge)
    ensures EvictCount(byAge, items, bytes) <= m <==> Fitting(byAge[m..], items, bytes) || m == |byAge|
  {
    var n := EvictCount(byAge, items, bytes);
    assert byAge[0..] == byAge;
    if n == 0 {
      if byAge != [] {
        FewerStillFit(byAge, 0, m, items, bytes);
      }
    } else if m > 0 {
      var rest := byAge[1..];
      assert forall r :: r in rest ==> r in byAge;
      EvictCountIsLeast(rest, items, bytes, m - 1);
      assert rest[m - 1..] == byAge[m..];
    }
  }

  lemma FilledRows(rows: seq<Row>, put: Put)
    requires Table(rows) && Sized(rows) && 0 < SizeOf(put.body) && put.ttl > 0
    ensures Table(Filled(rows, put)) && Sized(Filled(rows, put))
    ensures forall r :: r in Filled(rows, put) ==> r.slot.conversation != put.slot.conversation || put.now < r.expires
    ensures forall r :: r in Filled(rows, put) && r.slot != put.slot ==> r in rows
    ensures Position(Filled(rows, put), put.slot) >= 0
  {
    var live := Filter(rows, NotExpired(put.slot.conversation, put.now));
    FilterElements(rows, NotExpired(put.slot.conversation, put.now));
    FilterKeepsTable(rows, NotExpired(put.slot.conversation, put.now));
    UpsertKeepsTable(live, put);
    var filled, i := Filled(rows, put), Position(live, put.slot);
    var k := if i >= 0 then i else |live|;
    assert filled[k].slot == put.slot && filled[k] in filled;
    forall r | r in filled
      ensures r == filled[k] || r in live
    {
      var j :| 0 <= j < |filled| && filled[j] == r;
      assert j != k ==> filled[j] == live[j];
    }
  }

  /** The row a put writes, as it stands before eviction. */
  function NewRow(rows: seq<Row>, put: Put): Row
    requires Position(Filled(rows, put), put.slot) >= 0
  {
    Filled(rows, put)[Position(Filled(rows, put), put.slot)]
  }

  lemma EvictedRows(rows: seq<Row>, conversation: int, items: int, bytes: int)
    requires Table(rows) && Sized(rows)
    ensures var byAge := ByAge(rows, conversation);
            var rest := byAge[EvictCount(byAge, items, bytes)..];
            && ByAge(Evicted(rows, conversation, items, bytes), conversation) == rest
            && multiset(Mine(Evicted(rows, conversation, items, bytes), conversation)) == multiset(rest)
    ensures Sized(ByAge(rows, conversation)) && Table(Evicted(rows, conversation, items, bytes))
  {
    var byAge := ByAge(rows, conversation);
    ByAgeOfTable(rows, conversation);
    RestByAge(rows, conversation, EvictCount(byAge, items, bytes));
    FilterKeepsTable(rows, Except(byAge[..EvictCount(byAge, items, bytes)]));
  }

  /** After an accepted put the conversation keeps both bounds. */
  lemma PutBoundsTheConversation(rows: seq<Row>, put: Put, owners: map<int, int>)
    requires Table(rows) && Sized(rows) && Accepted(put, owners) && put.maxItems >= 0
    ensures Fitting(Mine(AfterPut(rows, put, owners), put.slot.conversation), put.maxItems, put.maxBytes)
  {
    var filled, conversation := Filled(rows, put), put.slot.conversation;
    FilledRows(rows, put);
    EvictedRows(filled, conversation, put.maxItems, put.maxBytes);
    var byAge := ByAge(filled, conversation);
    var n := EvictCount(byAge, put.maxItems, put.maxBytes);
    EvictCountIsLeast(byAge, put.maxItems, put.maxBytes, n);
    var mine := Mine(AfterPut(rows, put, owners), conversation);
    SameElements(mine, byAge[n..]);
    TotalOfPermutation(mine, byAge[n..]);
  }

  /** No row of the conversation is expired at the time of an accepted put. */
  lemma PutLeavesNothingExpired(rows: seq<Row>, put: Put, owners: map<int, int>)
    requires Table(rows) && Sized(rows) && Accepted(put, owners)
    ensures forall r :: r in Mine(AfterPut(rows, put, owners), put.slot.conversation) ==> put.now < r.expires
  {
    var filled, conversation := Filled(rows, put), put.slot.conversation;
    FilledRows(rows, put);
    EvictedRows(filled, conversation, put.maxItems, put.maxBytes);
    ByAgeOfTable(filled, conversation);
    var byAge := ByAge(filled, conversation);
    SameElements(Mine(AfterPut(rows, put, owners), conversation),
                 byAge[EvictCount(byAge, put.maxItems, put.maxBytes)..]);
  }

  lemma FilterOutside(rows: seq<Row>, p: Row -> bool, other: int)
    requires forall r :: r in rows && r.slot.conversation == other ==> p(r)
    ensures Mine(Filter(rows, p), other) == Mine(rows, other)
  {
    FilterTwice(rows, p, Of(other), Of(other));
  }

  /** A put alters nothing in any other conversation. */
  lemma PutLeavesOthersAlone(rows: seq<Row>, put: Put, owners: map<int, int>, other: int)
    requires Table(rows) && Sized(rows) && other != put.slot.conversation
    ensures Mine(AfterPut(rows, put, owners), other) == Mine(rows, other)
  {
    if Accepted(put, owners) {
      var filled, conversation := Filled(rows, put), put.slot.conversation;
      var byAge := ByAge(filled, conversation);
      FilledRows(rows, put);
      ByAgeOfTable(filled, conversation);
      var gone := byAge[..EvictCount(byAge, put.maxItems, put.maxBytes)];
      FilterOutside(filled, Except(gone), other);
      UpsertOutside(Filter(rows, NotExpired(conversation, put.now)), put, other);
      FilterOutside(rows, NotExpired(conversation, put.now), other);
    }
  }

  lemma UpsertOutside(rows: seq<Row>, put: Put, other: int)
    requires other != put.slot.conversation
    ensures Mine(Upserted(rows, put), other) == Mine(rows, other)
  {
    var i := Position(rows, put.slot);
    if i >= 0 {
      ReplaceOutside(rows, i, Written(put, rows[i].id, rows[i].created), other);
    } else {
      Seqs.DropLast(rows, Written(put, NextId(rows), put.now));
    }
  }

  lemma {:induction false} ReplaceOutside(rows: seq<Row>, i: nat, r: Row, other: int)
    requires i < |rows| && rows[i].slot.conversation != other && r.slot.conversation != other
    ensures Mine(rows[i := r], other) == Mine(rows, other)
  {
    var n := |rows| - 1;
    if i == n {
      assert rows[i := r][..n] == rows[..n];
    } else {
      assert rows[i := r][..n] == rows[..n][i := r];
      ReplaceOutside(rows[..n], i, r, other);
    }
  }

  // ----- does the row just put survive? -----

  lemma SurvivesIff(rows: seq<Row>, byAge: seq<Row>, k: nat, items: int, bytes: int)
    requires Distinct(byAge) && Sized(byAge) && k < |byAge| && byAge[k] in rows
    ensures byAge[k] in Filter(rows, Except(byAge[..EvictCount(byAge, items, bytes)]))
        <==> Fitting(byAge[k..], items, bytes)
  {
    var n := EvictCount(byAge, items, bytes);
    EvictCountIsLeast(byAge, items, bytes, k);
    FilterElements(rows, Except(byAge[..n]));
    if k < n {
      assert byAge[..n][k] == byAge[k];
    } else {
      assert forall j :: 0 <= j < n ==> byAge[j] != byAge[k];
    }
  }

  /** The row just put survives exactly when the rows that are not older fit together with it. */
  lemma NewRowSurvivesIff(rows: seq<Row>, put: Put, owners: map<int, int>, filled: seq<Row>, byAge: seq<Row>, k: nat)
    requires Table(rows) && Sized(rows) && Accepted(put, owners)
    requires filled == Filled(rows, put) && byAge == ByAge(filled, put.slot.conversation)
    requires k < |byAge| && byAge[k].slot == put.slot
    ensures byAge[k] in AfterPut(rows, put, owners) <==> Fitting(byAge[k..], put.maxItems, put.maxBytes)
  {
    FilledRows(rows, put);
    ByAgeOfTable(filled, put.slot.conversation);
    assert byAge[k] in byAge;
    SurvivesIff(filled, byAge, k, put.maxItems, put.maxBytes);
  }

  /** A fresh key under a clock that has not gone back: the new row survives. */
  lemma FreshKeySurvives(rows: seq<Row>, put: Put, owners: map<int, int>)
    requires Table(rows) && Sized(rows) && Accepted(put, owners) && put.maxItems >= 1
    requires Position(Filter(rows, NotExpired(put.slot.conversation, put.now)), put.slot) < 0
    requires forall r :: r in rows ==> r.used <= put.now && r.created <= put.now
    ensures Position(Filled(rows, put), put.slot) >= 0 && NewRow(rows, put) in AfterPut(rows, put, owners)
  {
    var live := Filter(rows, NotExpired(put.slot.conversation, put.now));
    FilledRows(rows, put);
    FilterElements(rows, NotExpired(put.slot.conversation, put.now));
    var row := NewRow(rows, put);
    assert Filled(rows, put) == live + [Written(put, NextId(live), put.now)];
    assert row == Written(put, NextId(live), put.now);
    forall r | r in Filled(rows, put) && r != row ensures OlderFirst(r, row) && !OlderFirst(row, r) {
      assert r in live;
    }
    NewestRowSurvives(rows, put, owners, Filled(rows, put), row);
  }

  /** A time later than that of every other row of the conversation: the new row survives. */
  lemma LatestTimeSurvives(rows: seq<Row>, put: Put, owners: map<int, int>)
    requires Table(rows) && Sized(rows) && Accepted(put, owners) && put.maxItems >= 1
    requires forall r :: r in rows && r.slot.conversation == put.slot.conversation && r.slot != put.slot ==>
      r.used < put.now
    ensures Position(Filled(rows, put), put.slot) >= 0 && NewRow(rows, put) in AfterPut(rows, put, owners)
  {
    FilledRows(rows, put);
    var filled := Filled(rows, put);
    WrittenRow(rows, put);
    forall r | r in filled && r.slot.conversation == put.slot.conversation && r != NewRow(rows, put)
      ensures !OlderFirst(NewRow(rows, put), r)
    {
      assert r.slot != put.slot;
    }
    NewestRowSurvives(rows, put, owners, filled, NewRow(rows, put));
  }

  lemma WrittenRow(rows: seq<Row>, put: Put)
    requires Table(rows) && Sized(rows) && 0 < SizeOf(put.body) && put.ttl > 0
    requires Position(Filled(rows, put), put.slot) >= 0
    ensures NewRow(rows, put).used == put.now && NewRow(rows, put).size == SizeOf(put.body)
    ensures NewRow(rows, put).body == put.body
    ensures NewRow(rows, put).expires == put.now + put.ttl
    ensures forall r :: r in Filled(rows, put) && r.slot == put.slot ==> r == NewRow(rows, put)
  {
    FilledRows(rows, put);
    var live := Filter(rows, NotExpired(put.slot.conversation, put.now));
    var filled, i := Filled(rows, put), Position(live, put.slot);
    LookupsAgree(filled, put.slot, if i >= 0 then i else |live|);
    assert NewRow(rows, put) in filled;
  }

  lemma NewestIsLast(filled: seq<Row>, conversation: int, row: Row) returns (k: nat)
    requires Table(filled) && row in filled && row.slot.conversation == conversation
    requires forall r :: r in filled && r.slot.conversation == conversation && r != row ==> !OlderFirst(row, r)
    ensures k < |ByAge(filled, conversation)| && ByAge(filled, conversation)[k..] == [row]
  {
    var byAge := ByAge(filled, conversation);
    ByAgeOfTable(filled, conversation);
    k :| 0 <= k < |byAge| && byAge[k] == row;
    var last := byAge[|byAge| - 1];
    assert last in byAge;
    assert last == row;
  }

  lemma NewestRowSurvives(rows: seq<Row>, put: Put, owners: map<int, int>, filled: seq<Row>, row: Row)
    requires Table(rows) && Sized(rows) && Accepted(put, owners) && put.maxItems >= 1
    requires filled == Filled(rows, put) && Position(filled, put.slot) >= 0 && row == NewRow(rows, put)
    requires forall r :: r in filled && r.slot.conversation == put.slot.conversation && r != row ==> !OlderFirst(row, r)
    ensures row in AfterPut(rows, put, owners)
  {
    var byAge := ByAge(filled, put.slot.conversation);
    FilledRows(rows, put);
    WrittenRow(rows, put);
    var k := NewestIsLast(filled, put.slot.conversation, row);
    assert byAge[k] == byAge[k..][0];
    OneRowFits(row, put.maxItems, put.maxBytes);
    NewRowSurvivesIff(rows, put, owners, filled, byAge, k);
  }

  lemma OneRowFits(row: Row, items: int, bytes: int)
    requires items >= 1 && row.size <= bytes
    ensures Fitting([row], items, bytes)
  {
    assert [row][..0] == [];
  }

  lemma UpsertedAt(rows: seq<Row>, put: Put, i: nat)
    requires Position(rows, put.slot) == i < |rows|
    ensures Upserted(rows, put) == rows[i := Written(put, rows[i].id, rows[i].created)]
  {
  }

  lemma NoneExpired(x: Row, y: Row, conversation: int, now: int)
    requires now < x.expires && now < y.expires
    ensures Filter([x, y], NotExpired(conversation, now)) == [x, y]
  {
    FilterAll([x, y], NotExpired(conversation, now));
  }

  lemma OverwriteFills(x: Row, y: Row, put: Put)
    requires put.now < x.expires && put.now < y.expires && x.slot == put.slot && y.slot != put.slot
    ensures Filled([x, y], put) == [Written(put, x.id, x.created), y]
  {
    NoneExpired(x, y, put.slot.conversation, put.now);
    FirstOfTwo(x, y, put.slot);
    UpsertedAt([x, y], put, 0);
  }

  lemma FirstOfTwo(x: Row, y: Row, slot: Slot)
    requires x.slot == slot && y.slot != slot
    ensures Position([x, y], slot) == 0
  {
    assert [x, y][..1] == [x];
    assert Position([x], slot) == 0;
  }

  lemma WithoutFirst(x: Row, y: Row)
    requires x != y
    ensures Filter([x, y], Except([x])) == [y]
  {
    FilterConcat([x], [y], Except([x]));
    FilterAll([y], Except([x]));
    assert [x] + [y] == [x, y] && Filter([x], Except([x])) == [];
  }

  lemma FirstMustGo(x: Row, y: Row, items: int, bytes: int)
    requires items >= 1 && y.size <= bytes < x.size + y.size
    ensures EvictCount([x, y], items, bytes) == 1
  {
    TwoRows(x, y);
    assert EvictCount([y], items, bytes) == 0;
  }

  lemma TwoByAge(x: Row, y: Row, conversation: int)
    requires x.slot.conversation == y.slot.conversation == conversation && OlderFirst(x, y) && !OlderFirst(y, x)
    ensures ByAge([x, y], conversation) == [x, y]
  {
    FilterAll([x, y], Of(conversation));
    AgeIsAnOrder();
    SortOfSorted([x, y], OlderFirst);
  }

  lemma EvictFirstOfTwo(x: Row, y: Row, conversation: int, items: int, bytes: int)
    requires x.slot.conversation == y.slot.conversation == conversation
    requires OlderFirst(x, y) && !OlderFirst(y, x) && items >= 1 && y.size <= bytes < x.size + y.size
    ensures Evicted([x, y], conversation, items, bytes) == [y]
  {
    TwoByAge(x, y, conversation);
    FirstMustGo(x, y, items, bytes);
    TwoRows(x, y);
    WithoutFirst(x, y);
  }

  lemma TwoRows(x: Row, y: Row)
    ensures [x, y][..1] == [x] && [x, y][1..] == [y]
    ensures Total([x, y]) == x.size + y.size && Total([y]) == y.size
  {
    assert [x, y][..1] == [x] && [x][..0] == [] && [y][..0] == [];
    assert Total([x]) == x.size;
    assert Total([x, y]) == Total([x]) + y.size;
  }

  // ----- runs -----

  datatype Event = Putting(put: Put) | Getting(get: Get)

  function Step(rows: seq<Row>, e: Event, owners: map<int, int>): seq<Row> {
    match e
    case Putting(put) => AfterPut(rows, put, owners)
    case Getting(get) => AfterGet(rows, get, owners)
  }

  function Run(events: seq<Event>, owners: map<int, int>): seq<Row> {
    if events == [] then [] else Step(Run(events[..|events| - 1], owners), events[|events| - 1], owners)
  }

  /** The most recent accepted put of a slot. */
  function LastPut(events: seq<Event>, slot: Slot, owners: map<int, int>): (put: Option<Put>)
    ensures put.Some? ==> Accepted(put.value, owners) && put.value.slot == slot
  {
    if events == [] then None
    else
      var last := events[|events| - 1];
      if last.Putting? && last.put.slot == slot && Accepted(last.put, owners) then Some(last.put)
      else LastPut(events[..|events| - 1], slot, owners)
  }

  /** A row holds what the last put of its slot stored. */
  ghost predicate Holds(r: Row, put: Option<Put>) {
    put.Some? && r.body == put.value.body && r.size == SizeOf(r.body) && r.expires == put.value.now + put.value.ttl
  }

  /** The table agrees with the last-put map. */
  ghost predicate Agrees(rows: seq<Row>, events: seq<Event>, owners: map<int, int>) {
    Table(rows) && Sized(rows) && forall r :: r in rows ==> Holds(r, LastPut(events, r.slot, owners))
  }

  lemma FilledHold(rows: seq<Row>, put: Put, filled: seq<Row>)
    requires Table(rows) && Sized(rows) && 0 < SizeOf(put.body) && put.ttl > 0 && filled == Filled(rows, put)
    ensures Table(filled) && Sized(filled)
    ensures forall r :: r in filled ==> if r.slot == put.slot then Holds(r, Some(put)) else r in rows
  {
    FilledRows(rows, put);
    WrittenRow(rows, put);
  }

  lemma EvictedAmong(rows: seq<Row>, conversation: int, items: int, bytes: int)
    requires Table(rows) && Sized(rows)
    ensures Table(Evicted(rows, conversation, items, bytes)) && Sized(Evicted(rows, conversation, items, bytes))
    ensures forall r :: r in Evicted(rows, conversation, items, bytes) ==> r in rows
  {
    var byAge := ByAge(rows, conversation);
    EvictedRows(rows, conversation, items, bytes);
    FilterElements(rows, Except(byAge[..EvictCount(byAge, items, bytes)]));
  }

  lemma PutRows(rows: seq<Row>, put: Put, owners: map<int, int>)
    requires Table(rows) && Sized(rows) && Accepted(put, owners)
    ensures Table(AfterPut(rows, put, owners)) && Sized(AfterPut(rows, put, owners))
    ensures forall r :: r in AfterPut(rows, put, owners) ==>
      if r.slot == put.slot then Holds(r, Some(put)) else r in rows
  {
    var filled := Filled(rows, put);
    FilledHold(rows, put, filled);
    EvictedAmong(filled, put.slot.conversation, put.maxItems, put.maxBytes);
  }

  lemma GetRows(rows: seq<Row>, get: Get, owners: map<int, int>)
    requires Table(rows) && Sized(rows)
    ensures Table(AfterGet(rows, get, owners)) && Sized(AfterGet(rows, get, owners))
    ensures forall r :: r in AfterGet(rows, get, owners)
              ==> exists before :: before in rows && r == before.(used := r.used)
                                   && (r.used == before.used || r.used == get.now)
  {
    var found, i, after := Found(rows, get, owners), Position(rows, get.slot), AfterGet(rows, get, owners);
    if found.Some? && found.value.expires <= get.now {
      FilterElements(rows, NotId(found.value.id));
      FilterKeepsTable(rows, NotId(found.value.id));
      forall r | r in after ensures r in rows && r == r.(used := r.used) {
      }
    } else if found.Some? && found.value.body.fingerprint == get.fingerprint {
      ReplaceKeepsTable(rows, i, found.value.(used := get.now));
      forall r | r in after
        ensures exists before :: before in rows && r == before.(used := r.used)
                                 && (r.used == before.used || r.used == get.now)
      {
        var j :| 0 <= j < |after| && after[j] == r;
        assert rows[j] in rows && r == rows[j].(used := r.used);
      }
    } else {
      forall r | r in after ensures r in rows && r == r.(used := r.used) {
      }
    }
  }

  lemma StepAgrees(events: seq<Event>, rows: seq<Row>, e: Event, owners: map<int, int>)
    requires Agrees(rows, events, owners)
    ensures Agrees(Step(rows, e, owners), events + [e], owners)
  {
    var after := Step(rows, e, owners);
    Seqs.DropLast(events, e);
    if e.Putting? {
      if Accepted(e.put, owners) {
        PutRows(rows, e.put, owners);
      }
      forall r | r in after ensures Holds(r, LastPut(events + [e], r.slot, owners)) {
      }
    } else {
      GetRows(rows, e.get, owners);
      forall r | r in after ensures Holds(r, LastPut(events + [e], r.slot, owners)) {
        var before :| before in rows && r == before.(used := r.used);
      }
    }
  }

  lemma {:induction false} RunAgrees(events: seq<Event>, owners: map<int, int>)
    ensures Agrees(Run(events, owners), events, owners)
  {
    if events != [] {
      var front, last := events[..|events| - 1], events[|events| - 1];
      RunAgrees(front, owners);
      StepAgrees(front, Run(front, owners), last, owners);
      SplitLast(events);
    }
  }

  /** In every run, a hit returns what the most recent put of that owner and slot stored, made
      by an equal producer and not yet expired. */
  lemma HitIsTheLastPut(events: seq<Event>, get: Get, owners: map<int, int>)
    requires Hit(Run(events, owners), get, owners).Some?
    ensures var last, hit := LastPut(events, get.slot, owners), Hit(Run(events, owners), get, owners).value;
            && last.Some? && last.value.owner == get.owner
            && hit.slot == get.slot && hit.body == last.value.body
            && hit.body.fingerprint == get.fingerprint && get.now < last.value.now + last.value.ttl
  {
    RunAgrees(events, owners);
    var rows := Run(events, owners);
    assert rows[Position(rows, get.slot)] in rows;
  }

  function Time(e: Event): int {
    match e
    case Putting(put) => put.now
    case Getting(get) => get.now
  }

  ghost predicate Behind(rows: seq<Row>, now: int) {
    forall r :: r in rows ==> r.used <= now && r.created <= now
  }

  lemma StepStaysBehind(rows: seq<Row>, e: Event, owners: map<int, int>, now: int)
    requires Table(rows) && Sized(rows) && Behind(rows, now) && Time(e) <= now
    ensures Behind(Step(rows, e, owners), now)
  {
    if e.Getting? {
      GetRows(rows, e.get, owners);
    } else if Accepted(e.put, owners) {
      var put := e.put;
      PutRows(rows, put, owners);
      FilledRows(rows, put);
      WrittenRow(rows, put);
      var live := Filter(rows, NotExpired(put.slot.conversation, put.now));
      FilterElements(rows, NotExpired(put.slot.conversation, put.now));
      var i := Position(live, put.slot);
      assert i >= 0 ==> live[i] in live;
      assert NewRow(rows, put).created <= now by {
        LookupsAgree(Filled(rows, put), put.slot, if i >= 0 then i else |live|);
      }
      var filled := Filled(rows, put);
      FilterElements(filled, Except(Oldest(filled, put)));
    }
  }

  lemma {:induction false} RunStaysBehind(events: seq<Event>, owners: map<int, int>, now: int)
    requires forall e :: e in events ==> Time(e) <= now
    ensures Behind(Run(events, owners), now)
  {
    if events != [] {
      var front, last := events[..|events| - 1], events[|events| - 1];
      SplitLast(events);
      RunStaysBehind(front, owners, now);
      RunAgrees(front, owners);
      StepStaysBehind(Run(front, owners), last, owners, now);
    }
  }

  lemma StoredIsHit(rows: seq<Row>, row: Row, get: Get, owners: map<int, int>)
    requires Table(rows) && row in rows && row.slot == get.slot
    requires Owned(owners, get.slot.conversation, get.owner)
    requires get.now < row.expires && row.body.fingerprint == get.fingerprint
    ensures Hit(rows, get, owners) == Some(row)
  {
    var i :| 0 <= i < |rows| && rows[i] == row;
    LookupsAgree(rows, get.slot, i);
  }

  lemma PutIsHit(rows: seq<Row>, put: Put, row: Row, get: Get, owners: map<int, int>)
    requires Table(rows) && Sized(rows) && Accepted(put, owners) && Position(Filled(rows, put), put.slot) >= 0
    requires row == NewRow(rows, put) && row in AfterPut(rows, put, owners)
    requires get == Get(put.owner, put.slot, put.body.fingerprint, put.now)
    ensures Hit(AfterPut(rows, put, owners), get, owners) == Some(row) && row.body == put.body
  {
    WrittenRow(rows, put);
    PutRows(rows, put, owners);
    StoredIsHit(AfterPut(rows, put, owners), row, get, owners);
  }

  /** In a run whose clock has not passed the put, a put of a key that is not live is readable
      at once. */
  lemma FreshPutIsReadable(events: seq<Event>, put: Put, owners: map<int, int>)
    requires forall e :: e in events ==> Time(e) <= put.now
    requires Accepted(put, owners) && put.maxItems >= 1
    requires Position(Filter(Run(events, owners), NotExpired(put.slot.conversation, put.now)), put.slot) < 0
    ensures var hit := Hit(Run(events + [Putting(put)], owners),
                           Get(put.owner, put.slot, put.body.fingerprint, put.now), owners);
            hit.Some? && hit.value.body == put.body
  {
    var rows := Run(events, owners);
    RunAgrees(events, owners);
    RunStaysBehind(events, owners, put.now);
    FreshKeySurvives(rows, put, owners);
    Seqs.DropLast(events, Putting(put));
    PutIsHit(rows, put, NewRow(rows, put), Get(put.owner, put.slot, put.body.fingerprint, put.now), owners);
  }

  // ----- a put that is not readable -----

  lemma NothingIsEvicted(rows: seq<Row>, conversation: int, items: int, bytes: int)
    requires forall i :: 0 <= i < |rows| ==> rows[i].slot.conversation == conversation
    requires Fitting(rows, items, bytes)
    ensures Evicted(rows, conversation, items, bytes) == rows
  {
    FilterAll(rows, Of(conversation));
    AgeIsAnOrder();
    SortIsSorted(rows, OlderFirst);
    SameElements(Sort(rows, OlderFirst), rows);
    TotalOfPermutation(Sort(rows, OlderFirst), rows);
    FilterAll(rows, Except(ByAge(rows, conversation)[..0]));
  }

  lemma FirstPut(put: Put, owners: map<int, int>)
    requires Accepted(put, owners) && put.maxItems >= 1
    ensures AfterPut([], put, owners) == [Written(put, 1, put.now)]
  {
    var row := Written(put, 1, put.now);
    assert Filled([], put) == [row];
    OneRowFits(row, put.maxItems, put.maxBytes);
    NothingIsEvicted([row], put.slot.conversation, put.maxItems, put.maxBytes);
  }

  lemma SecondPut(x: Row, put: Put, owners: map<int, int>)
    requires Accepted(put, owners) && put.maxItems >= 2 && x.id == 1 && x.slot != put.slot
    requires x.slot.conversation == put.slot.conversation && put.now < x.expires
    requires x.size + SizeOf(put.body) <= put.maxBytes
    ensures AfterPut([x], put, owners) == [x, Written(put, 2, put.now)]
  {
    var row := Written(put, 2, put.now);
    assert [x][..0] == [] && NextId([x]) == 2 && Position([x], put.slot) == -1;
    FilterAll([x], NotExpired(put.slot.conversation, put.now));
    assert Filled([x], put) == [x, row];
    TwoRows(x, row);
    NothingIsEvicted([x, row], put.slot.conversation, put.maxItems, put.maxBytes);
  }

  lemma SecondRead(x: Row, y: Row, get: Get, owners: map<int, int>)
    requires x.slot != y.slot && get.slot == y.slot && Owned(owners, y.slot.conversation, get.owner)
    requires get.now < y.expires && get.fingerprint == y.body.fingerprint
    ensures AfterGet([x, y], get, owners) == [x, y.(used := get.now)]
  {
    assert Position([x, y], y.slot) == 1;
  }

  lemma OverwriteIsEvicted(x: Row, y: Row, put: Put, owners: map<int, int>)
    requires Accepted(put, owners) && x.slot == put.slot && y.slot != put.slot
    requires y.slot.conversation == put.slot.conversation && put.now < x.expires && put.now < y.expires
    requires y.used == put.now && x.created < y.created && put.maxItems >= 1
    requires y.size <= put.maxBytes < y.size + SizeOf(put.body)
    ensures AfterPut([x, y], put, owners) == [y]
  {
    OverwriteFills(x, y, put);
    EvictFirstOfTwo(Written(put, x.id, x.created), y, put.slot.conversation, put.maxItems, put.maxBytes);
  }

  lemma RunNext(events: seq<Event>, e: Event, owners: map<int, int>)
    ensures Run(events + [e], owners) == Step(Run(events, owners), e, owners)
  {
    Seqs.DropLast(events, e);
  }

  lemma OnePut(put: Put, owners: map<int, int>)
    requires Accepted(put, owners) && put.maxItems >= 1
    ensures Run([Putting(put)], owners) == [Written(put, 1, put.now)]
  {
    FirstPut(put, owners);
    assert [Putting(put)][..0] == [];
    assert Run([Putting(put)], owners) == Step([], Putting(put), owners);
  }

  lemma TwoPuts(first: Put, second: Put, owners: map<int, int>)
    requires Accepted(first, owners) && Accepted(second, owners) && second.slot != first.slot
    requires second.slot.conversation == first.slot.conversation && second.now < first.now + first.ttl
    requires first.maxItems >= 1 && second.maxItems >= 2
    requires SizeOf(first.body) + SizeOf(second.body) <= second.maxBytes
    ensures Run([Putting(first)] + [Putting(second)], owners)
         == [Written(first, 1, first.now), Written(second, 2, second.now)]
  {
    OnePut(first, owners);
    RunNext([Putting(first)], Putting(second), owners);
    SecondPut(Written(first, 1, first.now), second, owners);
  }

  lemma LastIsLost(x: Row, y: Row, events: seq<Event>, read: Get, last: Put, owners: map<int, int>)
    requires Run(events, owners) == [x, y] && Accepted(last, owners) && x.slot == last.slot != y.slot == read.slot
    requires y.slot.conversation == last.slot.conversation && Owned(owners, y.slot.conversation, read.owner)
    requires read.now == last.now < x.expires && last.now < y.expires && read.fingerprint == y.body.fingerprint
    requires x.created < y.created && last.maxItems >= 1 && y.size <= last.maxBytes < y.size + SizeOf(last.body)
    ensures Run(events + [Getting(read)] + [Putting(last)], owners) == [y.(used := read.now)]
  {
    RunNext(events, Getting(read), owners);
    SecondRead(x, y, read, owners);
    RunNext(events + [Getting(read)], Putting(last), owners);
    OverwriteIsEvicted(x, y.(used := read.now), last, owners);
  }

  /** Three puts and a read under one limit.  Overwriting a key keeps its creation time, so at
      one instant the row just put is the oldest: the put is accepted and stores nothing. */
  lemma OverwriteAtOneInstantIsLost(first: Put, second: Put, read: Get, last: Put, owners: map<int, int>)
    requires Accepted(first, owners) && Accepted(second, owners) && Accepted(last, owners)
    requires first.slot == last.slot && second.slot == read.slot != first.slot
    requires second.slot.conversation == first.slot.conversation && read.owner == second.owner
    requires read.fingerprint == second.body.fingerprint
    requires first.maxItems == second.maxItems == last.maxItems && last.maxItems >= 2
    requires first.maxBytes == second.maxBytes == last.maxBytes
    requires first.now < second.now <= read.now == last.now < first.now + first.ttl
    requires last.now < second.now + second.ttl
    requires SizeOf(first.body) + SizeOf(second.body) <= last.maxBytes < SizeOf(second.body) + SizeOf(last.body)
    ensures var rows := Run([Putting(first)] + [Putting(second)] + [Getting(read)] + [Putting(last)], owners);
            forall get: Get :: get.slot == last.slot ==> Hit(rows, get, owners).None?
  {
    var x, y := Written(first, 1, first.now), Written(second, 2, second.now);
    TwoPuts(first, second, owners);
    LastIsLost(x, y, [Putting(first)] + [Putting(second)], read, last, owners);
    OneRowElsewhere(y.(used := read.now), last.slot);
  }

  lemma OneRowElsewhere(row: Row, slot: Slot)
    requires row.slot != slot
    ensures Position([row], slot) == -1
  {
    assert [row][..0] == [];
  }
}
