/** Which rows a put keeps, and when a row was last used: the eviction of SessionResourceRepository
    in src/zglab_rag/conversation/repositories.py, said of the events alone. */
module CacheRecency {
  import opened Filtering
  import opened Options
  import opened ResourceCache
  import opened CacheLaws
  import opened Sorting
  import opened Text
  import Seqs

  // ----- which rows stay -----

  /** `x` was not used before `r`; ties go by creation time and then by id. */
  function NotOlder(r: Row): Row -> bool {
    (x: Row) => || x.used > r.used || (x.used == r.used && x.created > r.created)
                || (x.used == r.used && x.created == r.created && x.id >= r.id)
  }

  lemma TailIsNotOlder(filled: seq<Row>, byAge: seq<Row>, k: nat, x: Row)
    requires Table(filled) && SortedBy(byAge, OlderFirst) && Distinct(byAge) && k < |byAge|
    requires x in byAge && (forall r :: r in byAge ==> r in filled)
    ensures x in byAge[k..] <==> NotOlder(byAge[k])(x)
  {
    var i :| 0 <= i < |byAge| && byAge[i] == x;
    assert byAge[k] in filled;
    if i < k {
      assert OlderFirst(x, byAge[k]) && x != byAge[k];
    } else {
      assert byAge[k..][i - k] == x;
      assert i == k || OlderFirst(byAge[k], x);
    }
  }

  /** A row of the conversation survives a put exactly when it and all rows that are not older
      fit the bounds together. */
  lemma StaysIff(rows: seq<Row>, put: Put, owners: map<int, int>, filled: seq<Row>, r: Row)
    requires Table(rows) && Sized(rows) && Accepted(put, owners) && filled == Filled(rows, put)
    requires r in filled && r.slot.conversation == put.slot.conversation
    ensures r in AfterPut(rows, put, owners)
       <==> Fitting(Filter(Mine(filled, put.slot.conversation), NotOlder(r)), put.maxItems, put.maxBytes)
  {
    var conversation := put.slot.conversation;
    var mine, byAge := Mine(filled, conversation), ByAge(filled, conversation);
    FilledRows(rows, put);
    ByAgeOfTable(filled, conversation);
    var k :| 0 <= k < |byAge| && byAge[k] == r;
    SurvivesIff(filled, byAge, k, put.maxItems, put.maxBytes);
    var younger := Filter(mine, NotOlder(r));
    FilterElements(filled, Of(conversation));
    FilterElements(mine, NotOlder(r));
    FilterStaysDistinct(filled, Of(conversation));
    FilterStaysDistinct(mine, NotOlder(r));
    SplitMembers(byAge, k);
    forall x ensures x in younger <==> x in byAge[k..] {
      if x in byAge {
        TailIsNotOlder(filled, byAge, k, x);
      }
    }
    SameMembers(younger, byAge[k..]);
    TotalOfPermutation(younger, byAge[k..]);
  }

  // ----- when a row was last used -----

  /** The time of the last put or hit of a slot. */
  function LastUse(events: seq<Event>, slot: Slot, owners: map<int, int>): int {
    if events == [] then 0
    else
      var front, last := events[..|events| - 1], events[|events| - 1];
      match last
      case Putting(put) => if put.slot == slot && Accepted(put, owners) then put.now else LastUse(front, slot, owners)
      case Getting(get) =>
        if get.slot == slot && Hit(Run(front, owners), get, owners).Some? then get.now else LastUse(front, slot, owners)
  }

  lemma GetUses(rows: seq<Row>, get: Get, owners: map<int, int>, r: Row)
    requires Table(rows) && r in AfterGet(rows, get, owners)
    ensures r.slot == get.slot && Hit(rows, get, owners).Some? ==> r.used == get.now
    ensures r.slot != get.slot || Hit(rows, get, owners).None? ==> r in rows
  {
    var i, after := Position(rows, get.slot), AfterGet(rows, get, owners);
    var found := Found(rows, get, owners);
    if found.Some? && found.value.expires <= get.now {
      FilterElements(rows, NotId(found.value.id));
    } else {
      var j :| 0 <= j < |after| && after[j] == r;
      if j != i && r.slot == get.slot {
        LookupsAgree(rows, get.slot, j);
      }
    }
  }

  ghost predicate UsedAsRecorded(rows: seq<Row>, events: seq<Event>, owners: map<int, int>) {
    forall r :: r in rows ==> r.used == LastUse(events, r.slot, owners)
  }

  lemma StepUses(events: seq<Event>, rows: seq<Row>, e: Event, owners: map<int, int>)
    requires rows == Run(events, owners) && Table(rows) && Sized(rows) && UsedAsRecorded(rows, events, owners)
    ensures UsedAsRecorded(Step(rows, e, owners), events + [e], owners)
  {
    var after := Step(rows, e, owners);
    Seqs.DropLast(events, e);
    forall r | r in after ensures r.used == LastUse(events + [e], r.slot, owners) {
      match e
      case Getting(get) =>
        GetUses(rows, get, owners, r);
      case Putting(put) =>
        if Accepted(put, owners) {
          PutUses(rows, put, owners, r);
        }
    }
  }

  lemma PutUses(rows: seq<Row>, put: Put, owners: map<int, int>, r: Row)
    requires Table(rows) && Sized(rows) && Accepted(put, owners) && r in AfterPut(rows, put, owners)
    ensures if r.slot == put.slot then r.used == put.now else r in rows
  {
    var filled := Filled(rows, put);
    FilledRows(rows, put);
    WrittenRow(rows, put);
    FilterElements(filled, Except(Oldest(filled, put)));
  }

  /** In every run a row's time of use is that of the last put or hit of its slot: the rows that a
      put evicts are the least recently used. */
  lemma {:induction false} UsedIsTheLastUse(events: seq<Event>, owners: map<int, int>)
    ensures UsedAsRecorded(Run(events, owners), events, owners)
  {
    if events != [] {
      var front, last := events[..|events| - 1], events[|events| - 1];
      UsedIsTheLastUse(front, owners);
      RunAgrees(front, owners);
      StepUses(front, Run(front, owners), last, owners);
      SplitLast(events);
    }
  }

  /** The table has a row of this id. */
  ghost predicate HasId(rows: seq<Row>, id: int) {
    exists r :: r in rows && r.id == id
  }

  /** A read removes a row exactly when it is the owner's read of the row's slot and the row has
      expired. */
  lemma ReadRemovesIff(rows: seq<Row>, get: Get, owners: map<int, int>, r: Row)
    requires Table(rows) && r in rows
    ensures !HasId(AfterGet(rows, get, owners), r.id)
       <==> r.slot == get.slot && get.slot.conversation in owners && owners[get.slot.conversation] == get.owner
            && r.expires <= get.now
  {
    var i, after := Position(rows, get.slot), AfterGet(rows, get, owners);
    var found := Found(rows, get, owners);
    var k :| 0 <= k < |rows| && rows[k] == r;
    if r.slot == get.slot {
      LookupsAgree(rows, get.slot, k);
    }
    if found.Some? && found.value.expires <= get.now {
      FilterElements(rows, NotId(found.value.id));
      assert rows[i] in rows;
    } else {
      assert |after| == |rows| && after[k].id == r.id && after[k] in after;
    }
  }

  // ----- when a row was created -----

  /** The slot has a row that is live at `now`. */
  ghost predicate LiveAt(rows: seq<Row>, slot: Slot, now: int) {
    exists r :: r in rows && r.slot == slot && now < r.expires
  }

  /** The time of the put that inserted the slot's row; a later put of a live row keeps it. */
  ghost function Born(events: seq<Event>, slot: Slot, owners: map<int, int>): int {
    if events == [] then 0
    else
      var front, last := events[..|events| - 1], events[|events| - 1];
      if last.Putting? && last.put.slot == slot && Accepted(last.put, owners)
         && !LiveAt(Run(front, owners), slot, last.put.now) then last.put.now
      else Born(front, slot, owners)
  }

  ghost predicate CreatedAsRecorded(rows: seq<Row>, events: seq<Event>, owners: map<int, int>) {
    forall r :: r in rows ==> r.created == Born(events, r.slot, owners)
  }

  lemma PutCreates(rows: seq<Row>, put: Put, owners: map<int, int>, r: Row)
    requires Table(rows) && Sized(rows) && Accepted(put, owners)
    requires r in AfterPut(rows, put, owners) && r.slot == put.slot
    ensures !LiveAt(rows, put.slot, put.now) ==> r.created == put.now
    ensures LiveAt(rows, put.slot, put.now) ==>
      exists before :: before in rows && before.slot == put.slot && r.created == before.created && r.id == before.id
  {
    var live := Filter(rows, NotExpired(put.slot.conversation, put.now));
    var filled, i := Filled(rows, put), Position(live, put.slot);
    FilterElements(rows, NotExpired(put.slot.conversation, put.now));
    FilledRows(rows, put);
    WrittenRow(rows, put);
    FilterElements(filled, Except(Oldest(filled, put)));
    LookupsAgree(filled, put.slot, if i >= 0 then i else |live|);
    assert i >= 0 ==> live[i] in live;
  }

  lemma StepCreates(events: seq<Event>, rows: seq<Row>, e: Event, owners: map<int, int>)
    requires rows == Run(events, owners) && Table(rows) && Sized(rows) && CreatedAsRecorded(rows, events, owners)
    ensures CreatedAsRecorded(Step(rows, e, owners), events + [e], owners)
  {
    var after := Step(rows, e, owners);
    Seqs.DropLast(events, e);
    if e.Getting? {
      GetRows(rows, e.get, owners);
      forall r | r in after ensures r.created == Born(events + [e], r.slot, owners) {
        var before :| before in rows && r == before.(used := r.used);
      }
    } else if Accepted(e.put, owners) {
      forall r | r in after ensures r.created == Born(events + [e], r.slot, owners) {
        if r.slot == e.put.slot {
          PutCreates(rows, e.put, owners, r);
        } else {
          PutUses(rows, e.put, owners, r);
        }
      }
    }
  }

  /** In every run a row's creation time is that of the put that inserted it; putting a live key
      again changes neither its creation time nor its id. */
  lemma {:induction false} CreatedIsTheInsertion(events: seq<Event>, owners: map<int, int>)
    ensures CreatedAsRecorded(Run(events, owners), events, owners)
  {
    if events != [] {
      var front, last := events[..|events| - 1], events[|events| - 1];
      CreatedIsTheInsertion(front, owners);
      RunAgrees(front, owners);
      StepCreates(front, Run(front, owners), last, owners);
      SplitLast(events);
    }
  }

  // ----- sizes -----

  /** In every run each row counts the bytes of its payload and of its provenance. */
  lemma SizesCountBytes(events: seq<Event>, owners: map<int, int>)
    ensures forall r :: r in Run(events, owners) ==> r.size == Bytes(r.body.payload) + Bytes(r.body.provenance)
  {
    RunAgrees(events, owners);
  }
}
