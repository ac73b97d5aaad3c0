/** Per-user usage quota: src/zglab_rag/auth/quota.py over the usage table of repositories.py.
    A moment is a number of microseconds, a minute a number of minutes; a day has 1440. */
module Quota {

  datatype Bucket = Bucket(user: int, minute: int)

  type Table = map<Bucket, int>

  datatype Limits = Limits(perMinute: int, perDay: int)

  /** A rejection carries the number of microseconds after which to try again. */
  datatype Outcome = ACCEPTED | MINUTE_EXCEEDED(retryAfter: int) | DAY_EXCEEDED(retryAfter: int)

  const MINUTES := 1440

  const MICROSECONDS := 60_000_000

  function Day(minute: int): int {
    minute / MINUTES
  }

  function Minute(moment: int): int {
    moment / MICROSECONDS
  }

  /** The first moment of the next minute. */
  function NextMinute(moment: int): int {
    (Minute(moment) + 1) * MICROSECONDS
  }

  /** The first moment of the next day. */
  function NextDay(moment: int): int {
    (Day(Minute(moment)) + 1) * MINUTES * MICROSECONDS
  }

  /** The hint, at least a tenth of a second. */
  function RetryAfter(moment: int, next: int): int {
    if next - moment >= 100_000 then next - moment else 100_000
  }

  function Requests(table: Table, b: Bucket): int {
    if b in table then table[b] else 0
  }

  /** The requests of the user's buckets from minute `from` up to, not including, `end`. */
  function Sum(table: Table, user: int, from: int, end: int): int
    decreases end - from
  {
    if from >= end then 0 else Sum(table, user, from, end - 1) + Requests(table, Bucket(user, end - 1))
  }

  function DayTotal(table: Table, user: int, day: int): int {
    Sum(table, user, day * MINUTES, day * MINUTES + MINUTES)
  }

  function Recorded(table: Table, b: Bucket): Table {
    table[b := Requests(table, b) + 1]
  }

  /** An existing bucket loses one request, never going below zero. */
  function Refunded(table: Table, b: Bucket): Table {
    if b in table then table[b := if table[b] >= 1 then table[b] - 1 else 0] else table
  }

  /** Both counts were below their limits before the call. */
  predicate HasRoom(table: Table, b: Bucket, l: Limits) {
    Requests(table, b) < l.perMinute && DayTotal(table, b.user, Day(b.minute)) < l.perDay
  }

  // ----- the operations on one bucket -----

  datatype Op = Record(bucket: Bucket) | Refund(bucket: Bucket)

  function Step(table: Table, op: Op, l: Limits): Table {
    match op
    case Record(b) => if HasRoom(table, b, l) then Recorded(table, b) else table
    case Refund(b) => Refunded(table, b)
  }

  lemma {:induction false} SumAfter(table: Table, b: Bucket, n: int, user: int, from: int, end: int)
    ensures Sum(table[b := n], user, from, end)
         == Sum(table, user, from, end) + if b.user == user && from <= b.minute < end then n - Requests(table, b) else 0
    decreases end - from
  {
    if from < end {
      SumAfter(table, b, n, user, from, end - 1);
    }
  }

  lemma DayOfMinute(minute: int, day: int)
    ensures day * MINUTES <= minute < day * MINUTES + MINUTES <==> Day(minute) == day
  {
  }

  lemma DayTotalAfter(table: Table, b: Bucket, n: int, user: int, day: int)
    ensures DayTotal(table[b := n], user, day)
         == DayTotal(table, user, day) + if b.user == user && Day(b.minute) == day then n - Requests(table, b) else 0
  {
    SumAfter(table, b, n, user, day * MINUTES, day * MINUTES + MINUTES);
    DayOfMinute(b.minute, day);
  }

  class UsageGuard {
    const limits: Limits
    var table: Table

    constructor (limits: Limits)
      ensures this.limits == limits && table == map[]
    {
      this.limits, table := limits, map[];
    }

    /** Increments first, then checks, and rolls the transaction back when over a limit. */
    method CheckAndRecord(user: int, moment: int) returns (outcome: Outcome)
      modifies this
      ensures var b := Bucket(user, Minute(moment));
              && table == (if outcome.ACCEPTED? then Recorded(old(table), b) else old(table))
              && outcome == if HasRoom(old(table), b, limits) then ACCEPTED
                            else if Requests(old(table), b) >= limits.perMinute
                              then MINUTE_EXCEEDED(RetryAfter(moment, NextMinute(moment)))
                            else DAY_EXCEEDED(RetryAfter(moment, NextDay(moment)))
      ensures table == Step(old(table), Record(Bucket(user, Minute(moment))), limits)
    {
      var saved, minute := table, Minute(moment);
      var b := Bucket(user, minute);
      DayTotalAfter(table, b, Requests(table, b) + 1, user, Day(minute));
      table := table[b := (if b in table then table[b] else 0) + 1];
      var minuteCount, dayCount := Requests(table, b), DayTotal(table, user, Day(minute));
      if minuteCount > limits.perMinute {
        table := saved;
        return MINUTE_EXCEEDED(RetryAfter(moment, NextMinute(moment)));
      }
      if dayCount > limits.perDay {
        table := saved;
        return DAY_EXCEEDED(RetryAfter(moment, NextDay(moment)));
      }
      return ACCEPTED;
    }

    method Refund(user: int, moment: int)
      modifies this
      ensures table == Refunded(old(table), Bucket(user, Minute(moment)))
      ensures table == Step(old(table), Op.Refund(Bucket(user, Minute(moment))), limits)
    {
      var b := Bucket(user, Minute(moment));
      if b in table {
        table := table[b := if table[b] - 1 > 0 then table[b] - 1 else 0];
      }
    }
  }

  /** Waiting reaches a later minute, or a later day, exactly from the first moment of the next on,
      and the hint is the least wait of a tenth of a second or more that does. */
  lemma HintsNameTheNext(moment: int, wait: int)
    requires wait >= 0
    ensures Minute(moment + wait) > Minute(moment) <==> wait >= NextMinute(moment) - moment
    ensures Day(Minute(moment + wait)) > Day(Minute(moment)) <==> wait >= NextDay(moment) - moment
    ensures wait >= RetryAfter(moment, NextMinute(moment))
        <==> Minute(moment + wait) > Minute(moment) && wait >= 100_000
    ensures wait >= RetryAfter(moment, NextDay(moment))
        <==> Day(Minute(moment + wait)) > Day(Minute(moment)) && wait >= 100_000
  {
    var later := moment + wait;
    assert Minute(later) > Minute(moment) <==> later >= NextMinute(moment);
    assert Day(Minute(later)) > Day(Minute(moment)) <==> Minute(later) >= (Day(Minute(moment)) + 1) * MINUTES;
    assert Minute(later) >= (Day(Minute(moment)) + 1) * MINUTES <==> later >= NextDay(moment);
  }

  // ----- runs -----

  function Run(ops: seq<Op>, l: Limits): Table {
    if ops == [] then map[] else Step(Run(ops[..|ops| - 1], l), ops[|ops| - 1], l)
  }

  predicate WithinMinute(table: Table, b: Bucket, l: Limits) {
    0 <= Requests(table, b) && (Requests(table, b) <= l.perMinute || Requests(table, b) == 0)
  }

  predicate WithinDay(table: Table, user: int, day: int, l: Limits) {
    0 <= DayTotal(table, user, day) && (DayTotal(table, user, day) <= l.perDay || DayTotal(table, user, day) == 0)
  }

  ghost predicate NonNegative(table: Table) {
    forall b :: b in table ==> table[b] >= 0
  }

  lemma {:induction false} SumNonNegative(table: Table, user: int, from: int, end: int)
    requires NonNegative(table)
    ensures Sum(table, user, from, end) >= 0
    decreases end - from
  {
    if from < end {
      SumNonNegative(table, user, from, end - 1);
    }
  }

  lemma StepKeepsLimits(table: Table, op: Op, l: Limits, b: Bucket, day: int)
    requires NonNegative(table) && WithinMinute(table, b, l) && WithinDay(table, b.user, day, l)
    ensures NonNegative(Step(table, op, l)) && WithinMinute(Step(table, op, l), b, l)
    ensures WithinDay(Step(table, op, l), b.user, day, l)
  {
    var after := Step(table, op, l);
    SumNonNegative(after, b.user, day * MINUTES, day * MINUTES + MINUTES);
    if op.bucket in after {
      DayTotalAfter(table, op.bucket, after[op.bucket], b.user, day);
      if op.Refund? {
        assert op.bucket in table;
      }
    }
  }

  lemma {:induction false} NothingUsed(user: int, from: int, end: int)
    ensures Sum(map[], user, from, end) == 0
    decreases end - from
  {
    if from < end {
      NothingUsed(user, from, end - 1);
    }
  }

  /** In every run of records and refunds, each minute bucket and each day's sum stays
      non-negative and within its limit. */
  lemma {:induction false} EveryRunKeepsLimits(ops: seq<Op>, l: Limits, b: Bucket, day: int)
    ensures NonNegative(Run(ops, l)) && WithinMinute(Run(ops, l), b, l) && WithinDay(Run(ops, l), b.user, day, l)
  {
    if ops == [] {
      NothingUsed(b.user, day * MINUTES, day * MINUTES + MINUTES);
    } else {
      EveryRunKeepsLimits(ops[..|ops| - 1], l, b, day);
      StepKeepsLimits(Run(ops[..|ops| - 1], l), ops[|ops| - 1], l, b, day);
    }
  }

  /** A refund gives a recorded request back exactly when it falls into the same minute: a later
      one finds another bucket, and the request stays charged. */
  lemma RefundGivesBackIff(table: Table, b: Bucket, refunded: Bucket)
    requires NonNegative(table) && refunded.user == b.user
    ensures (forall x :: Requests(Refunded(Recorded(table, b), refunded), x) == Requests(table, x)) <==> refunded == b
  {
    var after := Refunded(Recorded(table, b), refunded);
    if refunded != b {
      assert Requests(after, b) == Requests(table, b) + 1;
    }
  }
}
