/** The per-client sliding-window limiter: src/zglab_rag/api/rate_limit.py. */
module RateLimiting {
  import opened Filtering
  import opened SlidingWindow
  import opened Sorting
  import Seqs

  datatype Call = Call(client: string, now: real)

  type Table = map<string, seq<real>>

  function Stored(table: Table, client: string): seq<real> {
    if client in table then table[client] else []
  }

  function OutcomeOf(table: Table, call: Call, max: int, window: real): Outcome {
    Decide(Stored(table, call.client), call.now, max, window)
  }

  function Checked(table: Table, call: Call, max: int, window: real): Table {
    var accepted := OutcomeOf(table, call, max, window).ACCEPTED?;
    table[call.client := Recorded(Stored(table, call.client), call.now, window, accepted)]
  }

  class RateLimiter {
    const maxRequests: int
    const window: real
    var requests: Table

    constructor (maxRequests: int, window: real)
      ensures this.maxRequests == maxRequests && this.window == window && requests == map[]
    {
      this.maxRequests, this.window, requests := maxRequests, window, map[];
    }

    method Check(client: string, now: real) returns (outcome: Outcome)
      modifies this
      ensures outcome == OutcomeOf(old(requests), Call(client, now), maxRequests, window)
      ensures requests == Checked(old(requests), Call(client, now), maxRequests, window)
    {
      var windowStart := Start(now, window);
      var timestamps := if client in requests then requests[client] else [];
      timestamps := Active(timestamps, windowStart);
      requests := requests[client := timestamps];
      if |timestamps| >= maxRequests {
        Seqs.AppendEmpty(timestamps);
        if timestamps == [] {
          return CRASHED;
        }
        var oldest := timestamps[0];
        for i := 0 to |timestamps|
          invariant oldest in timestamps && forall j :: 0 <= j < i ==> oldest <= timestamps[j]
        {
          if timestamps[i] < oldest {
            oldest := timestamps[i];
          }
        }
        var retryAfter := oldest + window - now;
        return LIMITED(if retryAfter > 0.1 then retryAfter else 0.1);
      }
      requests := requests[client := timestamps + [now]];
      return ACCEPTED;
    }

    method Remaining(client: string, now: real) returns (n: int)
      ensures n >= 0
      ensures n > 0 <==> OutcomeOf(requests, Call(client, now), maxRequests, window).ACCEPTED?
      ensures n > 0 ==> n == maxRequests - |Active(Stored(requests, client), Start(now, window))|
    {
      var timestamps := if client in requests then requests[client] else [];
      var active := Active(timestamps, Start(now, window));
      n := if maxRequests - |active| > 0 then maxRequests - |active| else 0;
    }
  }

  // ----- whole histories -----

  function Run(calls: seq<Call>, max: int, window: real): Table {
    if calls == [] then map[] else Checked(Run(calls[..|calls| - 1], max, window), calls[|calls| - 1], max, window)
  }

  /** The outcome of the last call. */
  function LastOutcome(calls: seq<Call>, max: int, window: real): Outcome
    requires calls != []
  {
    OutcomeOf(Run(calls[..|calls| - 1], max, window), calls[|calls| - 1], max, window)
  }

  /** The times at which the client's calls were accepted; nothing is ever pruned from it. */
  function Accepted(calls: seq<Call>, client: string, max: int, window: real): seq<real> {
    if calls == [] then []
    else
      var before, last := Accepted(calls[..|calls| - 1], client, max, window), calls[|calls| - 1];
      if last.client == client && LastOutcome(calls, max, window).ACCEPTED? then before + [last.now] else before
  }

  ghost predicate Ordered(calls: seq<Call>) {
    forall i, j :: 0 <= i < j < |calls| ==> calls[i].now <= calls[j].now
  }

  /** The clock has reached `now`. */
  ghost predicate Reached(calls: seq<Call>, now: real) {
    forall i :: 0 <= i < |calls| ==> calls[i].now <= now
  }

  /** Every call's window has started by `start`. */
  ghost predicate StartedBy(calls: seq<Call>, window: real, start: real) {
    forall i :: 0 <= i < |calls| ==> Start(calls[i].now, window) <= start
  }

  lemma RunNext(calls: seq<Call>, call: Call, client: string, max: int, window: real)
    ensures Stored(Run(calls + [call], max, window), client)
         == if call.client == client
            then Recorded(Stored(Run(calls, max, window), client), call.now, window,
                          LastOutcome(calls + [call], max, window).ACCEPTED?)
            else Stored(Run(calls, max, window), client)
    ensures LastOutcome(calls + [call], max, window)
         == Decide(Stored(Run(calls, max, window), call.client), call.now, max, window)
    ensures Accepted(calls + [call], client, max, window)
         == if call.client == client && LastOutcome(calls + [call], max, window).ACCEPTED?
            then Accepted(calls, client, max, window) + [call.now] else Accepted(calls, client, max, window)
  {
    Seqs.DropLast(calls, call);
  }

  /** Pruning forgets nothing that matters: for any later window the stored list and the full
      history have the same active times. */
  lemma {:induction false} StoredIsPrunedHistory(calls: seq<Call>, client: string, max: int, window: real, start: real)
    requires StartedBy(calls, window, start)
    ensures Active(Stored(Run(calls, max, window), client), start)
         == Active(Accepted(calls, client, max, window), start)
  {
    if calls != [] {
      var front, last := calls[..|calls| - 1], calls[|calls| - 1];
      SplitLast(calls);
      StoredIsPrunedHistory(front, client, max, window, start);
      RunNext(front, last, client, max, window);
      if last.client == client {
        var before, history := Stored(Run(front, max, window), client), Accepted(front, client, max, window);
        RecordedActive(before, history, last.now, window, LastOutcome(calls, max, window).ACCEPTED?,
                       Start(last.now, window), start);
      }
    }
  }

  lemma {:induction false} HistoryIsReached(calls: seq<Call>, client: string, max: int, window: real, now: real)
    requires Reached(calls, now)
    ensures forall i :: 0 <= i < |Accepted(calls, client, max, window)| ==>
      Accepted(calls, client, max, window)[i] <= now
  {
    if calls != [] {
      HistoryIsReached(calls[..|calls| - 1], client, max, window, now);
    }
  }

  lemma {:induction false} HistoryIsOrdered(calls: seq<Call>, client: string, max: int, window: real)
    requires Ordered(calls)
    ensures Ascending(Accepted(calls, client, max, window))
  {
    if calls != [] {
      var front, last := calls[..|calls| - 1], calls[|calls| - 1];
      HistoryIsOrdered(front, client, max, window);
      HistoryIsReached(front, client, max, window, last.now);
      AscendingMore(Accepted(front, client, max, window), last.now);
    }
  }

  /** A call is decided as if nothing had ever been pruned. */
  lemma DecidedByHistory(calls: seq<Call>, call: Call, max: int, window: real)
    requires Reached(calls, call.now)
    ensures LastOutcome(calls + [call], max, window)
         == Decide(Accepted(calls, call.client, max, window), call.now, max, window)
  {
    var start := Start(call.now, window);
    RunNext(calls, call, call.client, max, window);
    StoredIsPrunedHistory(calls, call.client, max, window, start);
    SameActiveDecides(Stored(Run(calls, max, window), call.client), Accepted(calls, call.client, max, window),
                      call.now, max, window);
  }

  /** A call is accepted exactly when fewer than `max` calls of its client were accepted less than
      a window ago. */
  lemma AcceptedIff(calls: seq<Call>, call: Call, max: int, window: real)
    requires Reached(calls, call.now)
    ensures LastOutcome(calls + [call], max, window).ACCEPTED?
        <==> |Recent(Accepted(calls, call.client, max, window), call.now, window)| < max
  {
    DecidedByHistory(calls, call, max, window);
    OpenIff(Accepted(calls, call.client, max, window), call.now, max, window);
  }

  /** In every history, any `max + 1` consecutive acceptances of a client span at least the window. */
  lemma {:induction false} AcceptancesAreSpaced(calls: seq<Call>, client: string, max: int, window: real)
    requires Ordered(calls)
    ensures Spaced(Accepted(calls, client, max, window), max, window)
  {
    if calls != [] {
      var front, last := calls[..|calls| - 1], calls[|calls| - 1];
      AcceptancesAreSpaced(front, client, max, window);
      if last.client == client && LastOutcome(calls, max, window).ACCEPTED? {
        SplitLast(calls);
        HistoryIsOrdered(front, client, max, window);
        DecidedByHistory(front, last, max, window);
        AcceptStaysSpaced(Accepted(front, client, max, window), max, window, last.now);
      }
    }
  }

  /** In every history, a window of the configured length holds at most `max` acceptances. */
  lemma WindowsHoldAtMostMax(calls: seq<Call>, client: string, max: int, window: real, from: real, to: real)
    requires Ordered(calls) && max >= 0 && from <= to <= from + window
    ensures |Filter(Accepted(calls, client, max, window), Between(from, to))| <= max
  {
    HistoryIsOrdered(calls, client, max, window);
    AcceptancesAreSpaced(calls, client, max, window);
    WindowHoldsAtMost(Accepted(calls, client, max, window), max, window, from, to);
  }

  /** After a rejection, with no acceptance of the client since, a retry is accepted exactly when
      its window has left the oldest active request behind; the hint names that time. */
  lemma RetryIff(calls: seq<Call>, client: string, now: real, later: seq<Call>, retry: real, max: int, window: real,
                 history: seq<real>)
    requires Ordered(calls) && Reached(calls, now) && Reached(later, retry) && now <= retry && max > 0
    requires history == Accepted(calls, client, max, window) == Accepted(later, client, max, window)
    requires !LastOutcome(calls + [Call(client, now)], max, window).ACCEPTED?
    ensures LastOutcome(calls + [Call(client, now)], max, window)
         == LIMITED(AtLeast(0.1, FreeAt(history, now, window) - now))
    ensures LastOutcome(later + [Call(client, retry)], max, window).ACCEPTED? <==> retry >= FreeAt(history, now, window)
  {
    DecidedByHistory(calls, Call(client, now), max, window);
    DecidedByHistory(later, Call(client, retry), max, window);
    FullHistoryOpensIff(calls, client, max, window, now, retry);
  }

  lemma FullHistoryOpensIff(calls: seq<Call>, client: string, max: int, window: real, now: real, later: real)
    requires Ordered(calls) && Reached(calls, now) && max > 0 && now <= later
    requires !Open(Accepted(calls, client, max, window), now, max, window)
    ensures var history := Accepted(calls, client, max, window);
            && Decide(history, now, max, window) == LIMITED(AtLeast(0.1, FreeAt(history, now, window) - now))
            && (Open(history, later, max, window) <==> later >= FreeAt(history, now, window))
  {
    HistoryIsOrdered(calls, client, max, window);
    HistoryIsReached(calls, client, max, window, now);
    AcceptancesAreSpaced(calls, client, max, window);
    FullOpensIff(Accepted(calls, client, max, window), max, window, now, later);
  }

  // ----- a limit that allows nothing -----

  lemma {:induction false} NothingIsStored(calls: seq<Call>, client: string, max: int, window: real)
    requires max <= 0
    ensures Stored(Run(calls, max, window), client) == []
  {
    if calls != [] {
      var front, last := calls[..|calls| - 1], calls[|calls| - 1];
      SplitLast(calls);
      NothingIsStored(front, client, max, window);
      NothingIsStored(front, last.client, max, window);
      RunNext(front, last, client, max, window);
      Seqs.AppendEmpty(Active([], Start(last.now, window)));
    }
  }

  /** After every history, a call fails on the minimum of an empty list exactly when the limit
      allows no request at all. */
  lemma CrashesIff(calls: seq<Call>, call: Call, max: int, window: real)
    ensures LastOutcome(calls + [call], max, window).CRASHED? <==> max <= 0
  {
    RunNext(calls, call, call.client, max, window);
    if max <= 0 {
      NothingIsStored(calls, call.client, max, window);
    }
  }
}
