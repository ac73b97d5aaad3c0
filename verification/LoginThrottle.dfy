/** The two-dimensional login throttle: src/zglab_rag/auth/throttle.py. */
module LoginThrottling {
  import opened Filtering
  import opened SlidingWindow
  import opened Sorting
  import Seqs

  /** The source's "ip:" and "user:" prefixes keep the two kinds of key apart. */
  datatype Key = Ip(address: string) | User(name: string)

  datatype Config = Config(perIp: int, ipWindow: real, perUser: int, userWindow: real)

  /** A login attempt; the user name is already in lower case. */
  datatype Attempt = Attempt(ip: string, user: string, now: real)

  type Table = map<Key, seq<real>>

  function Limit(key: Key, c: Config): int {
    if key.Ip? then c.perIp else c.perUser
  }

  function Window(key: Key, c: Config): real {
    if key.Ip? then c.ipWindow else c.userWindow
  }

  predicate Touches(a: Attempt, key: Key) {
    key == Ip(a.ip) || key == User(a.user)
  }

  function Stored(table: Table, key: Key): seq<real> {
    if key in table then table[key] else []
  }

  /** The user name is judged first; both must have room. */
  function DecideBoth(ipTimes: seq<real>, userTimes: seq<real>, now: real, c: Config): Outcome {
    var byUser := Decide(userTimes, now, c.perUser, c.userWindow);
    if !byUser.ACCEPTED? then byUser else Decide(ipTimes, now, c.perIp, c.ipWindow)
  }

  function OutcomeOf(table: Table, a: Attempt, c: Config): Outcome {
    DecideBoth(Stored(table, Ip(a.ip)), Stored(table, User(a.user)), a.now, c)
  }

  function Checked(table: Table, a: Attempt, c: Config): Table {
    var accepted := OutcomeOf(table, a, c).ACCEPTED?;
    table[Ip(a.ip) := Recorded(Stored(table, Ip(a.ip)), a.now, c.ipWindow, accepted)]
         [User(a.user) := Recorded(Stored(table, User(a.user)), a.now, c.userWindow, accepted)]
  }

  /** The outcome of a list that has no room. */
  function Full(active: seq<real>, window: real, now: real): Outcome {
    if active == [] then CRASHED else LIMITED(AtLeast(0.1, Least(active) + window - now))
  }

  lemma JudgedInTurn(table: Table, a: Attempt, c: Config, ipTimes: seq<real>, userTimes: seq<real>)
    requires ipTimes == Active(Stored(table, Ip(a.ip)), Start(a.now, c.ipWindow))
    requires userTimes == Active(Stored(table, User(a.user)), Start(a.now, c.userWindow))
    ensures OutcomeOf(table, a, c)
         == if |userTimes| >= c.perUser then Full(userTimes, c.userWindow, a.now)
            else if |ipTimes| >= c.perIp then Full(ipTimes, c.ipWindow, a.now)
            else ACCEPTED
  {
  }

  lemma RecordedForBoth(table: Table, a: Attempt, c: Config, ipTimes: seq<real>, userTimes: seq<real>, more: seq<real>)
    requires ipTimes == Active(Stored(table, Ip(a.ip)), Start(a.now, c.ipWindow))
    requires userTimes == Active(Stored(table, User(a.user)), Start(a.now, c.userWindow))
    requires more == if OutcomeOf(table, a, c).ACCEPTED? then [a.now] else []
    ensures Checked(table, a, c) == table[Ip(a.ip) := ipTimes + more][User(a.user) := userTimes + more]
  {
  }

  class LoginThrottle {
    const config: Config
    var attempts: Table

    constructor (config: Config)
      ensures this.config == config && attempts == map[]
    {
      this.config, attempts := config, map[];
    }

    method Prune(key: Key, now: real, window: real) returns (times: seq<real>)
      modifies this
      ensures times == Active(Stored(old(attempts), key), Start(now, window))
      ensures attempts == old(attempts)[key := times]
    {
      times := if key in attempts then attempts[key] else [];
      times := Active(times, Start(now, window));
      attempts := attempts[key := times];
    }

    method RetryAfter(times: seq<real>, window: real, now: real) returns (outcome: Outcome)
      ensures outcome == Full(times, window, now)
    {
      if times == [] {
        return CRASHED;
      }
      var oldest := times[0];
      for i := 0 to |times|
        invariant oldest in times && forall j :: 0 <= j < i ==> oldest <= times[j]
      {
        if times[i] < oldest {
          oldest := times[i];
        }
      }
      outcome := LIMITED(AtLeast(0.1, oldest + window - now));
    }

    method CheckAndRecord(ip: string, user: string, now: real) returns (outcome: Outcome)
      modifies this
      ensures outcome == OutcomeOf(old(attempts), Attempt(ip, user, now), config)
      ensures attempts == Checked(old(attempts), Attempt(ip, user, now), config)
    {
      var ipTimes := Prune(Ip(ip), now, config.ipWindow);
      var userTimes := Prune(User(user), now, config.userWindow);
      ghost var attempt := Attempt(ip, user, now);
      ghost var more := if OutcomeOf(old(attempts), attempt, config).ACCEPTED? then [now] else [];
      JudgedInTurn(old(attempts), attempt, config, ipTimes, userTimes);
      RecordedForBoth(old(attempts), attempt, config, ipTimes, userTimes, more);
      Seqs.AppendEmpty(ipTimes);
      Seqs.AppendEmpty(userTimes);
      if |userTimes| >= config.perUser {
        outcome := RetryAfter(userTimes, config.userWindow, now);
        return;
      }
      if |ipTimes| >= config.perIp {
        outcome := RetryAfter(ipTimes, config.ipWindow, now);
        return;
      }
      attempts := attempts[Ip(ip) := ipTimes + [now]];
      attempts := attempts[User(user) := userTimes + [now]];
      outcome := ACCEPTED;
    }
  }

  // ----- whole histories -----

  function Run(attempts: seq<Attempt>, c: Config): Table {
    if attempts == [] then map[] else Checked(Run(attempts[..|attempts| - 1], c), attempts[|attempts| - 1], c)
  }

  function LastOutcome(attempts: seq<Attempt>, c: Config): Outcome
    requires attempts != []
  {
    OutcomeOf(Run(attempts[..|attempts| - 1], c), attempts[|attempts| - 1], c)
  }

  /** The times of all accepted attempts that touch the key. */
  function Accepted(attempts: seq<Attempt>, key: Key, c: Config): seq<real> {
    if attempts == [] then []
    else
      var before, last := Accepted(attempts[..|attempts| - 1], key, c), attempts[|attempts| - 1];
      if Touches(last, key) && LastOutcome(attempts, c).ACCEPTED? then before + [last.now] else before
  }

  ghost predicate Ordered(attempts: seq<Attempt>) {
    forall i, j :: 0 <= i < j < |attempts| ==> attempts[i].now <= attempts[j].now
  }

  ghost predicate Reached(attempts: seq<Attempt>, now: real) {
    forall i :: 0 <= i < |attempts| ==> attempts[i].now <= now
  }

  ghost predicate StartedBy(attempts: seq<Attempt>, window: real, start: real) {
    forall i :: 0 <= i < |attempts| ==> Start(attempts[i].now, window) <= start
  }

  lemma RunNext(attempts: seq<Attempt>, a: Attempt, key: Key, c: Config)
    ensures Stored(Run(attempts + [a], c), key)
         == if Touches(a, key)
            then Recorded(Stored(Run(attempts, c), key), a.now, Window(key, c),
                          LastOutcome(attempts + [a], c).ACCEPTED?)
            else Stored(Run(attempts, c), key)
    ensures LastOutcome(attempts + [a], c) == OutcomeOf(Run(attempts, c), a, c)
    ensures Accepted(attempts + [a], key, c)
         == if Touches(a, key) && LastOutcome(attempts + [a], c).ACCEPTED?
            then Accepted(attempts, key, c) + [a.now] else Accepted(attempts, key, c)
  {
    Seqs.DropLast(attempts, a);
  }

  /** For any later window a key's stored list and its full history have the same active times. */
  lemma {:induction false} StoredIsPrunedHistory(attempts: seq<Attempt>, key: Key, c: Config, start: real)
    requires StartedBy(attempts, Window(key, c), start)
    ensures Active(Stored(Run(attempts, c), key), start) == Active(Accepted(attempts, key, c), start)
  {
    if attempts != [] {
      var front, last := attempts[..|attempts| - 1], attempts[|attempts| - 1];
      SplitLast(attempts);
      StoredIsPrunedHistory(front, key, c, start);
      RunNext(front, last, key, c);
      if Touches(last, key) {
        var before, history := Stored(Run(front, c), key), Accepted(front, key, c);
        var accepted := LastOutcome(attempts, c).ACCEPTED?;
        RecordedActive(before, history, last.now, Window(key, c), accepted, Start(last.now, Window(key, c)), start);
      }
    }
  }

  lemma KeyDecidedByHistory(attempts: seq<Attempt>, key: Key, now: real, c: Config)
    requires Reached(attempts, now)
    ensures Decide(Stored(Run(attempts, c), key), now, Limit(key, c), Window(key, c))
         == Decide(Accepted(attempts, key, c), now, Limit(key, c), Window(key, c))
  {
    var start := Start(now, Window(key, c));
    StoredIsPrunedHistory(attempts, key, c, start);
    SameActiveDecides(Stored(Run(attempts, c), key), Accepted(attempts, key, c), now, Limit(key, c), Window(key, c));
  }

  /** An attempt is decided as if nothing had ever been pruned. */
  lemma DecidedByHistory(attempts: seq<Attempt>, a: Attempt, c: Config)
    requires Reached(attempts, a.now)
    ensures LastOutcome(attempts + [a], c)
         == DecideBoth(Accepted(attempts, Ip(a.ip), c), Accepted(attempts, User(a.user), c), a.now, c)
  {
    RunNext(attempts, a, Ip(a.ip), c);
    KeyDecidedByHistory(attempts, Ip(a.ip), a.now, c);
    KeyDecidedByHistory(attempts, User(a.user), a.now, c);
  }

  lemma {:induction false} HistoryIsReached(attempts: seq<Attempt>, key: Key, c: Config, now: real)
    requires Reached(attempts, now)
    ensures forall i :: 0 <= i < |Accepted(attempts, key, c)| ==> Accepted(attempts, key, c)[i] <= now
  {
    if attempts != [] {
      var front, last := attempts[..|attempts| - 1], attempts[|attempts| - 1];
      SplitLast(attempts);
      HistoryIsReached(front, key, c, now);
      RunNext(front, last, key, c);
    }
  }

  lemma {:induction false} HistoryIsOrdered(attempts: seq<Attempt>, key: Key, c: Config)
    requires Ordered(attempts)
    ensures Ascending(Accepted(attempts, key, c))
  {
    if attempts != [] {
      var front, last := attempts[..|attempts| - 1], attempts[|attempts| - 1];
      HistoryIsOrdered(front, key, c);
      HistoryIsReached(front, key, c, last.now);
      AscendingMore(Accepted(front, key, c), last.now);
    }
  }

  lemma AcceptedIsOpen(attempts: seq<Attempt>, a: Attempt, key: Key, c: Config)
    requires Reached(attempts, a.now) && Touches(a, key) && LastOutcome(attempts + [a], c).ACCEPTED?
    ensures Open(Accepted(attempts, key, c), a.now, Limit(key, c), Window(key, c))
  {
    DecidedByHistory(attempts, a, c);
  }

  /** In every history, for each address and each user name, one more acceptance than its limit
      spans at least its window. */
  lemma {:induction false} AcceptancesAreSpaced(attempts: seq<Attempt>, key: Key, c: Config)
    requires Ordered(attempts)
    ensures Spaced(Accepted(attempts, key, c), Limit(key, c), Window(key, c))
  {
    if attempts != [] {
      var front, last := attempts[..|attempts| - 1], attempts[|attempts| - 1];
      AcceptancesAreSpaced(front, key, c);
      if Touches(last, key) && LastOutcome(attempts, c).ACCEPTED? {
        SplitLast(attempts);
        HistoryIsOrdered(front, key, c);
        AcceptedIsOpen(front, last, key, c);
        AcceptStaysSpaced(Accepted(front, key, c), Limit(key, c), Window(key, c), last.now);
      }
    }
  }

  /** In every history, no window of an address or a user name holds more acceptances than its limit. */
  lemma WindowsHoldAtMostLimit(attempts: seq<Attempt>, key: Key, c: Config, from: real, to: real)
    requires Ordered(attempts) && Limit(key, c) >= 0 && from <= to <= from + Window(key, c)
    ensures |Filter(Accepted(attempts, key, c), Between(from, to))| <= Limit(key, c)
  {
    HistoryIsOrdered(attempts, key, c);
    AcceptancesAreSpaced(attempts, key, c);
    WindowHoldsAtMost(Accepted(attempts, key, c), Limit(key, c), Window(key, c), from, to);
  }

  /** A full list names the time it opens again, and opens then. */
  ghost predicate OpensOnTime(history: seq<real>, max: int, window: real, now: real, later: real) {
    !Open(history, now, max, window) ==>
      && Decide(history, now, max, window) == LIMITED(AtLeast(0.1, FreeAt(history, now, window) - now))
      && (Open(history, later, max, window) <==> later >= FreeAt(history, now, window))
  }

  lemma HistoryFacts(attempts: seq<Attempt>, key: Key, c: Config, now: real, history: seq<real>)
    requires Ordered(attempts) && Reached(attempts, now) && history == Accepted(attempts, key, c)
    ensures Ascending(history) && Spaced(history, Limit(key, c), Window(key, c))
    ensures forall i :: 0 <= i < |history| ==> history[i] <= now
  {
    HistoryIsOrdered(attempts, key, c);
    HistoryIsReached(attempts, key, c, now);
    AcceptancesAreSpaced(attempts, key, c);
  }

  lemma KeyOpensOnTime(attempts: seq<Attempt>, key: Key, c: Config, max: int, window: real, now: real, later: real,
                       history: seq<real>)
    requires max == Limit(key, c) > 0 && window == Window(key, c) && now <= later
    requires Ordered(attempts) && Reached(attempts, now) && history == Accepted(attempts, key, c)
    ensures OpensOnTime(history, max, window, now, later)
  {
    HistoryFacts(attempts, key, c, now, history);
    if !Open(history, now, max, window) {
      FullOpensIff(history, max, window, now, later);
    }
  }

  lemma BothOpen(ipTimes: seq<real>, userTimes: seq<real>, now: real, c: Config)
    ensures DecideBoth(ipTimes, userTimes, now, c).ACCEPTED?
        <==> Open(ipTimes, now, c.perIp, c.ipWindow) && Open(userTimes, now, c.perUser, c.userWindow)
    ensures !Open(userTimes, now, c.perUser, c.userWindow) ==>
      DecideBoth(ipTimes, userTimes, now, c) == Decide(userTimes, now, c.perUser, c.userWindow)
    ensures Open(userTimes, now, c.perUser, c.userWindow) ==>
      DecideBoth(ipTimes, userTimes, now, c) == Decide(ipTimes, now, c.perIp, c.ipWindow)
  {
  }

  /** An attempt is accepted exactly when both its address and its user name had fewer acceptances
      within their windows than their limits. */
  lemma AcceptedIff(attempts: seq<Attempt>, a: Attempt, c: Config)
    requires Reached(attempts, a.now)
    ensures LastOutcome(attempts + [a], c).ACCEPTED?
        <==> |Recent(Accepted(attempts, Ip(a.ip), c), a.now, c.ipWindow)| < c.perIp
             && |Recent(Accepted(attempts, User(a.user), c), a.now, c.userWindow)| < c.perUser
  {
    var ipTimes, userTimes := Accepted(attempts, Ip(a.ip), c), Accepted(attempts, User(a.user), c);
    DecidedByHistory(attempts, a, c);
    BothOpen(ipTimes, userTimes, a.now, c);
    OpenIff(ipTimes, a.now, c.perIp, c.ipWindow);
    OpenIff(userTimes, a.now, c.perUser, c.userWindow);
  }

  /** When the key that was judged full is free again: the user name if it was full, else the address. */
  function FreeAgain(ipTimes: seq<real>, userTimes: seq<real>, now: real, c: Config): real {
    if !Open(userTimes, now, c.perUser, c.userWindow) then FreeAt(userTimes, now, c.userWindow)
    else FreeAt(ipTimes, now, c.ipWindow)
  }

  /** The other key has room at the later time. */
  predicate OtherOpen(ipTimes: seq<real>, userTimes: seq<real>, now: real, later: real, c: Config) {
    if !Open(userTimes, now, c.perUser, c.userWindow) then Open(ipTimes, later, c.perIp, c.ipWindow)
    else Open(userTimes, later, c.perUser, c.userWindow)
  }

  lemma BothOpenAgain(ipTimes: seq<real>, userTimes: seq<real>, now: real, later: real, c: Config)
    requires OpensOnTime(ipTimes, c.perIp, c.ipWindow, now, later)
    requires OpensOnTime(userTimes, c.perUser, c.userWindow, now, later)
    requires !DecideBoth(ipTimes, userTimes, now, c).ACCEPTED?
    ensures DecideBoth(ipTimes, userTimes, now, c) == LIMITED(AtLeast(0.1, FreeAgain(ipTimes, userTimes, now, c) - now))
    ensures DecideBoth(ipTimes, userTimes, later, c).ACCEPTED?
        <==> later >= FreeAgain(ipTimes, userTimes, now, c) && OtherOpen(ipTimes, userTimes, now, later, c)
  {
    BothOpen(ipTimes, userTimes, now, c);
    BothOpen(ipTimes, userTimes, later, c);
  }

  /** A rejection names the time when the judging key is free again.  With no acceptance of
      either key since, a retry is accepted exactly when it is not before that time and the
      other key has room then. */
  lemma RetryIff(attempts: seq<Attempt>, a: Attempt, later: seq<Attempt>, retry: Attempt, c: Config,
                 ipTimes: seq<real>, userTimes: seq<real>)
    requires Ordered(attempts) && Reached(attempts, a.now) && Reached(later, retry.now)
    requires retry.ip == a.ip && retry.user == a.user && a.now <= retry.now && c.perUser > 0 && c.perIp > 0
    requires ipTimes == Accepted(attempts, Ip(a.ip), c) == Accepted(later, Ip(a.ip), c)
    requires userTimes == Accepted(attempts, User(a.user), c) == Accepted(later, User(a.user), c)
    requires !LastOutcome(attempts + [a], c).ACCEPTED?
    ensures LastOutcome(attempts + [a], c) == LIMITED(AtLeast(0.1, FreeAgain(ipTimes, userTimes, a.now, c) - a.now))
    ensures LastOutcome(later + [retry], c).ACCEPTED?
        <==> retry.now >= FreeAgain(ipTimes, userTimes, a.now, c) && OtherOpen(ipTimes, userTimes, a.now, retry.now, c)
  {
    DecidedByHistory(attempts, a, c);
    DecidedByHistory(later, retry, c);
    KeyOpensOnTime(attempts, User(a.user), c, c.perUser, c.userWindow, a.now, retry.now, userTimes);
    KeyOpensOnTime(attempts, Ip(a.ip), c, c.perIp, c.ipWindow, a.now, retry.now, ipTimes);
    BothOpenAgain(ipTimes, userTimes, a.now, retry.now, c);
  }

  // ----- limits that allow nothing -----

  lemma {:induction false} NothingIsStored(attempts: seq<Attempt>, key: Key, c: Config)
    requires c.perUser <= 0 || c.perIp <= 0
    ensures Stored(Run(attempts, c), key) == []
  {
    if attempts != [] {
      var front, last := attempts[..|attempts| - 1], attempts[|attempts| - 1];
      SplitLast(attempts);
      NothingIsStored(front, key, c);
      BothOpen(Stored(Run(front, c), Ip(last.ip)), Stored(Run(front, c), User(last.user)), last.now, c);
      RunNext(front, last, key, c);
      Seqs.AppendEmpty(Active([], Start(last.now, Window(key, c))));
    }
  }

  lemma EmptyCrashesIff(now: real, c: Config)
    ensures DecideBoth([], [], now, c).CRASHED? <==> c.perUser <= 0 || c.perIp <= 0
  {
  }

  /** After every history, an attempt fails on the minimum of an empty list exactly when one of
      the two limits allows no attempt at all. */
  lemma CrashesIff(attempts: seq<Attempt>, a: Attempt, c: Config)
    ensures LastOutcome(attempts + [a], c).CRASHED? <==> c.perUser <= 0 || c.perIp <= 0
  {
    RunNext(attempts, a, Ip(a.ip), c);
    if c.perUser <= 0 || c.perIp <= 0 {
      NothingIsStored(attempts, Ip(a.ip), c);
      NothingIsStored(attempts, User(a.user), c);
      EmptyCrashesIff(a.now, c);
    }
  }
}
