/** Lists of accepted times under a sliding window, as kept by the rate limiter and the login
    throttle. */
module SlidingWindow {
  import opened Filtering
  import Seqs

  ghost predicate Ascending(times: seq<real>) {
    forall i, j :: 0 <= i < j < |times| ==> times[i] <= times[j]
  }

  function After(start: real): real -> bool {
    (t: real) => t > start
  }

  /** Where the window that ends now starts. */
  function Start(now: real, window: real): real {
    now - window
  }

  /** The times after the start of the window: what pruning keeps. */
  function Active(times: seq<real>, start: real): seq<real> {
    Filter(times, After(start))
  }

  function Least(times: seq<real>): (t: real)
    requires times != []
    ensures t in times && forall x :: x in times ==> t <= x
  {
    if |times| == 1 then times[0]
    else
      var rest := Least(times[1..]);
      assert times == [times[0]] + times[1..];
      if times[0] <= rest then times[0] else rest
  }

  /** Any `max + 1` consecutive times span at least the window. */
  ghost predicate Spaced(times: seq<real>, max: int, window: real) {
    forall i, j :: 0 <= i <= j < |times| && j == i + max ==> times[j] >= times[i] + window
  }

  /** Pruning twice is pruning once, with the later start. */
  lemma PruneAgain(times: seq<real>, first: real, second: real)
    requires first <= second
    ensures Active(Active(times, first), second) == Active(times, second)
  {
    FilterTwice(times, After(first), After(second), After(second));
  }

  lemma ActiveMore(times: seq<real>, t: real, start: real)
    ensures Active(times + [t], start) == Active(times, start) + if t > start then [t] else []
  {
    Seqs.DropLast(times, t);
  }

  /** Of ascending times, the active ones are the last ones. */
  lemma {:induction false} ActiveIsSuffix(times: seq<real>, start: real) returns (k: nat)
    requires Ascending(times)
    ensures k <= |times| && Active(times, start) == times[k..]
    ensures forall i :: 0 <= i < |times| ==> (times[i] > start <==> i >= k)
  {
    if times == [] {
      k := 0;
    } else {
      var front, last := times[..|times| - 1], times[|times| - 1];
      k := ActiveIsSuffix(front, start);
      assert times == front + [last];
      ActiveMore(front, last, start);
      if last > start {
        assert times[k..] == front[k..] + [last];
      } else {
        k := |times|;
        assert forall i :: 0 <= i < |front| ==> front[i] == times[i] <= last;
        assert Active(front, start) == [] && times[k..] == [];
      }
    }
  }

  /** Accepting when fewer than `max` are active keeps the times spaced. */
  lemma AcceptStaysSpaced(times: seq<real>, max: int, window: real, now: real)
    requires Ascending(times) && Spaced(times, max, window)
    requires |Active(times, Start(now, window))| < max
    ensures Spaced(times + [now], max, window)
  {
    var k := ActiveIsSuffix(times, Start(now, window));
    var all := times + [now];
    forall i, j | 0 <= i <= j < |all| && j == i + max ensures all[j] >= all[i] + window {
      if j == |times| {
        assert i < k;
      }
    }
  }

  function Between(from: real, to: real): real -> bool {
    (t: real) => from < t <= to
  }

  /** The times of a window are consecutive. */
  lemma WindowSlice(times: seq<real>, from: real, to: real) returns (k: nat, l: nat)
    requires Ascending(times) && from <= to
    ensures k <= l <= |times| && |Filter(times, Between(from, to))| == l - k
    ensures forall i :: 0 <= i < |times| ==> (times[i] > from <==> i >= k)
    ensures forall i :: 0 <= i < |times| ==> (times[i] > to <==> i >= l)
  {
    k := ActiveIsSuffix(times, from);
    l := ActiveIsSuffix(times, to);
    assert l < |times| ==> times[l] > from;
    SliceBetween(times, k, l, from, to);
  }

  lemma SliceBetween(times: seq<real>, k: nat, l: nat, from: real, to: real)
    requires k <= l <= |times|
    requires forall i :: 0 <= i < |times| ==> (times[i] > from <==> i >= k)
    requires forall i :: 0 <= i < |times| ==> (times[i] > to <==> i >= l)
    ensures |Filter(times, Between(from, to))| == l - k
  {
    var early, inside, late := times[..k], times[k..l], times[l..];
    var p := Between(from, to);
    assert times == early + (inside + late);
    forall i | 0 <= i < |early| ensures !p(early[i]) {
      assert early[i] == times[i];
    }
    forall i | 0 <= i < |inside| ensures p(inside[i]) {
      assert inside[i] == times[k + i];
    }
    forall i | 0 <= i < |late| ensures !p(late[i]) {
      assert late[i] == times[l + i];
    }
    MiddleKept(early, inside, late, p);
  }

  /** Spaced times have at most `max` members in any window of that length. */
  lemma WindowHoldsAtMost(times: seq<real>, max: int, window: real, from: real, to: real)
    requires Ascending(times) && Spaced(times, max, window) && max >= 0 && from <= to <= from + window
    ensures |Filter(times, Between(from, to))| <= max
  {
    var k, l := WindowSlice(times, from, to);
    if max < l {
      var i, j := l - 1 - max, l - 1;
      assert times[j] >= times[i] + window;
    }
  }

  /** Once the window has passed the oldest active time, fewer are active. */
  lemma OldestLeaves(times: seq<real>, start: real, later: real)
    requires Ascending(times) && Active(times, start) != [] && start <= later
    ensures Least(Active(times, start)) <= later <==> |Active(times, later)| < |Active(times, start)|
  {
    var k := ActiveIsSuffix(times, start);
    var l := ActiveIsSuffix(times, later);
    var active := Active(times, start);
    assert active[0] == times[k] && Least(active) == times[k] by {
      assert forall x :: x in active ==> times[k] <= x;
      assert active[0] in active;
    }
  }

  /** No window ending at or after the last time has more than `max` active times. */
  lemma ActiveAtMostMax(times: seq<real>, max: int, window: real, now: real, start: real)
    requires Ascending(times) && Spaced(times, max, window) && max >= 0 && start == Start(now, window)
    requires forall i :: 0 <= i < |times| ==> times[i] <= now
    ensures |Active(times, start)| <= max
  {
    var k := ActiveIsSuffix(times, start);
    if max < |times| {
      var i, j := |times| - 1 - max, |times| - 1;
      assert times[j] >= times[i] + window;
    }
  }

  /** A full window opens again exactly when it has left the oldest active time behind. */
  lemma OpensAgainIff(times: seq<real>, max: int, window: real, now: real, first: real, later: real, second: real)
    requires Ascending(times) && Spaced(times, max, window) && max > 0
    requires forall i :: 0 <= i < |times| ==> times[i] <= now
    requires first == Start(now, window) && second == Start(later, window) && now <= later
    requires |Active(times, first)| >= max
    ensures Active(times, first) != []
    ensures |Active(times, second)| < max <==> later >= Least(Active(times, first)) + window
  {
    ActiveAtMostMax(times, max, window, now, first);
    OldestLeaves(times, first, second);
  }

  // ----- one check of a list -----

  /** `CRASHED` stands for the ValueError of `min([])`, raised when no request is allowed. */
  datatype Outcome = ACCEPTED | LIMITED(retryAfter: real) | CRASHED

  function AtLeast(a: real, b: real): real {
    if a >= b then a else b
  }

  /** Fewer than `max` requests are in the window ending now. */
  predicate Open(times: seq<real>, now: real, max: int, window: real) {
    |Active(times, Start(now, window))| < max
  }

  /** The places of the times less than a window ago. */
  function Recent(times: seq<real>, now: real, window: real): set<nat> {
    set i: nat | i < |times| && now - times[i] < window
  }

  /** There is room exactly when fewer than `max` times are less than a window ago. */
  lemma OpenIff(times: seq<real>, now: real, max: int, window: real)
    ensures Open(times, now, max, window) <==> |Recent(times, now, window)| < max
  {
    FilterSize(times, After(Start(now, window)));
    assert Recent(times, now, window) == Selected(times, After(Start(now, window)));
  }

  function Decide(times: seq<real>, now: real, max: int, window: real): Outcome {
    if Open(times, now, max, window) then ACCEPTED
    else
      var active := Active(times, Start(now, window));
      if active == [] then CRASHED else LIMITED(AtLeast(0.1, Least(active) + window - now))
  }

  lemma SameActiveDecides(a: seq<real>, b: seq<real>, now: real, max: int, window: real)
    requires Active(a, Start(now, window)) == Active(b, Start(now, window))
    ensures Decide(a, now, max, window) == Decide(b, now, max, window)
    ensures Open(a, now, max, window) == Open(b, now, max, window)
  {
  }

  /** The list after a check: pruned, and extended when the call is accepted. */
  function Recorded(times: seq<real>, now: real, window: real, accepted: bool): seq<real> {
    Active(times, Start(now, window)) + if accepted then [now] else []
  }

  /** Pruning before recording does not change what is active later. */
  lemma RecordedActive(before: seq<real>, history: seq<real>, now: real, window: real, accepted: bool, first: real,
                       start: real)
    requires Active(before, start) == Active(history, start) && first == Start(now, window) && first <= start
    ensures Active(Recorded(before, now, window, accepted), start)
         == Active(if accepted then history + [now] else history, start)
  {
    PruneAgain(before, first, start);
    ActiveMore(Active(before, first), now, start);
    ActiveMore(history, now, start);
    Seqs.AppendEmpty(Active(before, first));
  }

  lemma AscendingMore(times: seq<real>, now: real)
    requires Ascending(times) && forall i :: 0 <= i < |times| ==> times[i] <= now
    ensures Ascending(times + [now])
  {
  }

  /** When the oldest request in the window ending now leaves it. */
  function FreeAt(times: seq<real>, now: real, window: real): real {
    var active := Active(times, Start(now, window));
    if active == [] then now else Least(active) + window
  }

  lemma FullOpensIff(history: seq<real>, max: int, window: real, now: real, later: real)
    requires Ascending(history) && Spaced(history, max, window) && max > 0 && now <= later
    requires forall i :: 0 <= i < |history| ==> history[i] <= now
    requires !Open(history, now, max, window)
    ensures Decide(history, now, max, window) == LIMITED(AtLeast(0.1, FreeAt(history, now, window) - now))
    ensures Open(history, later, max, window) <==> later >= FreeAt(history, now, window)
  {
    OpensAgainIff(history, max, window, now, Start(now, window), later, Start(later, window));
  }
}
