/** The breaker that suspends learning when rollbacks come too often.

    Each operation reads the clock where the source does; the readings are parameters, in
    milliseconds. */
module RollbackBreaker {
  const MAX_ROLLBACKS := 3
  const WINDOW_DURATION_MS := 3600000.0

  /** The three clock readings of one recorded rollback. */
  datatype Rollback = Rollback(at: real, cleanedAt: real, suspendedAt: real) {
    predicate Ordered() { at <= cleanedAt <= suspendedAt }
  }

  ghost predicate Chronological(history: seq<Rollback>) {
    && (forall r | r in history :: r.Ordered())
    && (forall i, j | 0 <= i < j < |history| :: history[i].suspendedAt <= history[j].at)
  }

  /** The times of the rollbacks that are later than the cutoff, in order. */
  function Later(times: seq<real>, cutoff: real): (r: seq<real>)
    ensures |r| <= |times|
  {
    if times == [] then [] else (if times[0] > cutoff then [times[0]] else []) + Later(times[1..], cutoff)
  }

  function Times(history: seq<Rollback>): (r: seq<real>)
    ensures |r| == |history|
  {
    seq(|history|, i requires 0 <= i < |history| => history[i].at)
  }

  /** Rollback k is overloaded when it is the fourth or a later one of the window before it. */
  ghost predicate Overloaded(history: seq<Rollback>, k: nat) {
    k < |history| && |Later(Times(history[..k + 1]), history[k].cleanedAt - WINDOW_DURATION_MS)| > MAX_ROLLBACKS
  }

  /** An overloaded rollback blocks learning for one window. */
  ghost predicate Blocked(history: seq<Rollback>, now: real) {
    exists k: nat :: Overloaded(history, k) && now <= history[k].suspendedAt + WINDOW_DURATION_MS
  }

  /** The flag is set by the latest overloaded rollback and cleared only after its window. */
  ghost predicate Explained(history: seq<Rollback>, suspended: bool, until: real, clock: real) {
    if suspended then
      exists k: nat ::
        && Overloaded(history, k) && until == history[k].suspendedAt + WINDOW_DURATION_MS
        && forall j: nat | Overloaded(history, j) :: j <= k
    else
      forall k: nat | Overloaded(history, k) :: history[k].suspendedAt + WINDOW_DURATION_MS < clock
  }

  lemma FlagAtLaterTime(history: seq<Rollback>, suspended: bool, until: real, clock: real, now: real)
    requires Chronological(history) && Explained(history, suspended, until, clock) && clock <= now
    ensures Explained(history, suspended && now <= until, until, now)
    ensures suspended && now <= until <==> Blocked(history, now)
    ensures Explained(history, suspended, until, now)
  {
    hide Overloaded;
    assert forall k: nat | Overloaded(history, k) :: k < |history| by { OverloadedIsIndex(history); }
    if suspended {
      var k: nat :| Overloaded(history, k) && until == history[k].suspendedAt + WINDOW_DURATION_MS
        && forall j: nat | Overloaded(history, j) :: j <= k;
      forall j: nat | Overloaded(history, j) ensures history[j].suspendedAt <= history[k].suspendedAt {
        assert history[k] in history && history[k].Ordered();
      }
    }
  }

  lemma OverloadedIsIndex(history: seq<Rollback>)
    ensures forall k: nat | Overloaded(history, k) :: k < |history|
  {
  }

  lemma FlagAfterRollback(before: seq<Rollback>, event: Rollback, suspended: bool, until: real, clock: real, count: nat)
    requires Explained(before, suspended, until, clock) && clock <= event.suspendedAt
    requires count == |Later(Times(before + [event]), event.cleanedAt - WINDOW_DURATION_MS)|
    ensures count > MAX_ROLLBACKS ==>
              Explained(before + [event], true, event.suspendedAt + WINDOW_DURATION_MS, event.suspendedAt)
    ensures count <= MAX_ROLLBACKS ==> Explained(before + [event], suspended, until, event.suspendedAt)
  {
    var history := before + [event];
    assert history[..|before| + 1] == history;
    assert Overloaded(history, |before|) <==> count > MAX_ROLLBACKS;
    OverloadedPrefix(before, event);
    OverloadedIsIndex(before);
    OverloadedIsIndex(history);
    hide Overloaded;
    if count > MAX_ROLLBACKS {
      assert forall j: nat | Overloaded(history, j) :: j <= |before|;
    } else if suspended {
      var k: nat :| Overloaded(before, k) && until == before[k].suspendedAt + WINDOW_DURATION_MS
        && forall j: nat | Overloaded(before, j) :: j <= k;
      assert Overloaded(history, k);
    } else {
      forall k: nat | Overloaded(history, k)
        ensures history[k].suspendedAt + WINDOW_DURATION_MS < event.suspendedAt
      {
        assert k < |before| && Overloaded(before, k);
      }
    }
  }

  class RollbackCircuitBreaker {
    var rollbackTimes: seq<real>
    var suspended: bool
    var suspensionUntil: real
    ghost var history: seq<Rollback>
    ghost var clock: real
    ghost var cutoff: real

    ghost predicate Valid()
      reads this
    {
      && Chronological(history)
      && (forall r | r in history :: r.suspendedAt <= clock)
      && cutoff + WINDOW_DURATION_MS <= clock
      && rollbackTimes == Later(Times(history), cutoff)
      && Explained(history, suspended, suspensionUntil, clock)
    }

    constructor (now: real)
      ensures Valid() && history == [] && clock == now
    {
      rollbackTimes, suspended, suspensionUntil := [], false, 0.0;
      history, clock, cutoff := [], now, now - WINDOW_DURATION_MS;
    }

    method CleanupOld(now: real)
      requires Valid() && clock <= now
      modifies `rollbackTimes, `clock, `cutoff
      ensures Valid() && clock == now
      ensures rollbackTimes == Later(Times(history), now - WINDOW_DURATION_MS)
    {
      hide Later;
      hide Explained;
      LaterTwice(Times(history), cutoff, now - WINDOW_DURATION_MS);
      FlagAtLaterTime(history, suspended, suspensionUntil, clock, now);
      rollbackTimes := Later(rollbackTimes, now - WINDOW_DURATION_MS);
      clock, cutoff := now, now - WINDOW_DURATION_MS;
    }

    method RecordRollback(event: Rollback)
      requires Valid() && event.Ordered() && clock <= event.at
      modifies this
      ensures Valid() && history == old(history) + [event] && clock == event.suspendedAt
      // The list after cleanup is the whole history filtered to the last window.
      ensures rollbackTimes == Later(Times(history), event.cleanedAt - WINDOW_DURATION_MS)
    {
      hide Later;
      hide Explained;
      ghost var before := history;
      Appended(before, event, cutoff);
      rollbackTimes := rollbackTimes + [event.at];
      history := history + [event];
      rollbackTimes := Later(rollbackTimes, event.cleanedAt - WINDOW_DURATION_MS);
      cutoff := event.cleanedAt - WINDOW_DURATION_MS;
      FlagAfterRollback(before, event, suspended, suspensionUntil, clock, |rollbackTimes|);
      clock := event.suspendedAt;
      if |rollbackTimes| > MAX_ROLLBACKS {
        suspended := true;
        suspensionUntil := event.suspendedAt + WINDOW_DURATION_MS;
      }
    }

    method CanCommit(now: real) returns (allowed: bool)
      requires Valid() && clock <= now
      modifies `suspended, `clock
      ensures Valid() && clock == now
      ensures allowed <==> !Blocked(history, now)
      ensures allowed <==> forall k | 3 <= k < |history| && FourInWindow(history, k) ::
                  now > history[k].suspendedAt + WINDOW_DURATION_MS
    {
      BlockedIffFourInWindow(history, now);
      hide FourInWindow;
      hide Explained;
      hide Blocked;
      FlagAtLaterTime(history, suspended, suspensionUntil, clock, now);
      if suspended && now > suspensionUntil {
        suspended := false;
      }
      clock := now;
      allowed := !suspended;
    }

    method RollbackCountInWindow(now: real) returns (n: nat)
      requires Valid() && clock <= now
      modifies `rollbackTimes, `clock, `cutoff
      ensures Valid() && clock == now
      ensures n == |set k | 0 <= k < |history| && now - history[k].at < WINDOW_DURATION_MS|
    {
      CleanupOld(now);
      LaterCounts(Times(history), now - WINDOW_DURATION_MS);
      assert (set k | 0 <= k < |history| && now - history[k].at < WINDOW_DURATION_MS)
             == PlacesLater(Times(history), now - WINDOW_DURATION_MS);
      n := |rollbackTimes|;
    }
  }

  lemma {:induction false} LaterTwice(times: seq<real>, low: real, high: real)
    requires low <= high
    ensures Later(Later(times, low), high) == Later(times, high)
  {
    if times != [] {
      LaterTwice(times[1..], low, high);
      var rest := Later(times[1..], low);
      if times[0] > low {
        assert Later(times, low) == [times[0]] + rest && ([times[0]] + rest)[1..] == rest;
      } else {
        assert Later(times, low) == rest && Later(times, high) == Later(times[1..], high);
      }
    }
  }

  lemma {:induction false} LaterAppend(a: seq<real>, b: seq<real>, cutoff: real)
    ensures Later(a + b, cutoff) == Later(a, cutoff) + Later(b, cutoff)
  {
    if a == [] {
      assert a + b == b;
    } else {
      assert (a + b)[1..] == a[1..] + b;
      LaterAppend(a[1..], b, cutoff);
    }
  }

  ghost function PlacesLater(times: seq<real>, cutoff: real): set<int> {
    set k | 0 <= k < |times| && times[k] > cutoff
  }

  lemma {:induction false} LaterCounts(times: seq<real>, cutoff: real)
    ensures |Later(times, cutoff)| == |PlacesLater(times, cutoff)|
  {
    if times != [] {
      var last := |times| - 1;
      var front := times[..last];
      LaterCounts(front, cutoff);
      assert times == front + [times[last]];
      LaterAppend(front, [times[last]], cutoff);
      var places := PlacesLater(front, cutoff);
      assert last !in places;
      assert PlacesLater(times, cutoff) == if times[last] > cutoff then places + {last} else places;
    }
  }

  /** Of times in order, more than `n` are later than the cutoff exactly when the one `n` places
      before the last is. */
  lemma {:induction false} SortedLater(times: seq<real>, cutoff: real, n: nat)
    requires forall i, j | 0 <= i < j < |times| :: times[i] <= times[j]
    ensures |Later(times, cutoff)| > n <==> |times| > n && times[|times| - 1 - n] > cutoff
  {
    if times != [] {
      SortedLater(times[1..], cutoff, n);
      if times[0] > cutoff { LaterAll(times, cutoff); }
    }
  }

  lemma {:induction false} LaterAll(times: seq<real>, cutoff: real)
    requires forall i | 0 <= i < |times| :: times[i] > cutoff
    ensures Later(times, cutoff) == times
  {
    if times != [] {
      LaterAll(times[1..], cutoff);
      assert times == [times[0]] + times[1..];
    }
  }

  /** The third rollback before this one is in its window too. */
  ghost predicate FourInWindow(history: seq<Rollback>, k: int)
    requires 3 <= k < |history|
  {
    history[k].cleanedAt - history[k - 3].at < WINDOW_DURATION_MS
  }

  /** A rollback is overloaded exactly when it is the fourth of a window. */
  lemma OverloadedIffFourInWindow(history: seq<Rollback>, k: nat)
    requires Chronological(history)
    ensures Overloaded(history, k) <==> 3 <= k < |history| && FourInWindow(history, k)
  {
    if k < |history| {
      var times := Times(history[..k + 1]);
      forall i, j | 0 <= i < j < |times| ensures times[i] <= times[j] {
        assert history[i] in history && history[i].Ordered();
      }
      SortedLater(times, history[k].cleanedAt - WINDOW_DURATION_MS, 3);
    }
  }

  /** Learning is blocked exactly until a window after the last rollback that was the fourth of
      a window. */
  lemma BlockedIffFourInWindow(history: seq<Rollback>, now: real)
    requires Chronological(history)
    ensures Blocked(history, now) <==> exists k | 3 <= k < |history| && FourInWindow(history, k) ::
                now <= history[k].suspendedAt + WINDOW_DURATION_MS
  {
    forall k: nat ensures Overloaded(history, k) <==> 3 <= k < |history| && FourInWindow(history, k) {
      OverloadedIffFourInWindow(history, k);
    }
    hide Overloaded;
    hide Chronological;
    hide FourInWindow;
  }

  lemma Appended(before: seq<Rollback>, event: Rollback, low: real)
    requires event.Ordered() && low <= event.cleanedAt - WINDOW_DURATION_MS
    ensures Later(Later(Times(before), low) + [event.at], event.cleanedAt - WINDOW_DURATION_MS)
            == Later(Times(before + [event]), event.cleanedAt - WINDOW_DURATION_MS)
  {
    var high := event.cleanedAt - WINDOW_DURATION_MS;
    LaterAppend(Later(Times(before), low), [event.at], high);
    LaterTwice(Times(before), low, high);
    LaterAppend(Times(before), [event.at], high);
    assert Times(before + [event]) == Times(before) + [event.at];
  }

  lemma OverloadedPrefix(before: seq<Rollback>, event: Rollback)
    ensures forall k: nat | k < |before| :: Overloaded(before + [event], k) <==> Overloaded(before, k)
  {
    forall k: nat | k < |before| ensures Overloaded(before + [event], k) <==> Overloaded(before, k) {
      assert (before + [event])[..k + 1] == before[..k + 1];
    }
  }

  /** When learning is allowed, no rollback of the last window was the fourth of its own. */
  lemma AllowedMeansCalmWindow(history: seq<Rollback>, now: real, k: nat)
    requires Chronological(history) && !Blocked(history, now)
    requires k < |history| && now - WINDOW_DURATION_MS <= history[k].at
    ensures |Later(Times(history[..k + 1]), history[k].cleanedAt - WINDOW_DURATION_MS)| <= MAX_ROLLBACKS
  {
    assert history[k] in history && history[k].Ordered();
  }
}
