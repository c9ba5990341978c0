/**
 Draining upgraded connections at shutdown (`drain_upgrades` in src/proxy.rs). Time is idealised:
 a session that ends at its deadline is still awaited to its end.
 */
module Drain {

  /** When a session's task ends, in seconds. */
  datatype Ending = At(time: real) | Never

  const DRAIN_TIMEOUT: real := 5.0

  predicate EndsBy(session: Ending, deadline: real) {
    session.At? && session.time <= deadline
  }

  /** When waiting for `session` from `now` on is over, with the timeout. */
  function Waited(now: real, session: Ending): real {
    if !EndsBy(session, now + DRAIN_TIMEOUT) then now + DRAIN_TIMEOUT
    else if session.time > now then session.time
    else now
  }

  /** When the turn of each session begins; the last entry is when the drain is over. */
  function Turns(now: real, sessions: seq<Ending>): (turns: seq<real>)
    ensures |turns| == |sessions| + 1 && turns[0] == now
    decreases |sessions|
  {
    if |sessions| == 0 then [now] else [now] + Turns(Waited(now, sessions[0]), sessions[1..])
  }

  function Over(now: real, sessions: seq<Ending>): real {
    Turns(now, sessions)[|sessions|]
  }

  class UpgradeTasks {
    var handles: seq<Ending>

    constructor ()
      ensures handles == []
    {
      handles := [];
    }

    /** An accepted upgrade leaves its handle. */
    method Track(handle: Ending)
      modifies this
      ensures handles == old(handles) + [handle]
    {
      handles := handles + [handle];
    }

    /**
     Takes the handles and waits for each in turn. `completed` says which were awaited to their
     end; waiting for the others was given up at the end of their turn.
     */
    method DrainUpgrades(start: real) returns (now: real, completed: seq<bool>)
      modifies this
      ensures handles == []
      ensures now == Over(start, old(handles))
      ensures |completed| == |old(handles)|
      ensures forall i :: 0 <= i < |completed| ==>
                completed[i] == EndsBy(old(handles)[i], Turns(start, old(handles))[i] + DRAIN_TIMEOUT)
    {
      var taken := handles;
      handles := [];
      now, completed := start, [];
      for i := 0 to |taken|
        invariant |completed| == i && handles == []
        invariant now == Turns(start, taken)[i]
        invariant forall k :: 0 <= k < i ==> completed[k] == EndsBy(taken[k], Turns(start, taken)[k] + DRAIN_TIMEOUT)
      {
        TurnAfter(start, taken, i);
        if EndsBy(taken[i], now + DRAIN_TIMEOUT) {
          if taken[i].time > now {
            now := taken[i].time;
          }
          completed := completed + [true];
        } else {
          now := now + DRAIN_TIMEOUT;
          completed := completed + [false];
        }
      }
    }
  }

  lemma {:induction false} TurnAfter(now: real, sessions: seq<Ending>, i: nat)
    requires i < |sessions|
    ensures Turns(now, sessions)[i + 1] == Waited(Turns(now, sessions)[i], sessions[i])
    decreases i
  {
    if i > 0 {
      TurnAfter(Waited(now, sessions[0]), sessions[1..], i - 1);
    }
  }

  /** No turn begins before the drain does, and the k-th at most k timeouts after it. */
  lemma {:induction false} TurnBounds(now: real, sessions: seq<Ending>, k: nat)
    requires k <= |sessions|
    ensures now <= Turns(now, sessions)[k] <= now + DRAIN_TIMEOUT * (k as real)
  {
    if k > 0 {
      TurnBounds(now, sessions, k - 1);
      TurnAfter(now, sessions, k - 1);
    }
  }

  lemma {:induction false} TurnsAreOrdered(now: real, sessions: seq<Ending>, i: nat, k: nat)
    requires i <= k <= |sessions|
    ensures Turns(now, sessions)[i] <= Turns(now, sessions)[k]
  {
    if i < k {
      TurnsAreOrdered(now, sessions, i, k - 1);
      TurnAfter(now, sessions, k - 1);
    }
  }

  /** While sessions end by `last`, turns begin by then too. */
  lemma {:induction false} TurnsStayBefore(now: real, sessions: seq<Ending>, first: nat, last: real, k: nat)
    requires first <= k <= |sessions| && Turns(now, sessions)[first] <= last
    requires forall i :: first <= i < k ==> EndsBy(sessions[i], last)
    ensures Turns(now, sessions)[k] <= last
  {
    if first < k {
      TurnsStayBefore(now, sessions, first, last, k - 1);
      TurnAfter(now, sessions, k - 1);
    }
  }

  /** The drain is over within five seconds per session, and by the latest end if all of them end. */
  lemma DrainIsBounded(now: real, sessions: seq<Ending>, last: real)
    ensures now <= Over(now, sessions) <= now + 5.0 * (|sessions| as real)
    ensures now <= last && (forall i :: 0 <= i < |sessions| ==> EndsBy(sessions[i], last)) ==>
              Over(now, sessions) <= last
  {
    TurnBounds(now, sessions, |sessions|);
    if now <= last && forall i :: 0 <= i < |sessions| ==> EndsBy(sessions[i], last) {
      TurnsStayBefore(now, sessions, 0, last, |sessions|);
    }
  }

  /** The first bound is reached: the five seconds are for each session, not for the drain. */
  lemma {:induction false} BoundIsReached(now: real, sessions: seq<Ending>)
    requires forall i :: 0 <= i < |sessions| ==> sessions[i] == Never
    ensures Over(now, sessions) == now + 5.0 * (|sessions| as real)
    decreases |sessions|
  {
    if |sessions| > 0 {
      BoundIsReached(now + DRAIN_TIMEOUT, sessions[1..]);
    }
  }

  /** Before session `i` nothing is waited for, and after it nothing beyond the window. */
  predicate AloneInWindow(now: real, sessions: seq<Ending>, i: nat)
    requires i < |sessions|
  {
    && (forall j :: 0 <= j < i ==> EndsBy(sessions[j], now))
    && (forall j :: i < j < |sessions| ==> EndsBy(sessions[j], now + 5.0))
  }

  lemma LongSessionIsAlone(now: real, sessions: seq<Ending>, i: nat)
    requires i < |sessions| && !EndsBy(sessions[i], now + 5.0) && Over(now, sessions) <= now + 5.0
    ensures AloneInWindow(now, sessions, i)
  {
    TurnBounds(now, sessions, i);
    TurnAfter(now, sessions, i);
    TurnsAreOrdered(now, sessions, i + 1, |sessions|);
    assert Turns(now, sessions)[i] == now;
    forall j | 0 <= j < i ensures EndsBy(sessions[j], now) {
      TurnBounds(now, sessions, j);
      TurnAfter(now, sessions, j);
      TurnsAreOrdered(now, sessions, j + 1, i);
    }
    forall j | i < j < |sessions| ensures EndsBy(sessions[j], now + 5.0) {
      TurnsAreOrdered(now, sessions, i + 1, j);
      TurnAfter(now, sessions, j);
      TurnsAreOrdered(now, sessions, j + 1, |sessions|);
    }
  }

  lemma AloneStaysInWindow(now: real, sessions: seq<Ending>, i: nat)
    requires i < |sessions| && AloneInWindow(now, sessions, i)
    ensures Over(now, sessions) <= now + 5.0
  {
    TurnsStayBefore(now, sessions, 0, now, i);
    TurnBounds(now, sessions, i);
    TurnAfter(now, sessions, i);
    TurnsStayBefore(now, sessions, i + 1, now + 5.0, |sessions|);
  }

  /**
   The drain stays within one window of five seconds exactly when at most one session outlasts the
   window, and every session before that one had ended when the drain began.
   */
  lemma OneWindow(now: real, sessions: seq<Ending>)
    ensures Over(now, sessions) <= now + 5.0 <==>
            forall i :: 0 <= i < |sessions| && !EndsBy(sessions[i], now + 5.0) ==> AloneInWindow(now, sessions, i)
  {
    if Over(now, sessions) <= now + 5.0 {
      forall i | 0 <= i < |sessions| && !EndsBy(sessions[i], now + 5.0) ensures AloneInWindow(now, sessions, i) {
        LongSessionIsAlone(now, sessions, i);
      }
    } else if forall i :: 0 <= i < |sessions| && !EndsBy(sessions[i], now + 5.0) ==> AloneInWindow(now, sessions, i) {
      if i :| 0 <= i < |sessions| && !EndsBy(sessions[i], now + 5.0) {
        AloneStaysInWindow(now, sessions, i);
      } else {
        DrainIsBounded(now, sessions, now + 5.0);
      }
      assert false;
    }
  }

  /**
   A session that ends within five seconds of the start is awaited to its end, whatever its place
   in the list and however long the others last.
   */
  lemma ShortSessionsComplete(now: real, sessions: seq<Ending>, i: nat)
    requires i < |sessions| && EndsBy(sessions[i], now + 5.0)
    ensures EndsBy(sessions[i], Turns(now, sessions)[i] + DRAIN_TIMEOUT)
    ensures sessions[i].time <= Over(now, sessions)
  {
    TurnBounds(now, sessions, i);
    TurnAfter(now, sessions, i);
    TurnsAreOrdered(now, sessions, i + 1, |sessions|);
  }
}
