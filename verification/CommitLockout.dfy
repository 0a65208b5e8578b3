/** The sliding window that locks an examiner out after failed re-authentications, on a clock
    of whole seconds. */
module CommitLockout {
  import opened Options

  const MAX_ATTEMPTS: nat := 3
  const LOCKOUT_SECONDS: int := 900

  predicate InWindow(t: int, now: int) {
    now - t < LOCKOUT_SECONDS
  }

  function Recent(failures: seq<int>, now: int): nat {
    if failures == [] then 0
    else Recent(failures[..|failures|-1], now) + (if InWindow(failures[|failures|-1], now) then 1 else 0)
  }

  predicate LockedOut(failures: seq<int>, now: int) {
    Recent(failures, now) >= MAX_ATTEMPTS
  }

  class Lockouts {
    var failures: map<string, seq<int>>

    function Of(examiner: string): seq<int>
      reads this
    {
      if examiner in failures then failures[examiner] else []
    }

    /** Refuse exactly when at least three failures are under 900 seconds old, and report the
        time until the oldest of them leaves the window. */
    method Check(examiner: string, now: int) returns (wait: Option<int>)
      ensures wait.Some? <==> LockedOut(Of(examiner), now)
      ensures wait.Some? ==> exists i :: IsOldest(Of(examiner), now, i) && wait.value == Wait(Of(examiner)[i], now)
    {
      var ts := Of(examiner);
      var recent, oldest := 0, 0;
      for i := 0 to |ts|
        invariant recent == Recent(ts[..i], now) && 0 <= oldest <= i
        invariant recent > 0 ==> oldest < i && InWindow(ts[oldest], now) &&
                                 forall j :: 0 <= j < i && InWindow(ts[j], now) ==> ts[oldest] <= ts[j]
        invariant recent == 0 ==> forall j :: 0 <= j < i ==> !InWindow(ts[j], now)
      {
        assert ts[..i + 1][..i] == ts[..i];
        if InWindow(ts[i], now) {
          if recent == 0 || ts[i] < ts[oldest] { oldest := i; }
          recent := recent + 1;
        }
      }
      assert ts[..|ts|] == ts;
      if recent < MAX_ATTEMPTS { return None; }
      assert IsOldest(ts, now, oldest);
      return Some(Wait(ts[oldest], now));
    }

    method Record(examiner: string, now: int)
      modifies this
      ensures Of(examiner) == old(Of(examiner)) + [now]
      ensures forall e :: e != examiner ==> Of(e) == old(Of(e))
    {
      failures := failures[examiner := Of(examiner) + [now]];
    }

    method Clear(examiner: string)
      modifies this
      ensures Of(examiner) == [] && forall e :: e != examiner ==> Of(e) == old(Of(e))
    {
      if examiner in failures { failures := failures - {examiner}; }
    }
  }

  predicate IsOldest(ts: seq<int>, now: int, i: int) {
    0 <= i < |ts| && InWindow(ts[i], now) && forall j :: 0 <= j < |ts| && InWindow(ts[j], now) ==> ts[i] <= ts[j]
  }

  function Wait(oldest: int, now: int): int {
    var remaining := LOCKOUT_SECONDS - (now - oldest);
    if remaining >= 1 then remaining else 1
  }

  /** Failures only leave the window as time goes on. */
  lemma {:induction false} RecentShrinks(ts: seq<int>, now: int, later: int)
    requires now <= later && forall i :: 0 <= i < |ts| ==> ts[i] <= now
    ensures Recent(ts, later) <= Recent(ts, now)
  {
    if ts != [] { RecentShrinks(ts[..|ts|-1], now, later); }
  }

  /** Until the oldest recent failure leaves the window, none does. */
  lemma {:induction false} RecentHolds(ts: seq<int>, now: int, later: int, oldest: int)
    requires now <= later && later - oldest < LOCKOUT_SECONDS
    requires forall i :: 0 <= i < |ts| && InWindow(ts[i], now) ==> oldest <= ts[i]
    ensures Recent(ts, later) >= Recent(ts, now)
  {
    if ts != [] { RecentHolds(ts[..|ts|-1], now, later, oldest); }
  }

  lemma {:induction false} RecentDrops(ts: seq<int>, now: int, later: int, i: nat)
    requires now <= later && forall j :: 0 <= j < |ts| ==> ts[j] <= now
    requires i < |ts| && InWindow(ts[i], now) && !InWindow(ts[i], later)
    ensures Recent(ts, later) < Recent(ts, now)
  {
    var n := |ts| - 1;
    if i == n { RecentShrinks(ts[..n], now, later); } else { RecentDrops(ts[..n], now, later, i); }
  }

  /** With no new failure, the lockout lasts at least as long as reported; and when exactly
      three failures are in the window it ends precisely then. */
  lemma ReportedWaitIsHonest(ts: seq<int>, now: int, i: nat, d: nat)
    requires forall j :: 0 <= j < |ts| ==> ts[j] <= now
    requires LockedOut(ts, now) && IsOldest(ts, now, i)
    ensures d < Wait(ts[i], now) ==> LockedOut(ts, now + d)
    ensures Recent(ts, now) == MAX_ATTEMPTS && d >= Wait(ts[i], now) ==> !LockedOut(ts, now + d)
  {
    if d < Wait(ts[i], now) {
      RecentHolds(ts, now, now + d, ts[i]);
    } else {
      RecentDrops(ts, now, now + d, i);
    }
  }

  /** Locked out means three failures, each under 900 seconds ago. */
  lemma {:induction false} LockedOutMeans(ts: seq<int>, now: int)
    ensures LockedOut(ts, now) <==>
              exists i, j, k :: 0 <= i < j < k < |ts| && now - ts[i] < 900 && now - ts[j] < 900 && now - ts[k] < 900
  {
    if LockedOut(ts, now) {
      var k := LastRecent(ts, now);
      var j := LastRecent(ts[..k], now);
      assert ts[..k][..j] == ts[..j];
      var i := LastRecent(ts[..j], now);
    }
    if i, j, k :| 0 <= i < j < k < |ts| && now - ts[i] < 900 && now - ts[j] < 900 && now - ts[k] < 900 {
      RecentAt(ts, now, k);
      RecentAt(ts[..k], now, j);
      assert ts[..k][..j] == ts[..j];
      RecentAt(ts[..j], now, i);
    }
  }

  lemma {:induction false} LastRecent(ts: seq<int>, now: int) returns (i: nat)
    requires Recent(ts, now) > 0
    ensures i < |ts| && InWindow(ts[i], now) && Recent(ts[..i], now) == Recent(ts, now) - 1
  {
    var n := |ts| - 1;
    if InWindow(ts[n], now) {
      i := n;
    } else {
      i := LastRecent(ts[..n], now);
      assert ts[..n][..i] == ts[..i];
    }
  }

  lemma {:induction false} RecentAt(ts: seq<int>, now: int, i: nat)
    requires i < |ts| && InWindow(ts[i], now)
    ensures Recent(ts, now) >= Recent(ts[..i], now) + 1
  {
    var n := |ts| - 1;
    if i < n {
      RecentAt(ts[..n], now, i);
      assert ts[..n][..i] == ts[..i];
    }
  }
}
