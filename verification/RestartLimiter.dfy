/** Limiting how often a failed process is started again (TrunkProcessData.request_restart_attempt). */
module RestartLimiter {

  /** The attempts that still count at a moment: those not older than the interval; all, if it is 0. */
  function Recent(times: seq<int>, now: int, interval: nat): (r: seq<int>) {
    if times == [] then []
    else
      var last := times[|times| - 1];
      Recent(times[..|times| - 1], now, interval) + if interval == 0 || last >= now - interval then [last] else []
  }

  /** The clock does not go back. */
  predicate Ordered(times: seq<int>) {
    forall i, j | 0 <= i < j < |times| :: times[i] <= times[j]
  }

  /** The decision on the last of all attempts made so far, granted or not. */
  predicate Granted(times: seq<int>, limit: nat, interval: nat)
    requires times != []
  {
    limit == 0 || |Recent(times, times[|times| - 1], interval)| <= limit
  }

  class TrunkProcessData {
    const maxRestartCount: nat
    const maxRestartIntervalSeconds: nat
    var restartsTime: seq<int>
    /** Every attempt ever made. */
    ghost var attempts: seq<int>

    ghost predicate Valid()
      reads this
    {
      && Ordered(attempts)
      && restartsTime == if maxRestartCount == 0 || attempts == [] then []
                         else Recent(attempts, attempts[|attempts| - 1], maxRestartIntervalSeconds)
    }

    constructor (maxCount: nat, maxInterval: nat)
      ensures Valid() && attempts == [] && maxRestartCount == maxCount && maxRestartIntervalSeconds == maxInterval
    {
      maxRestartCount := maxCount;
      maxRestartIntervalSeconds := maxInterval;
      restartsTime := [];
      attempts := [];
    }

    /** The times kept are trimmed along the way, yet the decision is made as if all were there. */
    method RequestRestartAttempt(now: int) returns (granted: bool)
      requires Valid() && (forall i :: 0 <= i < |attempts| ==> attempts[i] <= now)
      modifies this
      ensures Valid() && attempts == old(attempts) + [now]
      ensures granted == Granted(attempts, maxRestartCount, maxRestartIntervalSeconds)
      ensures granted <==>
        maxRestartCount == 0 || |attempts| <= maxRestartCount ||
        (maxRestartIntervalSeconds > 0 && now - attempts[|attempts| - 1 - maxRestartCount] > maxRestartIntervalSeconds)
    {
      hide Recent;
      ghost var before := attempts;
      attempts := attempts + [now];
      GrantedIff(attempts, maxRestartCount, maxRestartIntervalSeconds);
      if maxRestartCount == 0 {
        return true;
      }
      TrimmedIsEnough(before, restartsTime, now, maxRestartIntervalSeconds);
      restartsTime := restartsTime + [now];
      if maxRestartIntervalSeconds > 0 {
        restartsTime := Trim(restartsTime, now, maxRestartIntervalSeconds);
      }
      granted := |restartsTime| <= maxRestartCount;
    }
  }

  method Trim(times: seq<int>, now: int, interval: nat) returns (r: seq<int>)
    requires interval > 0
    ensures r == Recent(times, now, interval)
  {
    r := [];
    for i := 0 to |times|
      invariant r == Recent(times[..i], now, interval)
    {
      assert times[..i + 1][..i] == times[..i];
      if times[i] >= now - interval {
        r := r + [times[i]];
      }
    }
    assert times[..|times|] == times;
  }

  lemma RecentNext(times: seq<int>, now: int, interval: nat)
    ensures Recent(times + [now], now, interval) == Recent(times, now, interval) + [now]
  {
    assert (times + [now])[..|times|] == times;
  }

  /** The kept times and the new one, trimmed, are all times trimmed. */
  lemma TrimmedIsEnough(times: seq<int>, kept: seq<int>, now: int, interval: nat)
    requires kept == if times == [] then [] else Recent(times, times[|times| - 1], interval)
    requires forall i :: 0 <= i < |times| ==> times[i] <= now
    ensures Recent(times + [now], now, interval) == Recent(kept + [now], now, interval)
    ensures interval == 0 ==> Recent(times + [now], now, interval) == kept + [now]
  {
    RecentNext(times, now, interval);
    RecentNext(kept, now, interval);
    if times != [] {
      RecentOfRecent(times, times[|times| - 1], now, interval);
    }
    if interval == 0 {
      AllAreRecent(kept + [now], now);
    }
  }

  lemma {:induction false} AllAreRecent(times: seq<int>, now: int)
    ensures Recent(times, now, 0) == times
  {
    if times != [] {
      AllAreRecent(times[..|times| - 1], now);
    }
  }

  /** Trimming twice is trimming once. */
  lemma {:induction false} RecentOfRecent(times: seq<int>, earlier: int, now: int, interval: nat)
    requires earlier <= now
    ensures Recent(Recent(times, earlier, interval), now, interval) == Recent(times, now, interval)
  {
    if times != [] {
      var last := times[|times| - 1];
      var kept := Recent(times[..|times| - 1], earlier, interval);
      RecentOfRecent(times[..|times| - 1], earlier, now, interval);
      if interval == 0 || last >= earlier - interval {
        assert (kept + [last])[..|kept|] == kept;
      } else {
        assert kept + [] == kept;
      }
    }
  }

  /** While the clock does not go back, the recent attempts are the last ones. */
  lemma {:induction false} RecentAreLast(times: seq<int>, now: int, interval: nat)
    requires Ordered(times) && interval > 0
    ensures var k := |times| - |Recent(times, now, interval)|;
      && 0 <= k && (forall i :: 0 <= i < k ==> times[i] < now - interval)
      && forall i :: k <= i < |times| ==> times[i] >= now - interval
  {
    if times != [] {
      RecentAreLast(times[..|times| - 1], now, interval);
    }
  }

  /** An attempt is granted exactly if there is no limit, or there were no more attempts than the limit so far, or the
      attempt as many places back as the limit says is older than the interval. */
  lemma GrantedIff(times: seq<int>, limit: nat, interval: nat)
    requires times != [] && Ordered(times)
    ensures Granted(times, limit, interval) <==>
      limit == 0 || |times| <= limit || (interval > 0 && times[|times| - 1] - times[|times| - 1 - limit] > interval)
  {
    if interval == 0 {
      AllAreRecent(times, times[|times| - 1]);
    } else {
      RecentAreLast(times, times[|times| - 1], interval);
    }
  }

  /** The attempts that are granted in a closed window of the length of the interval; in all of time, if it is 0. */
  function GrantedIn(times: seq<int>, limit: nat, interval: nat, start: int): set<nat> {
    set i: nat | i < |times| && Granted(times[..i + 1], limit, interval)
                 && (interval == 0 || start <= times[i] <= start + interval)
  }

  lemma GrantedBefore(times: seq<int>, limit: nat, interval: nat, start: int)
    requires times != []
    ensures var n, g := |times| - 1, GrantedIn(times[..|times| - 1], limit, interval, start);
      n !in g && (GrantedIn(times, limit, interval, start) == g || GrantedIn(times, limit, interval, start) == g + {n})
  {
    var n := |times| - 1;
    forall i: nat | i < n
      ensures i in GrantedIn(times[..n], limit, interval, start) <==> i in GrantedIn(times, limit, interval, start)
    {
      assert times[..n][..i + 1] == times[..i + 1];
    }
  }

  lemma {:induction false} WindowIsRecent(times: seq<int>, limit: nat, interval: nat, start: int, now: int)
    requires interval == 0 || start >= now - interval
    ensures |GrantedIn(times, limit, interval, start)| <= |Recent(times, now, interval)|
  {
    if times == [] {
      assert GrantedIn(times, limit, interval, start) == {};
    } else {
      GrantedBefore(times, limit, interval, start);
      WindowIsRecent(times[..|times| - 1], limit, interval, start, now);
    }
  }

  /** No window of the interval's length contains more granted restarts than the limit. */
  lemma {:induction false} WindowsAreBounded(times: seq<int>, limit: nat, interval: nat, start: int)
    requires limit > 0
    ensures |set i: nat | i < |times| && Granted(times[..i + 1], limit, interval)
                          && (interval == 0 || start <= times[i] <= start + interval)| <= limit
  {
    assert |GrantedIn(times, limit, interval, start)| <= limit by {
      if times == [] {
        assert GrantedIn(times, limit, interval, start) == {};
      } else {
        var n := |times| - 1;
        assert times[..n + 1] == times;
        GrantedBefore(times, limit, interval, start);
        if n in GrantedIn(times, limit, interval, start) {
          WindowIsRecent(times, limit, interval, start, times[n]);
        } else {
          WindowsAreBounded(times[..n], limit, interval, start);
        }
      }
    }
  }

  lemma {:induction false} NoneRecent(times: seq<int>, now: int, interval: nat)
    requires interval > 0 && forall i :: 0 <= i < |times| ==> times[i] < now - interval
    ensures Recent(times, now, interval) == []
  {
    if times != [] {
      NoneRecent(times[..|times| - 1], now, interval);
    }
  }

  /** A process that has been quiet for longer than the interval may be started again, whatever came before. */
  lemma QuietIsGranted(times: seq<int>, now: int, limit: nat, interval: nat)
    requires interval > 0 && limit > 0 && forall i :: 0 <= i < |times| ==> times[i] < now - interval
    ensures Granted(times + [now], limit, interval)
  {
    NoneRecent(times, now, interval);
    assert (times + [now])[..|times|] == times;
  }
}
