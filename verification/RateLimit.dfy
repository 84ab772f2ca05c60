/**
 The API's sliding-window rate limiter (api/security.py). Times are exact reals on a monotonic
 clock; a limiter is always called with the same limit, at least one, and the same window.
 */
module RateLimit {
  type Client = string

  // ----- counting hits ----------------------------------------------------------------------

  /** How many of the hits fall into the closed interval [lo, hi]. */
  function CountIn(log: seq<real>, lo: real, hi: real): nat {
    if log == [] then 0
    else CountIn(log[..|log| - 1], lo, hi) + if lo <= log[|log| - 1] <= hi then 1 else 0
  }

  /** The hits of a closed interval, as a set of positions. */
  function Within(log: seq<real>, lo: real, hi: real): set<nat> {
    set i | 0 <= i < |log| && lo <= log[i] <= hi
  }

  lemma {:induction false} CountIsWithin(log: seq<real>, lo: real, hi: real)
    ensures CountIn(log, lo, hi) == |Within(log, lo, hi)|
  {
    if log == [] {
      assert Within(log, lo, hi) == {};
    } else {
      var n := |log| - 1;
      CountIsWithin(log[..n], lo, hi);
      assert Within(log, lo, hi) == Within(log[..n], lo, hi) + if lo <= log[n] <= hi then {n} else {};
    }
  }

  ghost predicate Ordered(log: seq<real>) {
    forall i, j :: 0 <= i < j < |log| ==> log[i] <= log[j]
  }

  /** Any `limit + 1` successive hits span more than the window. */
  ghost predicate Spaced(log: seq<real>, limit: nat, window: real) {
    forall i, j :: 0 <= i && j == i + limit && j < |log| ==> log[j] - log[i] > window
  }

  lemma {:induction false} CountAfter(log: seq<real>, lo: real, hi: real, m: nat)
    requires m <= |log| && forall i :: 0 <= i < m ==> log[i] < lo
    ensures CountIn(log, lo, hi) <= |log| - m
    ensures (forall i :: m <= i < |log| ==> lo <= log[i] <= hi) ==> CountIn(log, lo, hi) == |log| - m
  {
    if |log| > 0 {
      var n := |log| - 1;
      if m <= n { CountAfter(log[..n], lo, hi, m); } else { CountAfter(log[..n], lo, hi, n); }
    }
  }

  /** The limit holds in every closed interval of the window's length, wherever it lies. */
  lemma {:induction false} AtMostLimit(log: seq<real>, limit: nat, window: real, lo: real)
    requires limit >= 1 && Ordered(log) && Spaced(log, limit, window)
    ensures CountIn(log, lo, lo + window) <= limit
  {
    if |log| > 0 {
      var n := |log| - 1;
      if lo <= log[n] <= lo + window {
        var m := if n < limit then 0 else n - limit + 1;
        forall i | 0 <= i < m ensures log[i] < lo {
          assert log[n] - log[n - limit] > window;
          assert i == n - limit || log[i] <= log[n - limit];
        }
        CountAfter(log, lo, lo + window, m);
      } else {
        AtMostLimit(log[..n], limit, window, lo);
      }
    }
  }

  // ----- one key -------------------------------------------------------------------------------

  function Pruned(dq: seq<real>, cutoff: real): seq<real> {
    if dq != [] && dq[0] < cutoff then Pruned(dq[1..], cutoff) else dq
  }

  /** A key's deque against all hits ever allowed for it: what was dropped left the window. */
  ghost predicate Tracks(dq: seq<real>, log: seq<real>, limit: nat, window: real, now: real) {
    && |dq| <= limit && |dq| <= |log| && dq == log[|log| - |dq|..]
    && Ordered(log) && Spaced(log, limit, window)
    && (forall i :: 0 <= i < |log| ==> log[i] <= now)
    && (forall i :: 0 <= i < |log| - |dq| ==> log[i] < now - window)
  }

  /** The deque holds exactly the hits of the last window once pruned. */
  lemma {:induction false} PrunedCounts(dq: seq<real>, log: seq<real>, limit: nat, window: real, now: real)
    requires Tracks(dq, log, limit, window, now)
    ensures Tracks(Pruned(dq, now - window), log, limit, window, now)
    ensures |Pruned(dq, now - window)| == CountIn(log, now - window, now)
    decreases |dq|
  {
    hide CountIn;
    if dq != [] && dq[0] < now - window {
      DropHit(dq, log, limit, window, now);
      hide Tracks;
      PrunedCounts(dq[1..], log, limit, window, now);
    } else {
      KeptInWindow(dq, log, limit, window, now);
      CountAfter(log, now - window, now, |log| - |dq|);
    }
  }

  lemma {:induction false} DropHit(dq: seq<real>, log: seq<real>, limit: nat, window: real, now: real)
    requires Tracks(dq, log, limit, window, now) && dq != [] && dq[0] < now - window
    ensures Tracks(dq[1..], log, limit, window, now)
  {
    hide Ordered, Spaced;
    var m := |log| - |dq|;
    assert log[m..][1..] == log[m + 1..];
  }

  lemma {:induction false} KeptInWindow(dq: seq<real>, log: seq<real>, limit: nat, window: real, now: real)
    requires Tracks(dq, log, limit, window, now) && (dq != [] ==> dq[0] >= now - window)
    ensures forall i :: |log| - |dq| <= i < |log| ==> now - window <= log[i] <= now
  {
    hide Spaced;
    var m := |log| - |dq|;
    if dq != [] { assert log[m] == dq[0]; }
  }

  lemma {:induction false} TimePasses(dq: seq<real>, log: seq<real>, limit: nat, window: real, last: real, now: real)
    requires Tracks(dq, log, limit, window, last) && last <= now
    ensures Tracks(dq, log, limit, window, now)
  {}

  /** A hit may be recorded when the pruned deque has room. */
  lemma {:induction false} RecordKeeps(dq: seq<real>, log: seq<real>, limit: nat, window: real, now: real)
    requires Tracks(dq, log, limit, window, now) && |dq| < limit
    ensures Tracks(dq + [now], log + [now], limit, window, now)
  {
    var n := |log|;
    var log' := log + [now];
    forall i, j | 0 <= i && j == i + limit && j < |log'| ensures log'[j] - log'[i] > window {
      if j < n { assert log[j] - log[i] > window; } else { assert i < n - |dq|; }
    }
  }

  /** A rejected caller that waits the returned time, with no other hits on its key, is allowed. */
  lemma {:induction false} WaitingHelps(dq: seq<real>, log: seq<real>, limit: nat, window: real, now: real, later: real)
    requires limit >= 1 && Tracks(dq, log, limit, window, now) && Rejects(dq, limit, window, now)
    requires later >= now + Retry(dq, window, now) as real
    ensures |Pruned(dq, later - window)| < limit
  {
    assert dq[0] < later - window;
    PrunedShrinks(dq[1..], later - window);
  }

  /** And not a whole second less would always do: before the returned time has passed, the caller
      is still rejected. */
  lemma {:induction false} RetryIsLeast(dq: seq<real>, limit: nat, window: real, now: real, wait: int)
    requires Rejects(dq, limit, window, now) && 0 <= wait < Retry(dq, window, now)
    ensures Rejects(dq, limit, window, now + wait as real)
  {
    assert dq[0] >= now - window by {
      if dq[0] < now - window { PrunedShrinks(dq[1..], now - window); }
    }
  }

  lemma {:induction false} PrunedShrinks(dq: seq<real>, cutoff: real)
    ensures |Pruned(dq, cutoff)| <= |dq|
    decreases |dq|
  {
    if dq != [] && dq[0] < cutoff { PrunedShrinks(dq[1..], cutoff); }
  }

  /** max(1, int(window - (now - dq[0])) + 1), where int truncates toward zero. */
  function Retry(dq: seq<real>, window: real, now: real): int
    requires dq != []
  {
    var wait := window - (now - dq[0]);
    var whole := if wait >= 0.0 then wait.Floor else -((-wait).Floor);
    if whole + 1 < 1 then 1 else whole + 1
  }

  // ----- the limiter ---------------------------------------------------------------------------

  method PopOld(dq: seq<real>, cutoff: real) returns (rest: seq<real>)
    ensures rest == Pruned(dq, cutoff)
  {
    rest := dq;
    while rest != [] && rest[0] < cutoff
      invariant Pruned(rest, cutoff) == Pruned(dq, cutoff)
      decreases |rest|
    {
      rest := rest[1..];
    }
  }

  /** Delete the keys whose deque is empty. */
  method DropIdle(hits: map<Client, seq<real>>) returns (kept: map<Client, seq<real>>)
    ensures kept == map k | k in hits && hits[k] != [] :: hits[k]
  {
    kept := hits;
    var idle := set k | k in hits && hits[k] == [];
    while idle != {}
      invariant forall k <- idle :: k in hits && hits[k] == []
      invariant kept == map k | k in hits && (hits[k] != [] || k in idle) :: hits[k]
      decreases |idle|
    {
      var k :| k in idle;
      kept := kept - {k};
      idle := idle - {k};
    }
  }

  /** The decision for one key. */
  method Decide(dq: seq<real>, ghost log: seq<real>, limit: nat, window: real, now: real)
    returns (ok: bool, retry: int, dq': seq<real>)
    requires limit >= 1 && Tracks(dq, log, limit, window, now)
    ensures ok <==> CountIn(log, now - window, now) < limit
    ensures dq' != [] && Tracks(dq', if ok then log + [now] else log, limit, window, now)
    ensures ok ==> retry == 0
    ensures !ok ==> retry == Retry(dq', window, now) && Pruned(dq', now - window) == dq' && |dq'| >= limit
  {
    hide Tracks, CountIn;
    PrunedCounts(dq, log, limit, window, now);
    PrunedTwice(dq, now - window);
    dq' := PopOld(dq, now - window);
    if |dq'| >= limit {
      return false, Retry(dq', window, now), dq';
    }
    RecordKeeps(dq', log, limit, window, now);
    return true, 0, dq' + [now];
  }

  /** Every key's deque is in step with its hits, and none is empty. */
  ghost predicate AllTrack(hits: map<Client, seq<real>>, log: map<Client, seq<real>>, limit: nat, window: real, now: real) {
    && hits.Keys == log.Keys
    && forall k <- hits.Keys :: hits[k] != [] && Tracks(hits[k], log[k], limit, window, now)
  }

  lemma {:induction false} AllTimePasses(hits: map<Client, seq<real>>, log: map<Client, seq<real>>, limit: nat, window: real, last: real, now: real)
    requires AllTrack(hits, log, limit, window, last) && last <= now
    ensures AllTrack(hits, log, limit, window, now)
  {
    hide Tracks;
    forall k | k in hits ensures Tracks(hits[k], log[k], limit, window, now) {
      TimePasses(hits[k], log[k], limit, window, last, now);
    }
  }

  lemma {:induction false} TrackUpdate(hits: map<Client, seq<real>>, log: map<Client, seq<real>>, limit: nat, window: real, now: real,
                                       key: Client, dq: seq<real>, hs: seq<real>)
    requires AllTrack(hits, log, limit, window, now) && dq != [] && Tracks(dq, hs, limit, window, now)
    ensures AllTrack(hits[key := dq], log[key := hs], limit, window, now)
  {
    hide Tracks;
  }

  /** Pruning idle keys changes nothing: there are none. */
  lemma {:induction false} NoneIdle(hits: map<Client, seq<real>>, log: map<Client, seq<real>>, limit: nat, window: real, now: real)
    requires AllTrack(hits, log, limit, window, now)
    ensures (map k | k in hits && hits[k] != [] :: hits[k]) == hits
  {
    hide Tracks;
  }

  class SlidingWindow {
    var hits: map<Client, seq<real>>
    /** Every hit ever allowed, per key. */
    ghost var log: map<Client, seq<real>>

    ghost predicate Valid(limit: nat, window: real, now: real)
      reads this
    {
      AllTrack(hits, log, limit, window, now)
    }

    ghost function Allowed(key: Client): seq<real>
      reads this
    {
      if key in log then log[key] else []
    }

    constructor ()
      ensures hits == map[] && log == map[] && forall limit, window, now :: Valid(limit, window, now)
    {
      hits, log := map[], map[];
    }

    /** allow: a hit passes exactly when fewer than `limit` hits of its key passed in the closed
        window before it. No key is ever forgotten: the pruning of idle keys looks for empty
        deques, and there never are any. */
    method Allow(key: Client, limit: nat, window: real, now: real, ghost last: real) returns (ok: bool, retry: int)
      requires limit >= 1 && window >= 0.0 && last <= now && Valid(limit, window, last)
      modifies this
      ensures Valid(limit, window, now) && hits.Keys == old(hits.Keys) + {key}
      ensures ok <==> |Within(old(Allowed(key)), now - window, now)| < limit
      ensures log == if ok then old(log)[key := old(Allowed(key)) + [now]] else old(log)
      ensures ok ==> retry == 0
      ensures !ok ==> key in hits && Rejects(hits[key], limit, window, now) && retry == Retry(hits[key], window, now)
    {
      hide Tracks, CountIn, Pruned, Retry, AllTrack, Within;
      ghost var before := Allowed(key);
      CountIsWithin(before, now - window, now);
      AllTimePasses(hits, log, limit, window, last, now);
      var dq := if key in hits then hits[key] else [];
      TracksOf(hits, log, limit, window, now, key);
      ok, retry, dq := Decide(dq, before, limit, window, now);
      TrackUpdate(hits, log, limit, window, now, key, dq, if ok then before + [now] else before);
      if !ok {
        RejectedIsKnown(limit, window, now, before);
        assert log[key := before] == log;
        hits := hits[key := dq];
        return;
      }
      hits := hits[key := dq];
      log := log[key := before + [now]];
      if |hits| > 4096 {
        NoneIdle(hits, log, limit, window, now);
        hits := DropIdle(hits);
      }
    }
  }

  /** A full deque whose hits are all within the window. */
  ghost predicate Rejects(dq: seq<real>, limit: nat, window: real, now: real) {
    dq != [] && Pruned(dq, now - window) == dq && |dq| >= limit
  }

  lemma {:induction false} TracksOf(hits: map<Client, seq<real>>, log: map<Client, seq<real>>, limit: nat, window: real, now: real, key: Client)
    requires AllTrack(hits, log, limit, window, now)
    ensures hits.Keys == log.Keys
    ensures Tracks(if key in hits then hits[key] else [], if key in log then log[key] else [], limit, window, now)
  {
    hide Tracks;
    NothingTracked(limit, window, now);
  }

  lemma {:induction false} RejectedIsKnown(limit: nat, window: real, now: real, log: seq<real>)
    requires limit >= 1 && CountIn(log, now - window, now) >= limit
    ensures log != []
  {}

  lemma {:induction false} NothingTracked(limit: nat, window: real, now: real)
    ensures Tracks([], [], limit, window, now)
  {}

  lemma {:induction false} PrunedTwice(dq: seq<real>, cutoff: real)
    ensures Pruned(Pruned(dq, cutoff), cutoff) == Pruned(dq, cutoff)
    decreases |dq|
  {
    if dq != [] && dq[0] < cutoff { PrunedTwice(dq[1..], cutoff); }
  }

  // ----- whole runs ---------------------------------------------------------------------------

  /** The hits of one key that pass, given the times of all its calls: by `Allow` a call passes
      exactly when fewer than `limit` passed in the window before it. */
  function Admitted(times: seq<real>, limit: nat, window: real): seq<real> {
    if times == [] then []
    else
      var log, now := Admitted(times[..|times| - 1], limit, window), times[|times| - 1];
      if CountIn(log, now - window, now) < limit then log + [now] else log
  }

  lemma {:induction false} AdmitKeeps(dq: seq<real>, log: seq<real>, limit: nat, window: real, now: real) returns (dq': seq<real>)
    requires Tracks(dq, log, limit, window, now)
    ensures Tracks(dq', if CountIn(log, now - window, now) < limit then log + [now] else log, limit, window, now)
  {
    hide Tracks, CountIn, Pruned;
    PrunedCounts(dq, log, limit, window, now);
    dq' := Pruned(dq, now - window);
    if |dq'| < limit {
      RecordKeeps(dq', log, limit, window, now);
      dq' := dq' + [now];
    }
  }

  lemma {:induction false} AdmittedTracks(times: seq<real>, limit: nat, window: real) returns (dq: seq<real>)
    requires limit >= 1 && times != [] && Ordered(times)
    ensures Tracks(dq, Admitted(times, limit, window), limit, window, times[|times| - 1])
  {
    hide Tracks, CountIn;
    var n := |times| - 1;
    var log := Admitted(times[..n], limit, window);
    if n == 0 {
      dq := [];
      NothingTracked(limit, window, times[0]);
    } else {
      dq := AdmittedTracks(times[..n], limit, window);
      TimePasses(dq, log, limit, window, times[n - 1], times[n]);
    }
    dq := AdmitKeeps(dq, log, limit, window, times[n]);
  }

  /** Over every run of calls at non-decreasing times, every closed interval of the window's
      length holds at most `limit` hits that passed. */
  lemma {:induction false} LimitHolds(times: seq<real>, limit: nat, window: real, lo: real)
    requires limit >= 1 && Ordered(times)
    ensures |Within(Admitted(times, limit, window), lo, lo + window)| <= limit
  {
    hide CountIn, Admitted, Tracks, Within;
    var log := Admitted(times, limit, window);
    CountIsWithin(log, lo, lo + window);
    if times == [] {
      NothingAdmitted(limit, window, lo);
    } else {
      var dq := AdmittedTracks(times, limit, window);
      TracksSpaced(dq, log, limit, window, times[|times| - 1]);
      AtMostLimit(log, limit, window, lo);
    }
  }

  lemma {:induction false} NothingAdmitted(limit: nat, window: real, lo: real)
    ensures CountIn(Admitted([], limit, window), lo, lo + window) == 0
  {}

  lemma {:induction false} TracksSpaced(dq: seq<real>, log: seq<real>, limit: nat, window: real, now: real)
    requires Tracks(dq, log, limit, window, now)
    ensures Ordered(log) && Spaced(log, limit, window)
  {}
}
