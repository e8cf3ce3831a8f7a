/**
 * The rate-limiting middleware: for every client address a window of the times of its recent
 * requests. Times are whole seconds.
 */
module RateLimit {
  const RequestsLimit: nat := 100
  const TimeLimit: int := 60

  /** The window of an address; one never seen before starts empty. */
  function Window(m: map<string, seq<int>>, ip: string): seq<int> {
    if ip in m then m[ip] else []
  }

  /** The window after dropping, from the front, every entry more than TimeLimit seconds old. */
  function Evicted(w: seq<int>, now: int): (e: seq<int>)
    ensures |e| <= |w| && e == w[|w| - |e|..]
    ensures |e| > 0 ==> now - e[0] <= TimeLimit
    decreases |w|
  {
    if |w| > 0 && now - w[0] > TimeLimit then Evicted(w[1..], now) else w
  }

  /** Whether the request is let through: the evicted window has room left. */
  predicate Admits(w: seq<int>, now: int) {
    |Evicted(w, now)| < RequestsLimit
  }

  /** The window after the request: the evicted window, with `now` appended when admitted. */
  function Recorded(w: seq<int>, now: int): seq<int> {
    if Admits(w, now) then Evicted(w, now) + [now] else Evicted(w, now)
  }

  ghost predicate Sorted(w: seq<int>) {
    forall i, j :: 0 <= i < j < |w| ==> w[i] <= w[j]
  }

  /** No entry is later than `now`. */
  ghost predicate NotAfter(w: seq<int>, now: int) {
    forall i :: 0 <= i < |w| ==> w[i] <= now
  }

  /** Every entry lies in the TimeLimit seconds up to `now`. */
  ghost predicate Recent(w: seq<int>, now: int) {
    forall i :: 0 <= i < |w| ==> now - TimeLimit <= w[i] <= now
  }

  /** A window never grows past the limit. */
  lemma RecordedBounded(w: seq<int>, now: int)
    requires |w| <= RequestsLimit
    ensures |Recorded(w, now)| <= RequestsLimit
  {
  }

  /**
   * With a clock that does not go back, a window stays sorted, and after each request holds
   * only the entries of the last TimeLimit seconds.
   */
  lemma {:induction false} EvictedRecent(w: seq<int>, now: int)
    requires Sorted(w) && NotAfter(w, now)
    ensures Sorted(Evicted(w, now)) && Recent(Evicted(w, now), now)
    decreases |w|
  {
    if |w| > 0 && now - w[0] > TimeLimit {
      EvictedRecent(w[1..], now);
    } else if |w| > 0 {
      forall i | 0 <= i < |w|
        ensures now - TimeLimit <= w[i]
      {
        assert w[0] <= w[i];
      }
    }
  }

  lemma RecordedRecent(w: seq<int>, now: int)
    requires Sorted(w) && NotAfter(w, now)
    ensures Sorted(Recorded(w, now)) && Recent(Recorded(w, now), now)
  {
    EvictedRecent(w, now);
    var e := Evicted(w, now);
    if Admits(w, now) {
      assert Recorded(w, now) == e + [now];
      assert forall i :: 0 <= i < |e| ==> e[i] <= now;
    }
  }

  /**
   * A full window of requests all from the last TimeLimit seconds rejects the next request
   * and stays as it is.
   */
  lemma FullWindowRejects(w: seq<int>, now: int)
    requires |w| == RequestsLimit && forall i :: 0 <= i < |w| ==> now - w[i] <= TimeLimit
    ensures !Admits(w, now) && Recorded(w, now) == w
  {
    assert 0 < |w| && now - w[0] <= TimeLimit;
  }

  /** No window in the table holds more than the limit. */
  ghost predicate Bounded(m: map<string, seq<int>>) {
    forall ip :: ip in m ==> |m[ip]| <= RequestsLimit
  }

  /** The middleware's shared table of windows, one per client address. */
  class RateLimiter {
    var requests: map<string, seq<int>>

    /** No window holds more than the limit. */
    ghost predicate Valid()
      reads this
    {
      Bounded(requests)
    }

    constructor ()
      ensures Valid() && requests == map[]
    {
      requests := map[];
    }

    /**
     * dispatch: evicts old entries from the front of the caller's window, refuses the request
     * (status 429) when the window is full, and otherwise records it and lets it through. Only
     * the caller's window changes.
     */
    method Dispatch(ip: string, now: int) returns (accepted: bool)
      requires Valid()
      modifies this
      ensures Valid()
      ensures accepted <==> Admits(Window(old(requests), ip), now)
      ensures requests == old(requests)[ip := Recorded(Window(old(requests), ip), now)]
      ensures Sorted(Window(old(requests), ip)) && NotAfter(Window(old(requests), ip), now) ==>
                Sorted(requests[ip]) && Recent(requests[ip], now)
    {
      var w := Window(requests, ip);
      ghost var w0 := w;
      while |w| > 0 && now - w[0] > TimeLimit
        invariant Evicted(w, now) == Evicted(w0, now)
        decreases |w|
      {
        w := w[1..];
      }
      accepted := |w| < RequestsLimit;
      if accepted {
        w := w + [now];
      }
      assert w == Recorded(w0, now);
      RecordedBounded(w0, now);
      if Sorted(w0) && NotAfter(w0, now) {
        RecordedRecent(w0, now);
      }
      SetKeepsBound(requests, ip, w);
      requests := requests[ip := w];
    }
  }

  /** Replacing one window by a window within the limit keeps every window within it. */
  lemma SetKeepsBound(m: map<string, seq<int>>, ip: string, w: seq<int>)
    requires Bounded(m) && |w| <= RequestsLimit
    ensures Bounded(m[ip := w])
  {
  }
}
