/**
 * The fixed-window rate limiter: a process-wide map from caller identity to
 * the number of calls admitted in the current window and when that window
 * began. Each call of the limiter decides admission and updates the map.
 */
module RateLimit {

  /** Length of a window in milliseconds (one minute). */
  const WindowMs: int := 60 * 1000

  /** Calls admitted per identity and window. */
  const MaxRequests: int := 20

  /** The map's value for one identity. */
  datatype Entry = Entry(count: int, lastReset: int)

  type Entries = map<string, Entry>

  /** Whether a call is admitted, and the map it leaves behind. */
  datatype Decision = Decision(allowed: bool, entries: Entries)

  /** Every stored count lies in 1..MaxRequests. */
  predicate CountsInRange(m: Entries) {
    forall ip :: ip in m ==> 1 <= m[ip].count <= MaxRequests
  }

  /** One call of the limiter for `ip` at time `now`, on the map `m`. */
  function Decide(m: Entries, ip: string, now: int): (d: Decision)
    ensures d.entries.Keys == m.Keys + {ip}
    ensures forall k :: k in m && k != ip ==> d.entries[k] == m[k]
    ensures !d.allowed ==> d.entries == m
    ensures CountsInRange(m) ==> CountsInRange(d.entries)
  {
    if ip !in m then
      Decision(true, m[ip := Entry(1, now)])
    else if now - m[ip].lastReset > WindowMs then
      Decision(true, m[ip := Entry(1, now)])
    else if m[ip].count >= MaxRequests then
      Decision(false, m)
    else
      Decision(true, m[ip := Entry(m[ip].count + 1, m[ip].lastReset)])
  }

  /** An identity's first call is admitted and opens its window at `now` with one call counted. */
  lemma FirstCallOpensWindow(m: Entries, ip: string, now: int)
    requires ip !in m
    ensures Decide(m, ip, now) == Decision(true, m[ip := Entry(1, now)])
  {
  }

  /**
   * Inside the window a call is admitted exactly while the count is below
   * the cap; an admitted call counts one more and keeps the window's start,
   * a denied one leaves the map as it was.
   */
  lemma InsideWindowCounts(m: Entries, ip: string, now: int)
    requires ip in m && now - m[ip].lastReset <= WindowMs
    ensures Decide(m, ip, now).allowed <==> m[ip].count < MaxRequests
    ensures m[ip].count < MaxRequests ==>
      Decide(m, ip, now).entries == m[ip := Entry(m[ip].count + 1, m[ip].lastReset)]
    ensures m[ip].count >= MaxRequests ==> Decide(m, ip, now).entries == m
  {
  }

  /**
   * Once more than a window has passed since the window began, a call is
   * admitted and opens a new window, however many calls were denied before.
   * At exactly one window's length the old window still applies.
   */
  lemma ExpiredWindowReopens(m: Entries, ip: string, now: int)
    requires ip in m && CountsInRange(m)
    ensures now - m[ip].lastReset > WindowMs ==>
      Decide(m, ip, now) == Decision(true, m[ip := Entry(1, now)])
    ensures now - m[ip].lastReset == WindowMs && m[ip].count == MaxRequests ==>
      Decide(m, ip, now) == Decision(false, m)
  {
  }

  /** The answers of successive calls for `ip` at the times `times`. */
  function Run(m: Entries, ip: string, times: seq<int>): (r: seq<bool>)
    ensures |r| == |times|
    decreases |times|
  {
    if times == [] then []
    else
      var d := Decide(m, ip, times[0]);
      [d.allowed] + Run(d.entries, ip, times[1..])
  }

  /**
   * Inside the window of an entry with count `c`, the call at position `i`
   * is admitted exactly when `c + i` is still below the cap.
   */
  lemma {:induction false} RunInsideWindow(m: Entries, ip: string, times: seq<int>, c: int, t0: int)
    requires ip in m && m[ip] == Entry(c, t0) && 1 <= c <= MaxRequests
    requires forall i :: 0 <= i < |times| ==> times[i] - t0 <= WindowMs
    ensures forall i :: 0 <= i < |times| ==> Run(m, ip, times)[i] == (c + i < MaxRequests)
    decreases |times|
  {
    if times != [] {
      var d := Decide(m, ip, times[0]);
      var c' := if c < MaxRequests then c + 1 else c;
      assert d.entries[ip] == Entry(c', t0);
      RunInsideWindow(d.entries, ip, times[1..], c', t0);
      var r := Run(m, ip, times);
      assert r == [d.allowed] + Run(d.entries, ip, times[1..]);
      forall i | 0 <= i < |times|
        ensures r[i] == (c + i < MaxRequests)
      {
        if i > 0 {
          assert r[i] == Run(d.entries, ip, times[1..])[i - 1];
        }
      }
    }
  }

  /**
   * From an identity's first call, every call within one window of it is
   * admitted up to the twentieth, and the twenty-first and later are denied.
   */
  lemma CapWithinWindow(m: Entries, ip: string, times: seq<int>)
    requires ip !in m && |times| > 0
    requires forall i :: 0 <= i < |times| ==> times[i] - times[0] <= WindowMs
    ensures forall i :: 0 <= i < |times| ==> Run(m, ip, times)[i] == (i < MaxRequests)
  {
    var d := Decide(m, ip, times[0]);
    var r := Run(m, ip, times);
    assert r == [true] + Run(d.entries, ip, times[1..]);
    RunInsideWindow(d.entries, ip, times[1..], 1, times[0]);
    forall i | 0 <= i < |times|
      ensures r[i] == (i < MaxRequests)
    {
      if i > 0 {
        assert r[i] == Run(d.entries, ip, times[1..])[i - 1];
      }
    }
  }

  /** The limiter's state: the module-level `rateLimitMap`. */
  class RateLimiter {
    var entries: Entries

    ghost predicate Valid()
      reads this
    {
      CountsInRange(entries)
    }

    constructor ()
      ensures Valid() && entries == map[]
    {
      entries := map[];
    }

    /** `rateLimit(ip)`, with the clock reading passed in as `now`. */
    method Check(ip: string, now: int) returns (allowed: bool)
      requires Valid()
      modifies this
      ensures Valid()
      ensures allowed == Decide(old(entries), ip, now).allowed
      ensures entries == Decide(old(entries), ip, now).entries
    {
      if ip !in entries {
        entries := entries[ip := Entry(1, now)];
        return true;
      }
      var entry := entries[ip];
      if now - entry.lastReset > WindowMs {
        entries := entries[ip := Entry(1, now)];
        return true;
      }
      if entry.count >= MaxRequests {
        return false;
      }
      entries := entries[ip := entry.(count := entry.count + 1)];
      return true;
    }
  }
}
