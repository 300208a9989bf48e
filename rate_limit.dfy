/**
 * RateLimitMiddleware: a sliding-window throttle keyed by client address.
 * For each client it keeps the timestamps of the requests it let through;
 * a request first drops the timestamps that left the window, is refused
 * (429) when `calls` of them remain, and otherwise is recorded and passed on.
 * Timestamps are integers supplied by the caller in place of the clock.
 */
module RateLimit {
  import opened Wrappers
  import opened Errors

  /** The timestamps of `history` still inside the window at `now`, in their original order. */
  function Purge(history: seq<int>, now: int, period: int): (kept: seq<int>)
    ensures |kept| <= |history|
    ensures forall t :: t in kept <==> t in history && now - t < period
  {
    if history == [] then []
    else (if now - history[0] < period then [history[0]] else []) + Purge(history[1..], now, period)
  }

  /** Purging distributes over concatenation, so survivors keep their relative order. */
  lemma {:induction false} PurgeAppend(a: seq<int>, b: seq<int>, now: int, period: int)
    ensures Purge(a + b, now, period) == Purge(a, now, period) + Purge(b, now, period)
    decreases |a|
  {
    if a == [] {
      assert a + b == b;
    } else {
      assert (a + b)[0] == a[0];
      assert (a + b)[1..] == a[1..] + b;
      PurgeAppend(a[1..], b, now, period);
    }
  }

  /** A history entirely inside the window survives purging unchanged. */
  lemma {:induction false} PurgeKeepsRecent(history: seq<int>, now: int, period: int)
    requires forall i | 0 <= i < |history| :: now - history[i] < period
    ensures Purge(history, now, period) == history
    decreases |history|
  {
    if history != [] {
      PurgeKeepsRecent(history[1..], now, period);
      assert [history[0]] + history[1..] == history;
    }
  }

  /** A history entirely outside the window is purged completely. */
  lemma {:induction false} PurgeDropsStale(history: seq<int>, now: int, period: int)
    requires forall t | t in history :: now - t >= period
    ensures Purge(history, now, period) == []
    decreases |history|
  {
    if history != [] {
      assert history[0] in history;
      forall t | t in history[1..] ensures now - t >= period {
        assert t in history;
      }
      PurgeDropsStale(history[1..], now, period);
    }
  }

  /** The most entries a client's list can hold: `calls`, or none when `calls` is not positive. */
  function Capacity(calls: int): nat
  {
    if calls < 0 then 0 else calls
  }

  /** The outcome of one request for one client: let through or not, and the list kept afterwards. */
  datatype Decision = Decision(allowed: bool, kept: seq<int>)

  function Admit(history: seq<int>, now: int, calls: int, period: int): Decision
  {
    var kept := Purge(history, now, period);
    if |kept| >= calls then Decision(false, kept) else Decision(true, kept + [now])
  }

  /** One request never takes a list within capacity beyond it. */
  lemma AdmitWithinCapacity(history: seq<int>, now: int, calls: int, period: int)
    requires |history| <= Capacity(calls)
    ensures |Admit(history, now, calls, period).kept| <= Capacity(calls)
  {
  }

  /** The list kept for one client after its requests at `times`, starting from `history`. */
  function Replay(history: seq<int>, times: seq<int>, calls: int, period: int): seq<int>
    decreases |times|
  {
    if times == [] then history
    else Admit(Replay(history, times[..|times| - 1], calls, period), times[|times| - 1], calls, period).kept
  }

  /** Whether the last of the requests at `times` was let through. */
  function LastAllowed(history: seq<int>, times: seq<int>, calls: int, period: int): bool
    requires times != []
  {
    Admit(Replay(history, times[..|times| - 1], calls, period), times[|times| - 1], calls, period).allowed
  }

  /** Every request of `times` falls within `period` of every later one. */
  ghost predicate WithinPeriod(times: seq<int>, period: int)
  {
    forall i, j | 0 <= i < j < |times| :: times[j] - times[i] < period
  }

  /**
   * From a fresh client, a burst of at most `calls` requests within one
   * period is let through entirely and every timestamp is kept.
   */
  lemma {:induction false} BurstRecorded(times: seq<int>, calls: int, period: int, k: nat)
    requires k <= |times| && k <= calls
    requires WithinPeriod(times, period)
    ensures Replay([], times[..k], calls, period) == times[..k]
    ensures k > 0 ==> LastAllowed([], times[..k], calls, period)
  {
    if k > 0 {
      BurstRecorded(times, calls, period, k - 1);
      var prefix := times[..k];
      assert prefix[..k - 1] == times[..k - 1];
      PurgeKeepsRecent(times[..k - 1], times[k - 1], period);
      assert times[..k - 1] + [times[k - 1]] == prefix;
    }
  }

  /**
   * With `calls` = N, the (N+1)-th request of a client whose N earlier
   * requests all fall within the period of it is refused, while the first N
   * are let through.
   */
  lemma ExtraRequestRefused(times: seq<int>, calls: int, period: int)
    requires calls >= 0 && |times| == calls + 1
    requires WithinPeriod(times, period)
    ensures forall k | 1 <= k <= calls :: LastAllowed([], times[..k], calls, period)
    ensures !LastAllowed([], times, calls, period)
  {
    forall k | 1 <= k <= calls ensures LastAllowed([], times[..k], calls, period) {
      BurstRecorded(times, calls, period, k);
    }
    BurstRecorded(times, calls, period, calls);
    PurgeKeepsRecent(times[..calls], times[calls], period);
  }

  /** After a quiet period longer than the window, a client is let through again. */
  lemma QuietPeriodAdmits(history: seq<int>, now: int, calls: int, period: int)
    requires calls >= 1
    requires forall t | t in history :: now - t >= period
    ensures Admit(history, now, calls, period) == Decision(true, [now])
  {
    PurgeDropsStale(history, now, period);
  }

  class RateLimitMiddleware {
    const calls: int
    const period: int
    /** The defaultdict(list): client address to the timestamps it was let through at. */
    var requests: map<string, seq<int>>

    /** No client's list holds more than `calls` timestamps. */
    ghost predicate Valid()
      reads this
    {
      forall ip | ip in requests :: |requests[ip]| <= Capacity(calls)
    }

    /** The list of a client, empty for one never seen (the defaultdict's default). */
    function History(ip: string): seq<int>
      reads this
    {
      if ip in requests then requests[ip] else []
    }

    constructor (calls: int, period: int := 60)
      ensures this.calls == calls && this.period == period
      ensures requests == map[] && Valid()
    {
      this.calls := calls;
      this.period := period;
      requests := map[];
    }

    /**
     * dispatch: purge the client's list, refuse with 429 when `calls`
     * timestamps remain, otherwise append `now` and pass the request on;
     * no other client's list is touched.
     */
    method Dispatch(clientIp: string, now: int) returns (r: Result<(), Error>)
      requires Valid()
      modifies this
      ensures Valid()
      ensures var d := Admit(old(History(clientIp)), now, calls, period);
              r.Ok? == d.allowed && requests == old(requests)[clientIp := d.kept]
      ensures r.Err? ==> r.error == TooManyRequests && StatusCode(r.error) == 429
      ensures r.Ok? <==> |Purge(old(History(clientIp)), now, period)| < calls
      ensures r.Ok? ==> requests[clientIp] == Purge(old(History(clientIp)), now, period) + [now]
      ensures r.Err? ==> requests[clientIp] == Purge(old(History(clientIp)), now, period)
      ensures forall t | t in requests[clientIp] :: now - t < period || (r.Ok? && t == now)
      ensures period > 0 ==> forall t | t in requests[clientIp] :: now - t < period
      ensures requests.Keys == old(requests).Keys + {clientIp}
      ensures forall ip | ip in old(requests) && ip != clientIp :: requests[ip] == old(requests)[ip]
    {
      var kept := Purge(History(clientIp), now, period);
      requests := requests[clientIp := kept];
      if |requests[clientIp]| >= calls {
        return Err(TooManyRequests);
      }
      requests := requests[clientIp := requests[clientIp] + [now]];
      return Ok(());
    }
  }
}
