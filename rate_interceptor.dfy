/**
 * RateInterceptor: a fixed-window request limiter. One counter is shared by every
 * route; only the limit and period vary per route, with an overall fallback.
 */
module RateLimiting {
  import opened Int32

  /** A limit of requests per period (milliseconds). */
  datatype RateObj = RateObj(limit: int32, period: int)

  /** The route -> limit table and the overall limit that applies to every other route. */
  datatype RateTable = RateTable(methodLimits: map<string, RateObj>, overall: RateObj)

  /** The interceptor's mutable state: the request counter and the start of the current window. */
  datatype Window = Window(requests: int32, startBlock: int)

  /** preHandle returns true, or checkLimit throws RateLimitException. */
  datatype Verdict = Admitted | RateLimitExceeded

  /** What one request does: the next state and its verdict. */
  datatype Step = Step(window: Window, verdict: Verdict)

  /** The limit that applies to a request URI: its table entry if it has one, else the overall limit. */
  function ActiveLimit(table: RateTable, uri: string): (r: RateObj)
    ensures uri in table.methodLimits ==> r == table.methodLimits[uri]
    ensures uri !in table.methodLimits ==> r == table.overall
  {
    if uri in table.methodLimits then table.methodLimits[uri] else table.overall
  }

  /** One preHandle followed by checkLimit, with `now` the clock reading of this request. */
  function Handle(w: Window, active: RateObj, now: int): (r: Step)
    ensures r.window.startBlock == if Inc(w.requests) == 1 then now else w.startBlock
    ensures r.verdict == RateLimitExceeded <==>
              Inc(w.requests) > active.limit && now - r.window.startBlock <= active.period
    ensures r.verdict == RateLimitExceeded ==> r.window.requests == Inc(w.requests)
    ensures r.verdict == Admitted ==>
              (r.window.requests == Inc(w.requests) <= active.limit) || r.window.requests == 0
  {
    var count := Inc(w.requests);
    var start := if count == 1 then now else w.startBlock;
    if count <= active.limit then Step(Window(count, start), Admitted)
    else if now - start > active.period then Step(Window(0, start), Admitted)
    else Step(Window(count, start), RateLimitExceeded)
  }

  /** Every request is counted: the counter goes up by one, and the window starts when it reaches one. */
  lemma HandleCounts(w: Window, active: RateObj, now: int)
    ensures var st := Handle(w, active, now);
            && (st.window.requests == Inc(w.requests) || (st.window.requests == 0 && st.verdict == Admitted))
            && (st.window.startBlock == if Inc(w.requests) == 1 then now else w.startBlock)
  {
  }

  /** Up to the limit a request is admitted and only the increment happens. */
  lemma HandleWithinLimit(w: Window, active: RateObj, now: int)
    requires Inc(w.requests) <= active.limit
    ensures Handle(w, active, now) ==
            Step(Window(Inc(w.requests), if Inc(w.requests) == 1 then now else w.startBlock), Admitted)
  {
  }

  /**
   * Over the limit once more than `period` has passed since the window start: the counter
   * drops to zero and the request is admitted; the start is left as it was.
   */
  lemma HandleRollsOver(w: Window, active: RateObj, now: int)
    requires Inc(w.requests) > active.limit && Inc(w.requests) != 1
    requires now - w.startBlock > active.period
    ensures Handle(w, active, now) == Step(Window(0, w.startBlock), Admitted)
  {
  }

  /** After a rollover the next request starts a new window at its own time. */
  lemma RolloverRestartsWindow(start: int, active: RateObj, now: int)
    requires active.limit >= 1
    ensures Handle(Window(0, start), active, now) == Step(Window(1, now), Admitted)
  {
  }

  /** Over the limit within the period the request is rejected, and it still counts. */
  lemma HandleRejects(w: Window, active: RateObj, now: int)
    requires Inc(w.requests) > active.limit && Inc(w.requests) != 1
    requires now - w.startBlock <= active.period
    ensures Handle(w, active, now) == Step(Window(Inc(w.requests), w.startBlock), RateLimitExceeded)
  {
  }

  /** A request: its URI and the clock reading when it arrives. */
  datatype Request = Request(uri: string, now: int)

  /** The verdicts of consecutive requests, and the final state. */
  datatype Trace = Trace(window: Window, verdicts: seq<Verdict>)

  function Run(w: Window, table: RateTable, reqs: seq<Request>): (r: Trace)
    ensures |r.verdicts| == |reqs|
    decreases |reqs|
  {
    if |reqs| == 0 then Trace(w, [])
    else
      var st := Handle(w, ActiveLimit(table, reqs[0].uri), reqs[0].now);
      var rest := Run(st.window, table, reqs[1..]);
      Trace(rest.window, [st.verdict] + rest.verdicts)
  }

  /**
   * Within a window (every request no more than its route's period after the start),
   * the shared counter just counts: the i-th further request is admitted exactly when
   * the count it brings the counter to is within ITS route's limit. Requests to any
   * route use up the same counter.
   */
  lemma {:induction false} RunWithinWindow(w: Window, table: RateTable, reqs: seq<Request>)
    requires 1 <= w.requests && w.requests + |reqs| <= MaxInt32
    requires forall i :: 0 <= i < |reqs| ==>
               reqs[i].now - w.startBlock <= ActiveLimit(table, reqs[i].uri).period
    ensures Run(w, table, reqs).window == Window(w.requests + |reqs|, w.startBlock)
    ensures forall i :: 0 <= i < |reqs| ==>
              (Run(w, table, reqs).verdicts[i] == Admitted <==>
               w.requests + i + 1 <= ActiveLimit(table, reqs[i].uri).limit)
    decreases |reqs|
  {
    if |reqs| > 0 {
      var st := Handle(w, ActiveLimit(table, reqs[0].uri), reqs[0].now);
      assert st.window == Window(w.requests + 1, w.startBlock);
      var tail := reqs[1..];
      assert forall i :: 0 <= i < |tail| ==> tail[i] == reqs[i + 1];
      RunWithinWindow(st.window, table, tail);
      var r := Run(w, table, reqs);
      forall i | 0 <= i < |reqs|
        ensures r.verdicts[i] == Admitted <==> w.requests + i + 1 <= ActiveLimit(table, reqs[i].uri).limit
      {
        if i > 0 {
          assert r.verdicts[i] == Run(st.window, table, tail).verdicts[i - 1];
        }
      }
    }
  }

  /**
   * With a table entry (3, 5000) for a route, from a fresh interceptor: four requests
   * within 5000 ms of the first are admitted, admitted, admitted, rejected; a fifth
   * more than 5000 ms after the first is admitted and resets the counter to zero.
   */
  lemma ThreeAdmittedThenRejected(overall: RateObj, t: seq<int>, start: int)
    requires |t| == 5
    requires forall i :: 0 <= i < 4 ==> t[i] - t[0] <= 5000
    requires t[4] - t[0] > 5000
    ensures var table := RateTable(map["/widget/many" := RateObj(3, 5000)], overall);
            var reqs := seq(5, i requires 0 <= i < 5 => Request("/widget/many", t[i]));
            var r := Run(Window(0, start), table, reqs);
            r.verdicts == [Admitted, Admitted, Admitted, RateLimitExceeded, Admitted] &&
            r.window == Window(0, t[0])
  {
    var table := RateTable(map["/widget/many" := RateObj(3, 5000)], overall);
    var reqs := seq(5, i requires 0 <= i < 5 => Request("/widget/many", t[i]));
    var first := Handle(Window(0, start), ActiveLimit(table, reqs[0].uri), reqs[0].now);
    assert first == Step(Window(1, t[0]), Admitted);
    var burst := reqs[1..4];
    RunWithinWindow(first.window, table, burst);
    var b := Run(first.window, table, burst);
    assert b.window == Window(4, t[0]);
    var last := Handle(b.window, ActiveLimit(table, reqs[4].uri), reqs[4].now);
    assert last == Step(Window(0, t[0]), Admitted);
    RunSplit(first.window, table, burst, reqs[4..]);
    assert reqs[1..] == burst + reqs[4..];
    var r := Run(Window(0, start), table, reqs);
    assert r.verdicts == [Admitted] + Run(first.window, table, reqs[1..]).verdicts;
  }

  /** Running two batches of requests one after the other is running them together. */
  lemma {:induction false} RunSplit(w: Window, table: RateTable, a: seq<Request>, b: seq<Request>)
    ensures Run(w, table, a + b) ==
            Trace(Run(Run(w, table, a).window, table, b).window,
                  Run(w, table, a).verdicts + Run(Run(w, table, a).window, table, b).verdicts)
    decreases |a|
  {
    if |a| == 0 {
      assert a + b == b;
    } else {
      assert (a + b)[0] == a[0];
      assert (a + b)[1..] == a[1..] + b;
      var st := Handle(w, ActiveLimit(table, a[0].uri), a[0].now);
      RunSplit(st.window, table, a[1..], b);
    }
  }

  /**
   * The interceptor object. The limit table is fixed when it is built (from the
   * controller's annotations); `now` is System.currentTimeMillis() for the request.
   */
  class RateInterceptor {
    var requests: int32
    var startBlock: int
    const limits: RateTable

    function State(): (r: Window)
      reads this
    {
      Window(requests, startBlock)
    }

    constructor (limits: RateTable)
      ensures State() == Window(0, 0) && this.limits == limits
    {
      requests := 0;
      startBlock := 0;
      this.limits := limits;
    }

    /** preHandle: count the request, start the window on the first one, then check the limit. */
    method PreHandle(uri: string, now: int) returns (v: Verdict)
      modifies this
      ensures Step(State(), v) == Handle(old(State()), ActiveLimit(limits, uri), now)
    {
      requests := Inc(requests);
      if requests == 1 {
        startBlock := now;
      }
      v := CheckLimit(requests, uri, now);
    }

    /**
     * checkLimit: over the active limit, either the period has passed since the window
     * start (reset the counter, admit) or the request is rejected.
     */
    method CheckLimit(incomingRequests: int32, uri: string, now: int) returns (v: Verdict)
      modifies this`requests
      ensures var active := ActiveLimit(limits, uri);
              && (incomingRequests <= active.limit ==> v == Admitted && requests == old(requests))
              && (incomingRequests > active.limit && now - startBlock > active.period ==>
                    v == Admitted && requests == 0)
              && (incomingRequests > active.limit && now - startBlock <= active.period ==>
                    v == RateLimitExceeded && requests == old(requests))
    {
      var activeLimit := ActiveLimit(limits, uri);
      v := Admitted;
      if incomingRequests > activeLimit.limit {
        if now - startBlock > activeLimit.period {
          requests := 0;
        } else {
          v := RateLimitExceeded;
        }
      }
    }
  }
}
