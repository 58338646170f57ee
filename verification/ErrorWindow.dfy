/** The sliding error window of IDSMiddleware._record_error in addons/security.py. */
module ErrorWindow {
  import opened Prelude

  /** Pops old entries from the left, stopping at the first recent one. */
  function Evict(dq: seq<real>, cutoff: real): seq<real> {
    if dq != [] && dq[0] < cutoff then Evict(dq[1..], cutoff) else dq
  }

  /** All times from the cutoff on, wherever they stand. */
  function Since(times: seq<real>, cutoff: real): seq<real> {
    if times == [] then []
    else Since(times[..|times| - 1], cutoff) + if times[|times| - 1] >= cutoff then [times[|times| - 1]] else []
  }

  class ErrorWindows {
    const window: real
    const maxErrors: int
    var windows: map<string, seq<real>>

    constructor (window: real, maxErrors: int)
      ensures this.window == window && this.maxErrors == maxErrors && windows == map[]
    {
      this.window, this.maxErrors, windows := window, maxErrors, map[];
    }

    /** Records an error and reports whether it makes a spike. */
    method RecordError(ip: string, now: real) returns (spike: bool)
      modifies this
      ensures windows == AfterHit(old(windows), Hit(ip, now), window)
      ensures spike <==> |windows[ip]| >= maxErrors
    {
      var dq := (if ip in windows then windows[ip] else []) + [now];
      var cutoff := now - window;
      ghost var all := dq;
      while dq != [] && dq[0] < cutoff
        invariant Evict(dq, cutoff) == Evict(all, cutoff)
        decreases |dq|
      {
        dq := dq[1..];
      }
      windows := windows[ip := dq];
      spike := |dq| >= maxErrors;
    }
  }

  // ---- the deque is the recent part of the history ----------------------------------------------

  predicate NotAfter(times: seq<real>, i: int, j: int)
    requires 0 <= i < j < |times|
  {
    times[i] <= times[j]
  }

  predicate Nondecreasing(times: seq<real>) {
    forall i, j :: 0 <= i < j < |times| ==> NotAfter(times, i, j)
  }

  lemma OrderedPop(times: seq<real>)
    requires Nondecreasing(times) && times != []
    ensures Nondecreasing(times[..|times| - 1]) && Nondecreasing(times[1..])
    ensures forall i :: 0 <= i < |times| ==> times[0] <= times[i] <= times[|times| - 1]
  {
    var front, back := times[..|times| - 1], times[1..];
    forall i, j | 0 <= i < j < |front| ensures NotAfter(front, i, j) { assert NotAfter(times, i, j); }
    forall i, j | 0 <= i < j < |back| ensures NotAfter(back, i, j) { assert NotAfter(times, i + 1, j + 1); }
    forall i | 0 <= i < |times| ensures times[0] <= times[i] <= times[|times| - 1] {
      if i > 0 { assert NotAfter(times, 0, i); }
      if i < |times| - 1 { assert NotAfter(times, i, |times| - 1); }
    }
  }

  /** The deque of one address after a history of errors. */
  function DequeAfter(times: seq<real>, window: real): seq<real> {
    if times == [] then []
    else
      var now := times[|times| - 1];
      Evict(DequeAfter(times[..|times| - 1], window) + [now], now - window)
  }

  /** On a nondecreasing list, evicting from the left drops exactly what is too old. */
  lemma {:induction false} EvictIsSince(times: seq<real>, cutoff: real)
    requires Nondecreasing(times)
    ensures Evict(times, cutoff) == Since(times, cutoff)
    decreases |times|
  {
    if times != [] {
      OrderedPop(times);
      if times[0] < cutoff {
        EvictIsSince(times[1..], cutoff);
        SinceDropsFirst(times, cutoff);
      } else {
        SinceKeepsAll(times, cutoff);
      }
    }
  }

  /** Filtering keeps each time from the cutoff on as often as it stood there, and no other. */
  lemma {:induction false} SinceExactly(times: seq<real>, cutoff: real, x: real)
    ensures multiset(Since(times, cutoff))[x] == if x >= cutoff then multiset(times)[x] else 0
  {
    if times != [] {
      SinceExactly(times[..|times| - 1], cutoff, x);
      assert times == times[..|times| - 1] + [times[|times| - 1]];
    }
  }

  lemma {:induction false} SinceDropsFirst(times: seq<real>, cutoff: real)
    requires times != [] && times[0] < cutoff
    ensures Since(times, cutoff) == Since(times[1..], cutoff)
  {
    if |times| > 1 {
      SinceDropsFirst(times[..|times| - 1], cutoff);
      assert times[..|times| - 1][1..] == times[1..][..|times| - 2];
    }
  }

  lemma {:induction false} SinceKeepsAll(times: seq<real>, cutoff: real)
    requires forall i :: 0 <= i < |times| ==> times[i] >= cutoff
    ensures Since(times, cutoff) == times
  {
    if times != [] { SinceKeepsAll(times[..|times| - 1], cutoff); }
  }

  lemma {:induction false} SinceTwice(times: seq<real>, c: real, c': real)
    requires c <= c'
    ensures Since(Since(times, c), c') == Since(times, c')
  {
    if times != [] {
      var front, t := times[..|times| - 1], times[|times| - 1];
      SinceTwice(front, c, c');
      if t >= c {
        SincePush(Since(front, c), t, c');
      } else {
        assert Since(times, c) == Since(front, c) && Since(times, c') == Since(front, c');
      }
    }
  }

  lemma SincePush(times: seq<real>, t: real, cutoff: real)
    ensures Since(times + [t], cutoff) == Since(times, cutoff) + if t >= cutoff then [t] else []
  {
    assert (times + [t])[..|times|] == times;
  }

  lemma {:induction false} SinceOrdered(times: seq<real>, cutoff: real)
    requires Nondecreasing(times)
    ensures Nondecreasing(Since(times, cutoff))
    ensures times == [] ==> Since(times, cutoff) == []
    ensures times != [] ==> forall i :: 0 <= i < |Since(times, cutoff)| ==>
              Since(times, cutoff)[i] <= times[|times| - 1]
  {
    if times != [] {
      var front := times[..|times| - 1];
      OrderedPop(times);
      SinceOrdered(front, cutoff);
      var kept, last := Since(front, cutoff), times[|times| - 1];
      forall i | 0 <= i < |kept| ensures kept[i] <= last {
        assert kept[i] <= front[|front| - 1] == times[|times| - 2];
      }
      OrderedPush(kept, last);
      assert kept + [] == kept;
    }
  }

  lemma OrderedPush(s: seq<real>, now: real)
    requires Nondecreasing(s) && forall i :: 0 <= i < |s| ==> s[i] <= now
    ensures Nondecreasing(s + [now])
  {
    var t := s + [now];
    forall i, j | 0 <= i < j < |t| ensures NotAfter(t, i, j) {
      if j < |s| { assert NotAfter(s, i, j); }
    }
  }

  /** One more error: evicting from the old window and the new error leaves the new window. */
  lemma WindowStep(front: seq<real>, now: real, before: real, cutoff: real)
    requires Nondecreasing(front) && before <= cutoff && (front != [] ==> front[|front| - 1] <= now)
    ensures Evict(Since(front, before) + [now], cutoff) == Since(front + [now], cutoff)
  {
    SinceOrdered(front, before);
    OrderedPush(Since(front, before), now);
    EvictIsSince(Since(front, before) + [now], cutoff);
    SincePush(Since(front, before), now, cutoff);
    SincePush(front, now, cutoff);
    SinceTwice(front, before, cutoff);
  }

  /**
   * After any nondecreasing history of errors the deque holds exactly the errors of the last
   * window, so the spike test counts those and no others.
   */
  lemma {:induction false} DequeIsTheWindow(times: seq<real>, window: real)
    requires Nondecreasing(times) && times != []
    ensures DequeAfter(times, window) == Since(times, times[|times| - 1] - window)
  {
    var front, now := times[..|times| - 1], times[|times| - 1];
    assert times == front + [now];
    OrderedPop(times);
    if front == [] {
      WindowStep(front, now, now - window, now - window);
    } else {
      DequeIsTheWindow(front, window);
      WindowStep(front, now, front[|front| - 1] - window, now - window);
    }
  }

  // ---- many addresses ------------------------------------------------------------------------------

  datatype Hit = Hit(ip: string, at: real)

  /** The table after one recorded error, as RecordError leaves it. */
  function AfterHit(windows: map<string, seq<real>>, hit: Hit, window: real): map<string, seq<real>> {
    windows[hit.ip := Evict((if hit.ip in windows then windows[hit.ip] else []) + [hit.at], hit.at - window)]
  }

  function AfterHits(hits: seq<Hit>, window: real): map<string, seq<real>> {
    if hits == [] then map[] else AfterHit(AfterHits(hits[..|hits| - 1], window), hits[|hits| - 1], window)
  }

  /** The whole error history of one address. */
  function TimesOf(hits: seq<Hit>, ip: string): seq<real> {
    if hits == [] then []
    else
      var h := hits[|hits| - 1];
      TimesOf(hits[..|hits| - 1], ip) + if h.ip == ip then [h.at] else []
  }

  lemma {:induction false} TableHoldsDeques(hits: seq<Hit>, window: real, ip: string)
    ensures ip in AfterHits(hits, window) <==> TimesOf(hits, ip) != []
    ensures ip in AfterHits(hits, window) ==> AfterHits(hits, window)[ip] == DequeAfter(TimesOf(hits, ip), window)
  {
    if hits != [] {
      var front, h := hits[..|hits| - 1], hits[|hits| - 1];
      TableHoldsDeques(front, window, ip);
      var times := TimesOf(front, ip);
      assert (times + [h.at])[..|times|] == times;
      if h.ip != ip { assert TimesOf(hits, ip) == times; }
    }
  }

  /**
   * Whatever other addresses do, an error of an address with nondecreasing error times leaves in
   * its deque exactly its errors of the last window, never more than it ever recorded.
   */
  lemma DequeIsRecentHistory(hits: seq<Hit>, hit: Hit, window: real)
    requires Nondecreasing(TimesOf(hits + [hit], hit.ip))
    ensures var table := AfterHits(hits + [hit], window); var times := TimesOf(hits + [hit], hit.ip);
            && table == AfterHit(AfterHits(hits, window), hit, window)
            && hit.ip in table && table[hit.ip] == Since(times, hit.at - window)
            && |table[hit.ip]| <= |times|
  {
    var all := hits + [hit];
    assert all[..|all| - 1] == hits;
    TableHoldsDeques(all, window, hit.ip);
    DequeIsTheWindow(TimesOf(all, hit.ip), window);
    SinceIsShorter(TimesOf(all, hit.ip), hit.at - window);
  }

  lemma {:induction false} SinceIsShorter(times: seq<real>, cutoff: real)
    ensures |Since(times, cutoff)| <= |times|
  {
    if times != [] { SinceIsShorter(times[..|times| - 1], cutoff); }
  }
}
