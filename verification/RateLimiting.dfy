/** The per-key sliding-window rate limiter. Times are nanoseconds on a clock that does not run backwards. */
module RateLimiting {

  const SECOND: int := 1_000_000_000

  /** A limit below one makes Allow index an empty list. */
  datatype Decision = Allowed | Denied(retryAfter: int) | Panicked

  /** The times after the cutoff, in order. */
  ghost function Live(times: seq<int>, cutoff: int): seq<int> {
    if times == [] then []
    else Live(times[..|times| - 1], cutoff) + (if times[|times| - 1] > cutoff then [times[|times| - 1]] else [])
  }

  /** How many of the times lie in the half-open window (end - window, end]. */
  ghost function InWindow(times: seq<int>, end: int, window: int): nat {
    if times == [] then 0
    else InWindow(times[..|times| - 1], end, window) + (if end - window < times[|times| - 1] <= end then 1 else 0)
  }

  /** The window's count is a number of admissions, its start excluded and its end included. */
  lemma {:induction false} WindowCounts(times: seq<int>, end: int, window: int)
    ensures InWindow(times, end, window) == |set i | 0 <= i < |times| && end - window < times[i] <= end|
  {
    var here := set i | 0 <= i < |times| && end - window < times[i] <= end;
    if times == [] {
      assert here == {};
    } else {
      var front, last := times[..|times| - 1], |times| - 1;
      var before := set i | 0 <= i < |front| && end - window < front[i] <= end;
      WindowCounts(front, end, window);
      assert here == before + if end - window < times[last] <= end then {last} else {};
    }
  }

  /** The live times are exactly those after the cutoff, as often as they occur. */
  lemma {:induction false} LiveExact(times: seq<int>, cutoff: int, t: int)
    ensures multiset(Live(times, cutoff))[t] == if t > cutoff then multiset(times)[t] else 0
  {
    if times != [] {
      LiveExact(times[..|times| - 1], cutoff, t);
      assert times == times[..|times| - 1] + [times[|times| - 1]];
    }
  }

  function TimesOf(m: map<string, seq<int>>, key: string): seq<int> {
    if key in m then m[key] else []
  }

  ghost predicate Ascending(times: seq<int>) {
    forall i, j :: 0 <= i < j < |times| ==> times[i] <= times[j]
  }

  lemma LiveStep(times: seq<int>, i: nat, cutoff: int)
    requires i < |times|
    ensures Live(times[..i + 1], cutoff) == Live(times[..i], cutoff) + (if times[i] > cutoff then [times[i]] else [])
  {
    assert times[..i + 1][..i] == times[..i];
  }

  lemma LiveAppend(times: seq<int>, t: int, cutoff: int)
    ensures Live(times + [t], cutoff) == Live(times, cutoff) + (if t > cutoff then [t] else [])
  {
    assert (times + [t])[..|times|] == times;
  }

  /** What is live at a later cutoff is what is live of the already live. */
  lemma {:induction false} LiveTwice(times: seq<int>, early: int, late: int)
    requires early <= late
    ensures Live(Live(times, early), late) == Live(times, late)
  {
    if times != [] {
      var front, t := times[..|times| - 1], times[|times| - 1];
      LiveTwice(front, early, late);
      if t > early {
        LiveAppend(Live(front, early), t, late);
        assert Live(times, early) == Live(front, early) + [t];
      } else {
        assert Live(times, early) == Live(front, early);
      }
    }
  }

  lemma {:induction false} LiveShrinks(times: seq<int>, early: int, late: int)
    requires early <= late
    ensures |Live(times, late)| <= |Live(times, early)|
  {
    if times != [] {
      LiveShrinks(times[..|times| - 1], early, late);
    }
  }

  ghost predicate AtMost(times: seq<int>, end: int) {
    forall i :: 0 <= i < |times| ==> times[i] <= end
  }

  lemma {:induction false} LiveOrdered(times: seq<int>, cutoff: int, end: int)
    requires Ascending(times) && AtMost(times, end)
    ensures Ascending(Live(times, cutoff)) && AtMost(Live(times, cutoff), end)
    ensures forall i :: 0 <= i < |Live(times, cutoff)| ==> Live(times, cutoff)[i] > cutoff
  {
    if times != [] {
      LiveOrdered(times[..|times| - 1], cutoff, times[|times| - 1]);
    }
  }

  /** Once the clock has reached the end of a window, what lies in it is what is live at its start. */
  lemma {:induction false} WindowIsLive(times: seq<int>, end: int, window: int)
    requires AtMost(times, end)
    ensures InWindow(times, end, window) == |Live(times, end - window)|
  {
    if times != [] {
      WindowIsLive(times[..|times| - 1], end, window);
    }
  }

  lemma WindowAppend(times: seq<int>, t: int, end: int, window: int)
    ensures InWindow(times + [t], end, window) == InWindow(times, end, window) + (if end - window < t <= end then 1 else 0)
  {
    assert (times + [t])[..|times|] == times;
  }

  /** No window of the given length holds more than max admissions. */
  ghost predicate Bounded(times: seq<int>, max: int, window: int) {
    forall end :: InWindow(times, end, window) <= if max >= 0 then max else 0
  }

  lemma AdmitKeepsBound(times: seq<int>, max: int, window: int, now: int)
    requires Bounded(times, max, window)
    requires AtMost(times, now)
    requires |Live(times, now - window)| < max
    ensures Bounded(times + [now], max, window)
  {
    forall end ensures InWindow(times + [now], end, window) <= max {
      WindowAppend(times, now, end, window);
      assert InWindow(times, end, window) <= if max >= 0 then max else 0;
      if now <= end {
        WindowIsLive(times, end, window);
        LiveShrinks(times, now - window, end - window);
      }
    }
  }

  /** What is kept of one key's full history. */
  ghost predicate Sound(history: seq<int>, max: int, window: int, clock: int) {
    Ascending(history) && AtMost(history, clock) && Bounded(history, max, window)
  }

  /** The stored lists agree with the full histories on everything after the cutoff. */
  ghost predicate Agree(stored: map<string, seq<int>>, admitted: map<string, seq<int>>, cutoff: int) {
    forall key :: LiveAgrees(stored, admitted, cutoff, key)
  }

  ghost predicate LiveAgrees(stored: map<string, seq<int>>, admitted: map<string, seq<int>>, cutoff: int, key: string) {
    Live(TimesOf(stored, key), cutoff) == Live(TimesOf(admitted, key), cutoff)
  }

  ghost predicate AllSound(admitted: map<string, seq<int>>, max: int, window: int, clock: int) {
    forall key :: Sound(TimesOf(admitted, key), max, window, clock)
  }

  ghost predicate Consistent(stored: map<string, seq<int>>, admitted: map<string, seq<int>>, max: int, window: int, clock: int) {
    Agree(stored, admitted, clock - window) && AllSound(admitted, max, window, clock)
  }

  /** Whole seconds until the oldest live admission leaves the window, plus one. */
  function RetryAfter(oldest: int, window: int, now: int): int {
    var left := oldest + window - now;
    var seconds := if left >= 0 then left / SECOND else -((-left) / SECOND);
    if seconds + 1 >= 1 then seconds + 1 else 1
  }

  class RateLimiter {
    const max: int
    const window: int
    var entries: map<string, seq<int>>
    ghost var admitted: map<string, seq<int>>
    ghost var clock: int

    ghost predicate Valid()
      reads this
    {
      Consistent(entries, admitted, max, window, clock)
    }

    constructor (max: int, window: int)
      ensures Valid() && this.max == max && this.window == window && admitted == map[]
    {
      this.max, this.window := max, window;
      entries, admitted, clock := map[], map[], 0;
    }

    /** Drops what has left the window, in place. */
    static method Compact(times0: seq<int>, cutoff: int) returns (times: seq<int>)
      ensures times == Live(times0, cutoff)
    {
      times := times0;
      var n := 0;
      for i := 0 to |times0|
        invariant 0 <= n <= i && |times| == |times0|
        invariant times[..n] == Live(times0[..i], cutoff)
        invariant times[i..] == times0[i..]
      {
        LiveStep(times0, i, cutoff);
        var t := times[i];
        assert t == times[i..][0] == times0[i];
        if t > cutoff {
          times := times[n := t];
          n := n + 1;
        }
      }
      assert times0[..|times0|] == times0;
      times := times[..n];
    }

    method Allow(ip: string, now: int) returns (d: Decision)
      requires Valid() && now >= clock
      modifies this
      ensures Valid() && clock == now
      ensures
        var live := Live(old(TimesOf(admitted, ip)), now - window);
        d == if |live| < max then Allowed
             else if live == [] then Panicked
             else Denied(RetryAfter(live[0], window, now))
      ensures d == Panicked <==> max < 1
      ensures admitted == if d == Allowed then old(admitted)[ip := old(TimesOf(admitted, ip)) + [now]] else old(admitted)
    {
      var cutoff := now - window;
      var times := Compact(TimesOf(entries, ip), cutoff);
      ghost var history := TimesOf(admitted, ip);
      LaterAgrees(entries, admitted, clock - window, cutoff, ip);
      PanicsIff(admitted, max, window, clock, now, ip);
      if |times| >= max {
        DenyKeeps(entries, admitted, max, window, clock, now, ip);
        entries := entries[ip := times];
        clock := now;
        if times == [] {
          return Panicked;
        }
        return Denied(RetryAfter(times[0], window, now));
      }
      AdmitKeeps(entries, admitted, max, window, clock, now, ip);
      entries := entries[ip := times + [now]];
      admitted := admitted[ip := history + [now]];
      clock := now;
      d := Allowed;
    }

    /** Forgets keys with nothing left in the window. No later answer can change: the history is kept. */
    method Cleanup(now: int)
      requires Valid() && now >= clock
      modifies this
      ensures Valid() && clock == now && admitted == old(admitted)
      ensures entries.Keys == Active(admitted.Keys, admitted, now - window)
    {
      var cutoff := now - window;
      CleanupKeeps(entries, admitted, max, window, clock, now);
      var active := DropInactive(entries, cutoff);
      assert Consistent(active, admitted, max, window, now);
      assert active.Keys == Active(admitted.Keys, admitted, cutoff);
      entries, clock := active, now;
    }

    static method DropInactive(entries0: map<string, seq<int>>, cutoff: int) returns (entries: map<string, seq<int>>)
      ensures entries == Survivors(entries0, {}, cutoff)
    {
      entries := entries0;
      var pending := entries.Keys;
      assert Survivors(entries, pending, cutoff) == entries;
      while pending != {}
        invariant pending <= entries0.Keys
        invariant entries == Survivors(entries0, pending, cutoff)
        decreases pending
      {
        var ip :| ip in pending;
        SurvivorsStep(entries0, pending, cutoff, ip);
        var live := Compact(entries[ip], cutoff);
        if live == [] {
          entries := entries - {ip};
        }
        pending := pending - {ip};
      }
    }

    /** Every key with an admission in the window is counted; right after Cleanup no other is. */
    method Keys() returns (n: nat)
      requires Valid()
      ensures n == |entries.Keys| >= |Active(admitted.Keys, admitted, clock - window)|
    {
      n := |entries|;
      ActiveStored(entries, admitted, clock - window);
    }
  }

  /** The entries left once all keys but the pending ones have been looked at. */
  ghost function Survivors(entries: map<string, seq<int>>, pending: set<string>, cutoff: int): map<string, seq<int>> {
    map key | key in entries && (key in pending || Live(entries[key], cutoff) != []) :: entries[key]
  }

  lemma SurvivorsStep(entries: map<string, seq<int>>, pending: set<string>, cutoff: int, ip: string)
    requires ip in pending && ip in entries
    ensures var was := Survivors(entries, pending, cutoff);
      && ip in was && was[ip] == entries[ip]
      && Survivors(entries, pending - {ip}, cutoff) == if Live(entries[ip], cutoff) == [] then was - {ip} else was
  {
  }

  /** The keys with an admission still in the window. */
  ghost function Active(keys: set<string>, admitted: map<string, seq<int>>, cutoff: int): set<string> {
    set key | key in keys && Live(TimesOf(admitted, key), cutoff) != []
  }

  lemma ActiveStored(stored: map<string, seq<int>>, admitted: map<string, seq<int>>, cutoff: int)
    requires Agree(stored, admitted, cutoff)
    ensures Active(admitted.Keys, admitted, cutoff) <= stored.Keys
    ensures |Active(admitted.Keys, admitted, cutoff)| <= |stored.Keys|
  {
    var active := Active(admitted.Keys, admitted, cutoff);
    forall key | key in active ensures key in stored {
      assert LiveAgrees(stored, admitted, cutoff, key);
    }
    assert stored.Keys == active + (stored.Keys - active);
  }

  lemma LaterAgrees(stored: map<string, seq<int>>, admitted: map<string, seq<int>>, early: int, late: int, key: string)
    requires Agree(stored, admitted, early) && early <= late
    ensures LiveAgrees(stored, admitted, late, key)
  {
    assert LiveAgrees(stored, admitted, early, key);
    LiveTwice(TimesOf(stored, key), early, late);
    LiveTwice(TimesOf(admitted, key), early, late);
  }

  /** The list a refusal indexes is empty exactly when the limit is below one: up to the limit of
      admissions are live, and with a limit of at least one a refusal finds them. */
  lemma PanicsIff(admitted: map<string, seq<int>>, max: int, window: int, clock: int, now: int, ip: string)
    requires AllSound(admitted, max, window, clock) && clock <= now
    ensures |Live(TimesOf(admitted, ip), now - window)| >= max && Live(TimesOf(admitted, ip), now - window) == [] <==> max < 1
  {
    var history := TimesOf(admitted, ip);
    assert Sound(history, max, window, clock);
    WindowIsLive(history, now, window);
    assert InWindow(history, now, window) <= if max >= 0 then max else 0;
  }

  lemma LaterSound(admitted: map<string, seq<int>>, max: int, window: int, clock: int, now: int)
    requires clock <= now && AllSound(admitted, max, window, clock)
    ensures AllSound(admitted, max, window, now)
  {
    forall key ensures Sound(TimesOf(admitted, key), max, window, now) {
      assert Sound(TimesOf(admitted, key), max, window, clock);
    }
  }

  lemma DenyKeeps(stored: map<string, seq<int>>, admitted: map<string, seq<int>>, max: int, window: int, clock: int,
                  now: int, ip: string)
    requires Consistent(stored, admitted, max, window, clock) && clock <= now
    ensures Consistent(stored[ip := Live(TimesOf(admitted, ip), now - window)], admitted, max, window, now)
  {
    DenyAgree(stored, admitted, clock - window, now - window, ip);
    LaterSound(admitted, max, window, clock, now);
  }

  lemma DenyAgree(stored: map<string, seq<int>>, admitted: map<string, seq<int>>, early: int, cutoff: int, ip: string)
    requires Agree(stored, admitted, early) && early <= cutoff
    ensures Agree(stored[ip := Live(TimesOf(admitted, ip), cutoff)], admitted, cutoff)
  {
    var after := stored[ip := Live(TimesOf(admitted, ip), cutoff)];
    forall key ensures LiveAgrees(after, admitted, cutoff, key) {
      DenyAgrees(stored, admitted, early, cutoff, ip, key);
    }
  }

  lemma DenyAgrees(stored: map<string, seq<int>>, admitted: map<string, seq<int>>, early: int, cutoff: int, ip: string, key: string)
    requires Agree(stored, admitted, early) && early <= cutoff
    ensures LiveAgrees(stored[ip := Live(TimesOf(admitted, ip), cutoff)], admitted, cutoff, key)
  {
    if key == ip {
      LiveTwice(TimesOf(admitted, ip), cutoff, cutoff);
    } else {
      LaterAgrees(stored, admitted, early, cutoff, key);
    }
  }

  lemma AdmitSound(admitted: map<string, seq<int>>, max: int, window: int, now: int, ip: string)
    requires AllSound(admitted, max, window, now) && |Live(TimesOf(admitted, ip), now - window)| < max
    ensures AllSound(admitted[ip := TimesOf(admitted, ip) + [now]], max, window, now)
  {
    var history := TimesOf(admitted, ip);
    var after := admitted[ip := history + [now]];
    assert Sound(history, max, window, now);
    AdmitKeepsBound(history, max, window, now);
    forall key ensures Sound(TimesOf(after, key), max, window, now) {
      assert TimesOf(after, key) == if key == ip then history + [now] else TimesOf(admitted, key);
      assert Sound(TimesOf(admitted, key), max, window, now);
    }
  }

  lemma AdmitKeeps(stored: map<string, seq<int>>, admitted: map<string, seq<int>>, max: int, window: int, clock: int,
                   now: int, ip: string)
    requires Consistent(stored, admitted, max, window, clock) && clock <= now
    requires |Live(TimesOf(admitted, ip), now - window)| < max
    ensures Consistent(stored[ip := Live(TimesOf(admitted, ip), now - window) + [now]],
                       admitted[ip := TimesOf(admitted, ip) + [now]], max, window, now)
  {
    var history, cutoff := TimesOf(admitted, ip), now - window;
    var after, store := admitted[ip := history + [now]], stored[ip := Live(history, cutoff) + [now]];
    forall key ensures LiveAgrees(store, after, cutoff, key) {
      if key == ip {
        LiveTwice(history, cutoff, cutoff);
        LiveAppend(Live(history, cutoff), now, cutoff);
        LiveAppend(history, now, cutoff);
      } else {
        LaterAgrees(stored, admitted, clock - window, cutoff, key);
        assert TimesOf(store, key) == TimesOf(stored, key) && TimesOf(after, key) == TimesOf(admitted, key);
      }
    }
    LaterSound(admitted, max, window, clock, now);
    AdmitSound(admitted, max, window, now, ip);
  }

  lemma CleanupKeeps(stored: map<string, seq<int>>, admitted: map<string, seq<int>>, max: int, window: int, clock: int, now: int)
    requires Consistent(stored, admitted, max, window, clock) && clock <= now
    ensures Consistent(Survivors(stored, {}, now - window), admitted, max, window, now)
    ensures Survivors(stored, {}, now - window).Keys == Active(admitted.Keys, admitted, now - window)
  {
    var after, cutoff := Survivors(stored, {}, now - window), now - window;
    forall key ensures LiveAgrees(after, admitted, cutoff, key) && (key in after <==> key in Active(admitted.Keys, admitted, cutoff)) {
      LaterAgrees(stored, admitted, clock - window, cutoff, key);
    }
    LaterSound(admitted, max, window, clock, now);
  }

  /** With the oldest of max live admissions still counted a request is over the limit; once it has left
      it is not. */
  lemma FreedWhenOldestLeaves(live: seq<int>, max: int, cutoff: int)
    requires live != [] && Ascending(live) && |live| == max
    ensures |Live(live, cutoff)| < max <==> live[0] <= cutoff
  {
    if live[0] <= cutoff {
      FirstLeaves(live, cutoff);
    } else {
      AllStay(live, cutoff);
    }
  }

  /** Nanoseconds until the oldest live admission leaves the window. */
  ghost function TimeLeft(history: seq<int>, window: int, now: int): int {
    var live := Live(history, now - window);
    if live == [] then 0 else live[0] + window - now
  }

  lemma LiveAtDenial(history: seq<int>, max: int, window: int, now: int)
    requires max >= 1 && Sound(history, max, window, now)
    requires |Live(history, now - window)| >= max
    ensures var live := Live(history, now - window); |live| == max && Ascending(live) && live[0] > now - window
  {
    LiveFull(history, max, window, now);
    LiveOrdered(history, now - window, now);
  }

  /** After a denial with no further admission, waiting frees a slot exactly when it outlasts the oldest
      live admission. */
  lemma FreedExactly(history: seq<int>, max: int, window: int, now: int, wait: int)
    requires max >= 1 && wait >= 0 && Sound(history, max, window, now)
    requires |Live(history, now - window)| >= max
    ensures TimeLeft(history, window, now) > 0
    ensures |Live(history, now + wait - window)| < max <==> wait >= TimeLeft(history, window, now)
  {
    var live := Live(history, now - window);
    LiveAtDenial(history, max, window, now);
    FreedWhenOldestLeaves(live, max, now + wait - window);
    LiveTwice(history, now - window, now + wait - window);
  }

  /** Retry-After is honest (section 10.2.3 of RFC 9110): once retryAfter seconds have passed with no further
      admission the next request succeeds, and before retryAfter - 1 seconds have passed none would. */
  lemma RetryAfterHonest(history: seq<int>, max: int, window: int, now: int, wait: int)
    requires max >= 1 && wait >= 0 && Sound(history, max, window, now)
    requires |Live(history, now - window)| >= max
    ensures
      var seconds := RetryAfter(Live(history, now - window)[0], window, now);
      && (wait >= seconds * SECOND ==> |Live(history, now + wait - window)| < max)
      && (wait < (seconds - 1) * SECOND ==> |Live(history, now + wait - window)| >= max)
  {
    FreedExactly(history, max, window, now, wait);
    RetrySeconds(Live(history, now - window)[0], window, now);
  }

  lemma LiveFull(history: seq<int>, max: int, window: int, now: int)
    requires max >= 1 && Sound(history, max, window, now)
    ensures |Live(history, now - window)| <= max
  {
    WindowIsLive(history, now, window);
    assert InWindow(history, now, window) <= if max >= 0 then max else 0;
  }

  lemma RetrySeconds(oldest: int, window: int, now: int)
    requires oldest + window > now
    ensures var seconds := RetryAfter(oldest, window, now);
      (seconds - 1) * SECOND <= oldest + window - now < seconds * SECOND
  {
  }

  lemma {:induction false} FirstLeaves(times: seq<int>, cutoff: int)
    requires times != [] && times[0] <= cutoff
    ensures |Live(times, cutoff)| < |times|
  {
    if |times| > 1 {
      FirstLeaves(times[..|times| - 1], cutoff);
    } else {
      assert times[..0] == [];
    }
  }

  lemma {:induction false} AllStay(times: seq<int>, cutoff: int)
    requires forall i :: 0 <= i < |times| ==> times[i] > cutoff
    ensures Live(times, cutoff) == times
  {
    if times != [] {
      AllStay(times[..|times| - 1], cutoff);
    }
  }
}
