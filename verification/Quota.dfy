/**
  `CHECK_QUOTA_SCRIPT` and `_parse_rate` of accounts/throttles.py: a counter per key that expires
  `window` seconds after it was created.  The script runs atomically, so a run is a sequence of calls
  at non-decreasing times.  A key is alive before its expiry instant and gone from it on.
*/
module Quota {
  import opened Options
  import opened Text

  datatype Counter = Counter(count: nat, expiresAt: int)

  /** The triple the script returns, or the error it ends in: Redis refuses to SET with EX 0. */
  datatype Reply = Reply(allowed: bool, count: nat, ttl: int) | ScriptError

  predicate Allowed(reply: Reply) { reply.Reply? && reply.allowed }

  predicate Alive(key: Option<Counter>, now: int) {
    key.Some? && now < key.value.expiresAt
  }

  /** The script: the counter it leaves and the triple it returns. */
  function Check(key: Option<Counter>, limit: nat, window: nat, now: int): (Option<Counter>, Reply) {
    if Alive(key, now) then
      var c := key.value;
      if c.count >= limit then (key, Reply(false, c.count, c.expiresAt - now))
      else (Some(c.(count := c.count + 1)), Reply(true, c.count + 1, c.expiresAt - now))
    else if window == 0 then (None, ScriptError)
    else (Some(Counter(1, now + window)), Reply(true, 1, window))
  }

  /** The key as Redis holds it; each call is one execution of the script. */
  class QuotaKey {
    var stored: Option<Counter>

    constructor ()
      ensures stored == None
    {
      stored := None;
    }

    method CheckQuota(limit: nat, window: nat, now: int) returns (reply: Reply)
      modifies this
      ensures (stored, reply) == Check(old(stored), limit, window, now)
    {
      if stored.Some? && now < stored.value.expiresAt {
        var current := stored.value.count;
        var ttl := stored.value.expiresAt - now;
        if current >= limit { return Reply(false, current, ttl); }
        stored := Some(stored.value.(count := current + 1));
        return Reply(true, current + 1, ttl);
      }
      if window == 0 {
        stored := None;
        return ScriptError;
      }
      stored := Some(Counter(1, now + window));
      reply := Reply(true, 1, window);
    }
  }

  // ---- timed runs --------------------------------------------------------------

  /** An allowed call: when, since when its window is open, and as which one of that window. */
  datatype Grant = Grant(at: int, since: int, rank: nat)

  datatype History = History(key: Option<Counter>, grants: seq<Grant>, last: int)

  function Call(h: History, limit: nat, window: nat, now: int): History {
    var (key, reply) := Check(h.key, limit, window, now);
    if Allowed(reply) then History(key, h.grants + [Grant(now, key.value.expiresAt - window, reply.count)], now)
    else History(key, h.grants, now)
  }

  function Calls(h: History, limit: nat, window: nat, times: seq<int>): History
    decreases |times|
  {
    if times == [] then h else Calls(Call(h, limit, window, times[0]), limit, window, times[1..])
  }

  predicate Sorted(times: seq<int>) {
    forall i, j | 0 <= i < j < |times| :: times[i] <= times[j]
  }

  function Fresh(now: int): History { History(None, [], now) }

  /** The script lets the first call of a window through whatever the limit is. */
  function PerWindow(limit: nat): nat { if limit == 0 then 1 else limit }

  predicate GrantOk(g: Grant, limit: nat, window: nat) {
    g.since <= g.at < g.since + window && 1 <= g.rank <= PerWindow(limit) && (g.rank == 1 ==> g.at == g.since)
  }

  /** Consecutive grants share a window or the later one opens a window after the earlier one closed. */
  predicate Linked(f: Grant, g: Grant, window: nat) {
    f.at <= g.at && if g.rank == 1 then f.since + window <= g.since else g.since == f.since && g.rank == f.rank + 1
  }

  predicate Valid(h: History, limit: nat, window: nat) {
    && (forall i | 0 <= i < |h.grants| :: GrantOk(h.grants[i], limit, window) && h.grants[i].at <= h.last)
    && (forall i | 0 <= i < |h.grants| - 1 :: Linked(h.grants[i], h.grants[i + 1], window))
    && (h.key.None? <==> h.grants == [])
    && (h.key.Some? ==> var g := h.grants[|h.grants| - 1];
                        h.key.value == Counter(g.rank, g.since + window))
    && (h.grants != [] ==> h.grants[0].rank == 1)
  }

  lemma CallKeepsValid(h: History, limit: nat, window: nat, now: int)
    requires Valid(h, limit, window) && h.last <= now && window > 0
    ensures Valid(Call(h, limit, window, now), limit, window)
  {}

  lemma {:induction false} CallsKeepValid(h: History, limit: nat, window: nat, times: seq<int>)
    requires Valid(h, limit, window) && Sorted([h.last] + times) && window > 0
    ensures Valid(Calls(h, limit, window, times), limit, window)
    decreases |times|
  {
    if times != [] {
      assert ([h.last] + times)[0] <= ([h.last] + times)[1];
      CallKeepsValid(h, limit, window, times[0]);
      assert forall k | 0 <= k < |times| :: ([times[0]] + times[1..])[k] == ([h.last] + times)[k + 1];
      CallsKeepValid(Call(h, limit, window, times[0]), limit, window, times[1..]);
    }
  }

  /** Within a window the rank counts up, so PerWindow(limit) grants later another window is open. */
  lemma {:induction false} NextWindow(h: History, limit: nat, window: nat, i: nat, n: nat)
    requires Valid(h, limit, window) && i + n < |h.grants|
    ensures h.grants[i + n].since >= h.grants[i].since
    ensures h.grants[i + n].since == h.grants[i].since || h.grants[i].since + window <= h.grants[i + n].since
    ensures h.grants[i + n].since == h.grants[i].since && window > 0 ==> h.grants[i + n].rank == h.grants[i].rank + n
    decreases n
  {
    if n > 0 {
      NextWindow(h, limit, window, i, n - 1);
      assert Linked(h.grants[i + n - 1], h.grants[i + n - 1 + 1], window);
    }
  }

  /** Of any 2 * PerWindow(limit) + 1 consecutive grants the last comes more than `window` after the first. */
  lemma GrantsSpread(h: History, limit: nat, window: nat, i: nat)
    requires Valid(h, limit, window) && window > 0 && i + 2 * PerWindow(limit) < |h.grants|
    ensures h.grants[i].at + window < h.grants[i + 2 * PerWindow(limit)].at
  {
    var m := PerWindow(limit);
    NextWindow(h, limit, window, i, m);
    NextWindow(h, limit, window, i + m, m);
    assert GrantOk(h.grants[i], limit, window) && GrantOk(h.grants[i + m], limit, window)
           && GrantOk(h.grants[i + 2 * m], limit, window);
    assert i + m + m == i + 2 * m;
  }

  function GrantedIn(gs: seq<Grant>, from: int, to: int): nat {
    if gs == [] then 0
    else GrantedIn(gs[..|gs| - 1], from, to) + if from <= gs[|gs| - 1].at <= to then 1 else 0
  }

  lemma {:induction false} CountSplit(gs: seq<Grant>, k: nat, from: int, to: int)
    requires k <= |gs|
    ensures GrantedIn(gs[..k], from, to) <= GrantedIn(gs, from, to) <= GrantedIn(gs[..k], from, to) + (|gs| - k)
    decreases |gs|
  {
    if k < |gs| {
      CountSplit(gs[..|gs| - 1], k, from, to);
      assert gs[..|gs| - 1][..k] == gs[..k];
    } else {
      assert gs[..k] == gs;
    }
  }

  lemma {:induction false} NoneBefore(gs: seq<Grant>, from: int, to: int)
    requires forall i | 0 <= i < |gs| :: gs[i].at < from
    ensures GrantedIn(gs, from, to) == 0
    decreases |gs|
  {
    if gs != [] { NoneBefore(gs[..|gs| - 1], from, to); }
  }

  lemma {:induction false} InTimeOrder(h: History, limit: nat, window: nat, i: nat, j: nat)
    requires Valid(h, limit, window) && i <= j < |h.grants|
    ensures h.grants[i].at <= h.grants[j].at
    decreases j
  {
    if i < j {
      InTimeOrder(h, limit, window, i, j - 1);
      assert Linked(h.grants[j - 1], h.grants[j - 1 + 1], window);
    }
  }

  lemma {:induction false} SpreadBoundsPrefix(h: History, limit: nat, window: nat, n: nat, from: int, to: int)
    requires Valid(h, limit, window) && window > 0 && n <= |h.grants| && to <= from + window
    ensures GrantedIn(h.grants[..n], from, to) <= 2 * PerWindow(limit)
    decreases n
  {
    var m := 2 * PerWindow(limit);
    var gs := h.grants[..n];
    if n <= m { CountSplit(gs, 0, from, to); assert gs[..0] == []; }
    else {
      var k := n - m;
      if from <= gs[n - 1].at <= to {
        forall i | 0 <= i < k ensures gs[i].at < from {
          InTimeOrder(h, limit, window, i, k - 1);
          GrantsSpread(h, limit, window, k - 1);
        }
        NoneBefore(gs[..k], from, to);
        CountSplit(gs, k, from, to);
      } else {
        SpreadBoundsPrefix(h, limit, window, n - 1, from, to);
        assert gs[..n - 1] == h.grants[..n - 1];
      }
    }
  }

  /** In any timed run, any interval of length `window` (both ends included) sees at most
      2 * max(limit, 1) allowed calls. */
  lemma AtMostTwiceTheLimit(limit: nat, window: nat, now: int, times: seq<int>, from: int)
    requires Sorted([now] + times)
    ensures GrantedIn(Calls(Fresh(now), limit, window, times).grants, from, from + window) <= 2 * PerWindow(limit)
  {
    var h := Calls(Fresh(now), limit, window, times);
    if window == 0 {
      ZeroWindowAllowsNothing(Fresh(now), limit, times);
      return;
    }
    CallsKeepValid(Fresh(now), limit, window, times);
    SpreadBoundsPrefix(h, limit, window, |h.grants|, from, from + window);
    assert h.grants[..|h.grants|] == h.grants;
  }

  /** With a window of zero every call ends in an error and nothing is ever stored. */
  lemma {:induction false} ZeroWindowAllowsNothing(h: History, limit: nat, times: seq<int>)
    requires h.key.None?
    ensures Calls(h, limit, 0, times).key.None? && Calls(h, limit, 0, times).grants == h.grants
    decreases |times|
  {
    if times != [] { ZeroWindowAllowsNothing(Call(h, limit, 0, times[0]), limit, times[1..]); }
  }

  // ---- the counter is the number of grants since its window opened -----------------

  lemma {:induction false} RankCounts(h: History, limit: nat, window: nat, n: nat, to: int)
    requires Valid(h, limit, window) && window > 0 && 0 < n <= |h.grants| && h.grants[n - 1].at <= to
    ensures GrantedIn(h.grants[..n], h.grants[n - 1].since, to) == h.grants[n - 1].rank
    decreases n
  {
    var gs, g := h.grants[..n], h.grants[n - 1];
    assert gs[..n - 1] == h.grants[..n - 1];
    assert GrantOk(g, limit, window);
    if n > 1 {
      var f := h.grants[n - 2];
      assert Linked(h.grants[n - 2], h.grants[n - 2 + 1], window) && GrantOk(f, limit, window);
      if g.rank == 1 {
        var earlier := gs[..n - 1];
        forall i | 0 <= i < |earlier| ensures earlier[i].at < g.since { InTimeOrder(h, limit, window, i, n - 2); }
        NoneBefore(earlier, g.since, to);
      } else {
        RankCounts(h, limit, window, n - 1, to);
      }
    } else {
      assert gs[..0] == [];
    }
  }

  /** What a call returns, in terms of the calls allowed before it: while a window is open the count is
      the number allowed since it opened, and a denial means the limit was reached in that window. */
  lemma ReplyMeaning(h: History, limit: nat, window: nat, now: int)
    requires Valid(h, limit, window) && window > 0 && h.last <= now
    ensures var reply := Check(h.key, limit, window, now).1;
            reply.Reply? &&
            if Alive(h.key, now) then
              var since := h.key.value.expiresAt - window;
              var sofar := GrantedIn(h.grants, since, now);
              && now < since + window && sofar >= 1
              && reply.allowed == (sofar < limit) && reply.count == (if reply.allowed then sofar + 1 else sofar)
              && now + reply.ttl == since + window
              && (!reply.allowed ==> sofar == PerWindow(limit))
            else reply.allowed && reply.count == 1 && reply.ttl == window
  {
    if Alive(h.key, now) {
      var n := |h.grants|;
      assert h.grants[..n] == h.grants;
      RankCounts(h, limit, window, n, now);
      assert GrantOk(h.grants[n - 1], limit, window);
    }
  }

  /** A denied caller who asks again is denied until exactly the `ttl` it was told has passed. */
  lemma {:induction false} DeniedUntilTtl(key: Option<Counter>, limit: nat, window: nat, now: int,
                                          retries: seq<int>, later: int)
    requires window > 0 && Alive(key, now) && !Check(key, limit, window, now).1.allowed
    requires forall k | 0 <= k < |retries| :: retries[k] < now + Check(key, limit, window, now).1.ttl
    ensures var ttl := Check(key, limit, window, now).1.ttl;
            Allowed(Check(AfterCalls(key, limit, window, retries), limit, window, later).1) <==> later >= now + ttl
    decreases |retries|
  {
    if retries != [] { DeniedUntilTtl(key, limit, window, now, retries[1..], later); }
  }

  function AfterCalls(key: Option<Counter>, limit: nat, window: nat, times: seq<int>): Option<Counter>
    decreases |times|
  {
    if times == [] then key else AfterCalls(Check(key, limit, window, times[0]).0, limit, window, times[1..])
  }

  // ---- a denial and the last `window` seconds ---------------------------------------

  /** Counting from an earlier instant counts more exactly when something was allowed in between. */
  lemma {:induction false} WiderCountsSameExactly(gs: seq<Grant>, from: int, wider: int, to: int)
    requires wider <= from && forall i | 0 <= i < |gs| :: gs[i].at <= to
    ensures GrantedIn(gs, from, to) <= GrantedIn(gs, wider, to)
    ensures GrantedIn(gs, wider, to) == GrantedIn(gs, from, to)
            <==> forall i | 0 <= i < |gs| :: gs[i].at < wider || from <= gs[i].at
    decreases |gs|
  {
    if gs != [] {
      var init := gs[..|gs| - 1];
      WiderCountsSameExactly(init, from, wider, to);
      assert forall i | 0 <= i < |init| :: gs[i] == init[i];
    }
  }

  /** A grant belongs to an earlier window than the last one exactly when it came before that window. */
  lemma EarlierWindowIsBefore(h: History, limit: nat, window: nat, i: nat)
    requires Valid(h, limit, window) && window > 0 && i < |h.grants|
    ensures var since := h.grants[|h.grants| - 1].since;
            h.grants[i].since < since <==> h.grants[i].at < since
  {
    var n := |h.grants| - 1;
    NextWindow(h, limit, window, i, n - i);
    assert GrantOk(h.grants[i], limit, window) && GrantOk(h.grants[n], limit, window);
  }

  /** A denied call finds exactly the limit allowed in the last `window` seconds if and only if whatever
      an earlier window allowed is at least `window` seconds old. */
  lemma DenialCountExactly(h: History, limit: nat, window: nat, now: int)
    requires Valid(h, limit, window) && window > 0 && h.last <= now
    requires Alive(h.key, now) && !Check(h.key, limit, window, now).1.allowed
    ensures GrantedIn(h.grants, now - window + 1, now) >= PerWindow(limit)
    ensures GrantedIn(h.grants, now - window + 1, now) == PerWindow(limit)
            <==> forall i | 0 <= i < |h.grants| && h.grants[i].since + window < h.key.value.expiresAt ::
                   h.grants[i].at <= now - window
  {
    var since := h.key.value.expiresAt - window;
    ReplyMeaning(h, limit, window, now);
    WiderCountsSameExactly(h.grants, since, now - window + 1, now);
    forall i | 0 <= i < |h.grants| ensures h.grants[i].since < since <==> h.grants[i].at < since {
      EarlierWindowIsBefore(h, limit, window, i);
    }
  }

  /** One call late in a window of two, then two more as soon as it is over. */
  function LateThenTwo(now: int, window: nat): seq<int> {
    [now] + ([now + window - 1] + ([now + window] + ([now + window] + [])))
  }

  function LateThenTwoGrants(now: int, window: nat): seq<Grant> {
    [] + [Grant(now, now, 1)] + [Grant(now + window - 1, now, 2)] + [Grant(now + window, now + window, 1)]
    + [Grant(now + window, now + window, 2)]
  }

  lemma LateThenTwoRun(now: int, window: nat)
    requires window > 1
    ensures Calls(Fresh(now), 2, window, LateThenTwo(now, window))
            == History(Some(Counter(2, now + window + window)), LateThenTwoGrants(now, window), now + window)
  {
    var h1 := Call(Fresh(now), 2, window, now);
    var h2 := Call(h1, 2, window, now + window - 1);
    var h3 := Call(h2, 2, window, now + window);
    CallsCons(Fresh(now), 2, window, now, [now + window - 1] + ([now + window] + ([now + window] + [])));
    CallsCons(h1, 2, window, now + window - 1, [now + window] + ([now + window] + []));
    CallsCons(h2, 2, window, now + window, [now + window] + []);
    CallsCons(h3, 2, window, now + window, []);
  }

  lemma LateThenTwoCount(now: int, window: nat)
    requires window > 2
    ensures GrantedIn(LateThenTwoGrants(now, window), now + 2, now + window + 1) == 3
  {
    var (from, to) := (now + 2, now + window + 1);
    var g1, g2 := Grant(now, now, 1), Grant(now + window - 1, now, 2);
    var g3, g4 := Grant(now + window, now + window, 1), Grant(now + window, now + window, 2);
    GrantedSnoc([], g1, from, to);
    GrantedSnoc([] + [g1], g2, from, to);
    GrantedSnoc([] + [g1] + [g2], g3, from, to);
    GrantedSnoc([] + [g1] + [g2] + [g3], g4, from, to);
  }

  /** Limit 2: one call at once, one at the end of the window, two when the next one opens.  A second later
      a call is denied, with three calls allowed in the last `window` seconds; for a window of 10 the calls
      come at 0, 9, 10 and 10, and the denial at 11. */
  lemma DenialAfterThree(now: int, window: nat)
    requires window > 2
    ensures var h := Calls(Fresh(now), 2, window, LateThenTwo(now, window));
            var later := now + window + 1;
            && h.last <= later && Alive(h.key, later) && !Check(h.key, 2, window, later).1.allowed
            && GrantedIn(h.grants, later - window + 1, later) == 3
  {
    LateThenTwoRun(now, window);
    LateThenTwoCount(now, window);
  }

  lemma CallsCons(h: History, limit: nat, window: nat, now: int, times: seq<int>)
    ensures Calls(h, limit, window, [now] + times) == Calls(Call(h, limit, window, now), limit, window, times)
  {
    assert ([now] + times)[1..] == times;
  }

  lemma GrantedSnoc(gs: seq<Grant>, g: Grant, from: int, to: int)
    ensures GrantedIn(gs + [g], from, to) == GrantedIn(gs, from, to) + if from <= g.at <= to then 1 else 0
  {
    assert (gs + [g])[..|gs|] == gs;
  }

  // ---- the bound is reached ----------------------------------------------------------

  function Repeat(t: int, n: nat): seq<int> {
    if n == 0 then [] else [t] + Repeat(t, n - 1)
  }

  lemma {:induction false} Burst(h: History, limit: nat, window: nat, t: int, n: nat, from: int, to: int)
    requires Alive(h.key, t) && h.key.value.count + n <= limit && from <= t <= to
    ensures var h' := Calls(h, limit, window, Repeat(t, n));
            && h'.key == Some(Counter(h.key.value.count + n, h.key.value.expiresAt))
            && GrantedIn(h'.grants, from, to) == GrantedIn(h.grants, from, to) + n
    decreases n
  {
    if n > 0 {
      var h1 := Call(h, limit, window, t);
      assert h1.grants[..|h.grants|] == h.grants;
      assert Repeat(t, n)[0] == t && Repeat(t, n)[1..] == Repeat(t, n - 1);
      Burst(h1, limit, window, t, n - 1, from, to);
    }
  }

  /** As many calls as allowed, at one instant, once the previous window is over. */
  lemma OpeningBurst(h: History, limit: nat, window: nat, t: int, from: int, to: int)
    requires !Alive(h.key, t) && window > 0 && from <= t <= to
    ensures var h' := Calls(h, limit, window, Repeat(t, PerWindow(limit)));
            && h'.key == Some(Counter(PerWindow(limit), t + window))
            && GrantedIn(h'.grants, from, to) == GrantedIn(h.grants, from, to) + PerWindow(limit)
  {
    var m := PerWindow(limit);
    var h1 := Call(h, limit, window, t);
    assert h1.grants[..|h.grants|] == h.grants;
    assert Repeat(t, m)[0] == t && Repeat(t, m)[1..] == Repeat(t, m - 1);
    if limit > 0 { Burst(h1, limit, window, t, m - 1, from, to); }
  }

  lemma {:induction false} CallsAppend(h: History, limit: nat, window: nat, xs: seq<int>, ys: seq<int>)
    ensures Calls(h, limit, window, xs + ys) == Calls(Calls(h, limit, window, xs), limit, window, ys)
    decreases |xs|
  {
    if xs == [] { assert xs + ys == ys; }
    else {
      assert (xs + ys)[1..] == xs[1..] + ys;
      CallsAppend(Call(h, limit, window, xs[0]), limit, window, xs[1..], ys);
    }
  }

  lemma {:induction false} RepeatAll(t: int, n: nat)
    ensures |Repeat(t, n)| == n && forall i | 0 <= i < n :: Repeat(t, n)[i] == t
  {
    if n > 0 { RepeatAll(t, n - 1); }
  }

  /** Two bursts, one window apart, are all allowed. */
  lemma TwiceTheLimitReached(limit: nat, window: nat, now: int)
    requires window > 0
    ensures var m := PerWindow(limit);
            var times := Repeat(now, m) + Repeat(now + window, m);
            && Sorted([now] + times)
            && GrantedIn(Calls(Fresh(now), limit, window, times).grants, now, now + window) == 2 * m
  {
    var m := PerWindow(limit);
    OpeningBurst(Fresh(now), limit, window, now, now, now + window);
    var h1 := Calls(Fresh(now), limit, window, Repeat(now, m));
    OpeningBurst(h1, limit, window, now + window, now, now + window);
    CallsAppend(Fresh(now), limit, window, Repeat(now, m), Repeat(now + window, m));
    TwoBurstsSorted(now, window, m);
  }

  lemma TwoBurstsSorted(now: int, window: nat, m: nat)
    ensures Sorted([now] + (Repeat(now, m) + Repeat(now + window, m)))
  {
    RepeatAll(now, m);
    RepeatAll(now + window, m);
    var first, second := Repeat(now, m), Repeat(now + window, m);
    var all := [now] + (first + second);
    assert |all| == 1 + 2 * m;
    assert forall k | 0 <= k < |all| :: all[k] == if k <= m then now else now + window;
  }

  // ---- rate strings --------------------------------------------------------------------

  function Seconds(unit: char): nat {
    if unit == 's' then 1 else if unit == 'm' then 60 else if unit == 'h' then 3600 else 86400
  }

  function DigitsEnd(s: string, i: nat): (e: nat)
    requires i <= |s|
    ensures i <= e <= |s| && AllDigits(s[i..e]) && (e < |s| ==> !IsDigit(s[e]))
    decreases |s| - i
  {
    if i < |s| && IsDigit(s[i]) then DigitsEnd(s, i + 1) else i
  }

  /** `_parse_rate`; None is the ValueError.  The pattern need not reach the end of the string. */
  function ParseRate(rate: string): Option<(nat, nat)> {
    var i := DigitsEnd(rate, 0);
    if i == 0 || i == |rate| || rate[i] != '/' then None
    else
      var j := DigitsEnd(rate, i + 1);
      if j == i + 1 || j == |rate| || rate[j] !in "smhd" then None
      else Some((DecValue(rate[0..i]), DecValue(rate[i + 1..j]) * Seconds(rate[j])))
  }

  /** (\d+)/(\d+)([smhd]) with the first number ending at i and the second at j */
  predicate RateAt(rate: string, i: nat, j: nat) {
    && 0 < i && i + 1 < j < |rate| && AllDigits(rate[0..i]) && rate[i] == '/'
    && AllDigits(rate[i + 1..j]) && rate[j] in "smhd"
  }

  lemma {:induction false} DigitsEndIs(s: string, i: nat, e: nat)
    requires i <= e < |s| && AllDigits(s[i..e]) && !IsDigit(s[e])
    ensures DigitsEnd(s, i) == e
    decreases e - i
  {
    if i < e {
      assert s[i..e][0] == s[i] && s[i + 1..e] == s[i..e][1..];
      DigitsEndIs(s, i + 1, e);
    }
  }

  /** A rate is accepted exactly when it starts with count/window-unit, and then read as such. */
  lemma ParseRateExactly(rate: string)
    ensures ParseRate(rate).Some? <==> exists i, j | 0 <= i < j < |rate| :: RateAt(rate, i, j)
    ensures forall i, j | 0 <= i < j < |rate| && RateAt(rate, i, j) ::
              ParseRate(rate) == Some((DecValue(rate[0..i]), DecValue(rate[i + 1..j]) * Seconds(rate[j])))
  {
    forall i, j | 0 <= i < j < |rate| && RateAt(rate, i, j)
      ensures ParseRate(rate) == Some((DecValue(rate[0..i]), DecValue(rate[i + 1..j]) * Seconds(rate[j])))
    {
      DigitsEndIs(rate, 0, i);
      DigitsEndIs(rate, i + 1, j);
    }
    if ParseRate(rate).Some? {
      var i := DigitsEnd(rate, 0);
      assert RateAt(rate, i, DigitsEnd(rate, i + 1));
    }
  }

  lemma InSeconds(windows: nat, unit: char)
    ensures windows * Seconds(unit)
            == if unit == 's' then windows else if unit == 'm' then windows * 60
               else if unit == 'h' then windows * 3600 else windows * 86400
  {}

  lemma ReadsPrinted(count: nat, windows: nat, unit: char, rest: string)
    requires unit in "smhd"
    ensures ParseRate(Dec(count) + "/" + Dec(windows) + [unit] + rest) == Some((count, windows * Seconds(unit)))
  {
    var rate := Dec(count) + "/" + Dec(windows) + [unit] + rest;
    var i := |Dec(count)|;
    var j := i + 1 + |Dec(windows)|;
    assert rate[0..i] == Dec(count) && rate[i + 1..j] == Dec(windows) && rate[j] == unit && rate[i] == '/';
    assert RateAt(rate, i, j);
    ParseRateExactly(rate);
    DecRoundTrip(count);
    DecRoundTrip(windows);
  }

  /** Parsing inverts printing for every count, window and unit, whatever text follows; the units are seconds,
      minutes, hours and days. */
  lemma ParseInvertsPrint(count: nat, windows: nat, unit: char, rest: string)
    requires unit in "smhd"
    ensures ParseRate(Dec(count) + "/" + Dec(windows) + [unit] + rest)
            == Some((count, if unit == 's' then windows else if unit == 'm' then windows * 60
                            else if unit == 'h' then windows * 3600 else windows * 86400))
  {
    ReadsPrinted(count, windows, unit, rest);
    InSeconds(windows, unit);
  }
}
