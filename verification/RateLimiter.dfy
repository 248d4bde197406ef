/** The sliding-window limiter of src/modules/gateway/abuse.py.

    Redis keeps, per fingerprint, a sorted set of request times with an expiry and a blacklist key
    with an expiry.  Both are modelled with their deadlines; a key is live while the clock has not
    passed its deadline.  The script is proved to agree, over every run with a clock that does not
    go backwards, with a plain count over the history of requests. */
module RateLimiter {
  import opened Prelude

  /** A request time as the script receives it: seconds printed with six decimals, that is a whole
      number of microseconds. */
  type Time = int

  const SECOND: Time := 1_000_000

  /** Settings; the two durations are configured in whole seconds and written here in microseconds. */
  datatype Config = Config(window: Time, maxRequests: int, blacklistThreshold: int, blacklistTtl: Time) {
    predicate Valid() { 0 < window && 0 < blacklistTtl }
  }

  datatype Status = Ok | RateLimited | JustBlacklisted | AlreadyBlacklisted

  /** The two keys of one fingerprint.  Scores are kept in insertion order. */
  datatype Keys = Keys(scores: seq<Time>, scoresUntil: Option<Time>, blacklistedUntil: Option<Time>)

  const NO_KEYS := Keys([], None, None)

  predicate Live(deadline: Option<Time>, now: Time) { deadline.Some? && now <= deadline.value }

  /** The scores after `bound` among the first n. */
  function Later(scores: seq<Time>, bound: Time, n: nat): seq<Time>
    requires n <= |scores|
  {
    if n == 0 then []
    else Later(scores, bound, n - 1) + (if bound < scores[n - 1] then [scores[n - 1]] else [])
  }

  /** ZREMRANGEBYSCORE key -inf bound. */
  function DropUpTo(scores: seq<Time>, bound: Time): seq<Time> { Later(scores, bound, |scores|) }

  lemma {:induction false} LaterPrefix(a: seq<Time>, b: seq<Time>, bound: Time, n: nat)
    requires n <= |a| && n <= |b| && forall i :: 0 <= i < n ==> a[i] == b[i]
    ensures Later(a, bound, n) == Later(b, bound, n)
  {
    if 0 < n {
      LaterPrefix(a, b, bound, n - 1);
    }
  }

  datatype Reply = Reply(count: nat, status: Status)

  /** What the script answers for a count of requests in the window. */
  function Verdict(c: Config, count: nat): Status {
    if count > c.blacklistThreshold then JustBlacklisted
    else if count > c.maxRequests then RateLimited
    else Ok
  }

  /** One atomic execution of the script. */
  function Script(c: Config, k: Keys, now: Time): (Keys, Reply) {
    if Live(k.blacklistedUntil, now) then (k, Reply(0, AlreadyBlacklisted))
    else
      var scores := DropUpTo(Present(k, now), now - c.window) + [now];
      var status := Verdict(c, |scores|);
      var until := if status == JustBlacklisted then Some(now + c.blacklistTtl) else None;
      (Keys(scores, Some(now + c.window + SECOND), until), Reply(|scores|, status))
  }

  // ---------------------------------------------------------------- runs of one fingerprint

  datatype Check = Check(now: Time, reply: Reply)

  /** The keys after the first i requests. */
  function KeysAt(c: Config, times: seq<Time>, i: nat): Keys
    requires i <= |times|
  {
    if i == 0 then NO_KEYS else Script(c, KeysAt(c, times, i - 1), times[i - 1]).0
  }

  function FirstAnswers(c: Config, times: seq<Time>, i: nat): (h: seq<Check>)
    requires i <= |times|
    ensures |h| == i && forall k :: 0 <= k < i ==> h[k].now == times[k]
  {
    if i == 0 then []
    else FirstAnswers(c, times, i - 1) + [Check(times[i - 1], Script(c, KeysAt(c, times, i - 1), times[i - 1]).1)]
  }

  /** The answers given to requests arriving at the given times. */
  function Answers(c: Config, times: seq<Time>): (h: seq<Check>)
    ensures |h| == |times| && forall k :: 0 <= k < |h| ==> h[k].now == times[k]
  {
    FirstAnswers(c, times, |times|)
  }

  lemma {:induction false} FirstAnswerAt(c: Config, times: seq<Time>, i: nat, m: nat)
    requires i < m <= |times|
    ensures FirstAnswers(c, times, m)[i].reply == Script(c, KeysAt(c, times, i), times[i]).1
  {
    if i < m - 1 {
      FirstAnswerAt(c, times, i, m - 1);
    }
  }

  lemma {:induction false} AnswerAt(c: Config, times: seq<Time>, i: nat)
    requires i < |times|
    ensures Answers(c, times)[i].reply == Script(c, KeysAt(c, times, i), times[i]).1
  {
    FirstAnswerAt(c, times, i, |times|);
  }

  ghost predicate Ordered(times: seq<Time>) {
    forall i, j :: 0 <= i <= j < |times| ==> times[i] <= times[j]
  }

  // ---------------------------------------------------------------- history specification

  predicate Counted(x: Check) { x.reply.status != AlreadyBlacklisted }

  /** How many of the counted checks happened strictly after `bound`. */
  ghost function CountedAfter(h: seq<Check>, bound: Time): nat {
    if h == [] then 0
    else
      var x := h[|h| - 1];
      CountedAfter(h[..|h| - 1], bound) + (if Counted(x) && bound < x.now then 1 else 0)
  }

  /** Times of the counted checks, in order. */
  ghost function CountedTimes(h: seq<Check>): seq<Time> {
    if h == [] then []
    else
      var x := h[|h| - 1];
      var rest := CountedTimes(h[..|h| - 1]);
      if Counted(x) then rest + [x.now] else rest
  }

  lemma {:induction false} DropSnoc(s: seq<Time>, x: Time, bound: Time)
    ensures DropUpTo(s + [x], bound) == DropUpTo(s, bound) + (if bound < x then [x] else [])
  {
    LaterPrefix(s + [x], s, bound, |s|);
  }

  lemma {:induction false} DropIsCountedAfter(h: seq<Check>, bound: Time)
    ensures |DropUpTo(CountedTimes(h), bound)| == CountedAfter(h, bound)
  {
    if h != [] {
      var n := |h| - 1;
      DropIsCountedAfter(h[..n], bound);
      DropSnoc(CountedTimes(h[..n]), h[n].now, bound);
    }
  }

  lemma {:induction false} DropTwice(s: seq<Time>, low: Time, high: Time)
    requires low <= high
    ensures DropUpTo(DropUpTo(s, low), high) == DropUpTo(s, high)
  {
    LaterTwice(s, low, high, |s|);
  }

  lemma {:induction false} LaterTwice(s: seq<Time>, low: Time, high: Time, n: nat)
    requires low <= high && n <= |s|
    ensures DropUpTo(Later(s, low, n), high) == Later(s, high, n)
  {
    if 0 < n {
      LaterTwice(s, low, high, n - 1);
      DropSnoc(Later(s, low, n - 1), s[n - 1], high);
      assert s[n - 1] <= low ==> Later(s, low, n) == Later(s, low, n - 1);
    }
  }

  lemma {:induction false} LaterNone(s: seq<Time>, bound: Time, n: nat)
    requires n <= |s| && forall i :: 0 <= i < n ==> s[i] <= bound
    ensures Later(s, bound, n) == []
  {
    if 0 < n {
      LaterNone(s, bound, n - 1);
    }
  }

  lemma {:induction false} CountedTimesOrdered(h: seq<Check>, t: Time)
    requires forall i, j :: 0 <= i <= j < |h| ==> h[i].now <= h[j].now
    requires forall i :: 0 <= i < |h| ==> h[i].now <= t
    ensures Ordered(CountedTimes(h))
    ensures forall i :: 0 <= i < |CountedTimes(h)| ==> CountedTimes(h)[i] <= t
  {
    if h != [] {
      var n := |h| - 1;
      CountedTimesOrdered(h[..n], h[n].now);
    }
  }

  /** What the keys hold after counted checks at the times `past`: the sorted set is the window
      ending at the last of them, and both deadlines are measured from it. */
  ghost predicate Represents(c: Config, k: Keys, past: seq<Time>) {
    if past == [] then k == NO_KEYS
    else
      var last := past[|past| - 1];
      && k.scores == DropUpTo(past, last - c.window)
      && k.scoresUntil == Some(last + c.window + SECOND)
      && (k.blacklistedUntil.Some? ==> k.blacklistedUntil.value == last + c.blacklistTtl)
  }

  function Present(k: Keys, now: Time): seq<Time> { if Live(k.scoresUntil, now) then k.scores else [] }

  /** Neither the trimming done by earlier calls nor the expiry of the key loses a request that
      the current window should still see. */
  lemma {:induction false} WindowSurvives(c: Config, k: Keys, past: seq<Time>, now: Time)
    requires c.Valid() && Represents(c, k, past)
    requires Ordered(past) && (past != [] ==> past[|past| - 1] <= now)
    ensures DropUpTo(Present(k, now), now - c.window) == DropUpTo(past, now - c.window)
  {
    if past != [] {
      if Live(k.scoresUntil, now) {
        DropTwice(past, past[|past| - 1] - c.window, now - c.window);
      } else {
        LaterNone(past, now - c.window, |past|);
      }
    }
  }

  lemma {:induction false} ScriptSeesTheWindow(c: Config, k: Keys, past: seq<Time>, now: Time)
    requires c.Valid() && Represents(c, k, past)
    requires Ordered(past) && (past != [] ==> past[|past| - 1] <= now)
    requires !Live(k.blacklistedUntil, now)
    ensures Script(c, k, now).0.scores == DropUpTo(past + [now], now - c.window)
    ensures Represents(c, Script(c, k, now).0, past + [now])
  {
    WindowSurvives(c, k, past, now);
    DropSnoc(past, now, now - c.window);
    var all := past + [now];
    assert all[|all| - 1] == now && all != [];
  }

  lemma {:induction false} CountedSnoc(h: seq<Check>, x: Check)
    ensures CountedTimes(h + [x]) == if Counted(x) then CountedTimes(h) + [x.now] else CountedTimes(h)
  {
    assert (h + [x])[..|h|] == h;
  }

  lemma {:induction false} ScriptKeepsRepresents(c: Config, k: Keys, past: seq<Time>, now: Time)
    requires c.Valid() && Represents(c, k, past) && Ordered(past) && (past != [] ==> past[|past| - 1] <= now)
    ensures Represents(c, Script(c, k, now).0,
      if Script(c, k, now).1.status != AlreadyBlacklisted then past + [now] else past)
  {
    if !Live(k.blacklistedUntil, now) {
      ScriptSeesTheWindow(c, k, past, now);
    }
  }

  lemma {:induction false} CheckKeepsRepresents(c: Config, k: Keys, h: seq<Check>, x: Check)
    requires c.Valid() && Represents(c, k, CountedTimes(h)) && x.reply == Script(c, k, x.now).1
    requires Ordered(CountedTimes(h)) && forall i :: 0 <= i < |CountedTimes(h)| ==> CountedTimes(h)[i] <= x.now
    ensures Represents(c, Script(c, k, x.now).0, CountedTimes(h + [x]))
  {
    CountedSnoc(h, x);
    ScriptKeepsRepresents(c, k, CountedTimes(h), x.now);
  }

  lemma {:induction false} CountedInOrder(c: Config, times: seq<Time>, i: nat)
    requires Ordered(times) && i < |times|
    ensures var past := CountedTimes(Answers(c, times)[..i]);
      Ordered(past) && forall k :: 0 <= k < |past| ==> past[k] <= times[i]
  {
    CountedTimesOrdered(Answers(c, times)[..i], times[i]);
  }

  lemma {:induction false} KeysRepresentHistory(c: Config, times: seq<Time>, i: nat)
    requires c.Valid() && Ordered(times) && i <= |times|
    ensures Represents(c, KeysAt(c, times, i), CountedTimes(Answers(c, times)[..i]))
  {
    if 0 < i {
      var h := Answers(c, times);
      KeysRepresentHistory(c, times, i - 1);
      CountedInOrder(c, times, i - 1);
      AnswerAt(c, times, i - 1);
      CheckKeepsRepresents(c, KeysAt(c, times, i - 1), h[..i - 1], h[i - 1]);
      assert h[..i] == h[..i - 1] + [h[i - 1]];
    }
  }

  lemma {:induction false} StepCount(c: Config, k: Keys, h: seq<Check>, x: Check)
    requires c.Valid() && Represents(c, k, CountedTimes(h))
    requires Ordered(CountedTimes(h))
    requires forall i :: 0 <= i < |CountedTimes(h)| ==> CountedTimes(h)[i] <= x.now
    requires Counted(x) && !Live(k.blacklistedUntil, x.now)
    ensures |Script(c, k, x.now).0.scores| == CountedAfter(h + [x], x.now - c.window)
  {
    assert (h + [x])[..|h|] == h;
    ScriptSeesTheWindow(c, k, CountedTimes(h), x.now);
    DropIsCountedAfter(h + [x], x.now - c.window);
  }

  /** Sliding-window refinement: whatever the key expiry did, the count the script returns is the
      number of counted checks of the window (now - window, now]. */
  lemma {:induction false} CountIsWindowCount(c: Config, times: seq<Time>, i: nat)
    requires c.Valid() && Ordered(times) && i < |times|
    ensures var h := Answers(c, times);
      Counted(h[i]) ==>
        && h[i].reply.count == CountedAfter(h[..i + 1], h[i].now - c.window)
        && h[i].reply.status == Verdict(c, h[i].reply.count)
  {
    var h, k := Answers(c, times), KeysAt(c, times, i);
    AnswerAt(c, times, i);
    if !Live(k.blacklistedUntil, times[i]) {
      KeysRepresentHistory(c, times, i);
      CountedInOrder(c, times, i);
      StepCount(c, k, h[..i], h[i]);
      assert h[..i + 1] == h[..i] + [h[i]];
    }
  }

  // ---------------------------------------------------------------- no window overruns the limit

  /** OK answers given at times in (low, high]. */
  ghost function OkWithin(h: seq<Check>, low: Time, high: Time): nat {
    if h == [] then 0
    else
      var x := h[|h| - 1];
      OkWithin(h[..|h| - 1], low, high) + (if x.reply.status == Ok && low < x.now <= high then 1 else 0)
  }

  lemma {:induction false} OkAreCounted(h: seq<Check>, low: Time, high: Time, bound: Time)
    requires bound <= low
    ensures OkWithin(h, low, high) <= CountedAfter(h, bound)
  {
    if h != [] {
      OkAreCounted(h[..|h| - 1], low, high, bound);
    }
  }

  lemma {:induction false} NoOverrunSoFar(c: Config, times: seq<Time>, m: nat, low: Time)
    requires c.Valid() && Ordered(times) && m <= |times|
    ensures OkWithin(Answers(c, times)[..m], low, low + c.window) <= Max(0, c.maxRequests)
  {
    if 0 < m {
      var h, x := Answers(c, times)[..m], Answers(c, times)[m - 1];
      assert h[..m - 1] == Answers(c, times)[..m - 1];
      if x.reply.status == Ok && low < x.now <= low + c.window {
        CountIsWindowCount(c, times, m - 1);
        OkAreCounted(h, low, low + c.window, x.now - c.window);
      } else {
        NoOverrunSoFar(c, times, m - 1, low);
      }
    }
  }

  /** No interval as long as the window ever contains more OK answers than the configured limit. */
  lemma {:induction false} NoWindowOverrun(c: Config, times: seq<Time>, low: Time)
    requires c.Valid() && Ordered(times)
    ensures OkWithin(Answers(c, times), low, low + c.window) <= Max(0, c.maxRequests)
  {
    NoOverrunSoFar(c, times, |times|, low);
    assert Answers(c, times)[..|times|] == Answers(c, times);
  }

  // ---------------------------------------------------------------- graduated response

  /** The blacklisting outlives the window that caused it.  It covers its last microsecond, so that the
      first one after it is a tick later. */
  predicate Outlives(c: Config) { c.window <= c.blacklistTtl + 1 }

  /** In whole seconds, as the settings are: the TTL is at least as long as the window. */
  lemma OutlivesInSeconds(c: Config, window: int, ttl: int)
    requires c.window == window * SECOND && c.blacklistTtl == ttl * SECOND
    ensures Outlives(c) <==> window <= ttl
  {
    if ttl < window {
      assert (window - ttl) * SECOND >= SECOND;
    }
  }

  /** What the script does to the blacklist key. */
  lemma BlacklistRule(c: Config, k: Keys, now: Time)
    ensures Live(k.blacklistedUntil, now) ==> Script(c, k, now) == (k, Reply(0, AlreadyBlacklisted))
    ensures !Live(k.blacklistedUntil, now) ==>
      && Script(c, k, now).1.status != AlreadyBlacklisted
      && Script(c, k, now).0.blacklistedUntil
           == if Script(c, k, now).1.status == JustBlacklisted then Some(now + c.blacklistTtl) else None
  {
  }

  /** A blacklisting set at check j is still the stored deadline as long as no later check has
      passed it. */
  lemma {:induction false} BlacklistPersists(c: Config, times: seq<Time>, j: nat, i: nat)
    requires Ordered(times) && j < i <= |times|
    requires Answers(c, times)[j].reply.status == JustBlacklisted
    requires times[i - 1] <= times[j] + c.blacklistTtl
    ensures KeysAt(c, times, i).blacklistedUntil == Some(times[j] + c.blacklistTtl)
  {
    AnswerAt(c, times, j);
    BlacklistRule(c, KeysAt(c, times, i - 1), times[i - 1]);
    if j + 1 < i {
      BlacklistPersists(c, times, j, i - 1);
    }
  }

  /** The stored deadline always comes from a blacklisting. */
  lemma {:induction false} BlacklistHasCause(c: Config, times: seq<Time>, i: nat)
    requires i <= |times| && KeysAt(c, times, i).blacklistedUntil.Some?
    ensures exists j ::
      && 0 <= j < i && Answers(c, times)[j].reply.status == JustBlacklisted
      && KeysAt(c, times, i).blacklistedUntil.value == times[j] + c.blacklistTtl
  {
    if 0 < i {
      BlacklistRule(c, KeysAt(c, times, i - 1), times[i - 1]);
      if Live(KeysAt(c, times, i - 1).blacklistedUntil, times[i - 1]) {
        BlacklistHasCause(c, times, i - 1);
      } else {
        AnswerAt(c, times, i - 1);
        assert Answers(c, times)[i - 1].reply.status == JustBlacklisted;
      }
    }
  }

  ghost predicate BlacklistedWithin(c: Config, times: seq<Time>, i: nat)
    requires i < |times|
  {
    exists j :: 0 <= j < i && Answers(c, times)[j].reply.status == JustBlacklisted && times[i] <= times[j] + c.blacklistTtl
  }

  /** A request is refused as already blacklisted exactly when an earlier one was blacklisted at most a
      TTL before. */
  lemma {:induction false} AlreadyBlacklistedIff(c: Config, times: seq<Time>, i: nat)
    requires Ordered(times) && i < |times|
    ensures Answers(c, times)[i].reply.status == AlreadyBlacklisted <==> BlacklistedWithin(c, times, i)
  {
    var k := KeysAt(c, times, i);
    AnswerAt(c, times, i);
    BlacklistRule(c, k, times[i]);
    if Live(k.blacklistedUntil, times[i]) {
      BlacklistHasCause(c, times, i);
    }
    if BlacklistedWithin(c, times, i) {
      var j :| 0 <= j < i && Answers(c, times)[j].reply.status == JustBlacklisted && times[i] <= times[j] + c.blacklistTtl;
      BlacklistPersists(c, times, j, i);
    }
  }

  /** Every answer of every run, from the history alone: a request within a TTL of a blacklisting is refused,
      and any other is answered by how many counted requests its window holds, itself included.  A client
      that stays within the limit is never refused unless it is blacklisted. */
  lemma {:induction false} AnswerIsExact(c: Config, times: seq<Time>, i: nat)
    requires c.Valid() && Ordered(times) && i < |times|
    ensures var h := Answers(c, times);
      var n, reply := CountedAfter(h[..i], times[i] - c.window) + 1, h[i].reply;
      if BlacklistedWithin(c, times, i) then reply.status == AlreadyBlacklisted
      else
        && reply.count == n
        && (reply.status == JustBlacklisted <==> c.blacklistThreshold < n)
        && (reply.status == RateLimited <==> c.maxRequests < n <= c.blacklistThreshold)
        && (reply.status == Ok <==> n <= c.maxRequests && n <= c.blacklistThreshold)
  {
    var h := Answers(c, times);
    AlreadyBlacklistedIff(c, times, i);
    CountIsWindowCount(c, times, i);
    assert h[..i + 1][..i] == h[..i];
  }

  /** Until the blacklist expires every request is refused as already blacklisted. */
  lemma {:induction false} BlacklistedUntilExpiry(c: Config, times: seq<Time>, j: nat, i: nat)
    requires Ordered(times) && j < i < |times|
    requires Answers(c, times)[j].reply.status == JustBlacklisted
    requires times[i] <= times[j] + c.blacklistTtl
    ensures Answers(c, times)[i].reply == Reply(0, AlreadyBlacklisted)
  {
    BlacklistPersists(c, times, j, i);
    AnswerAt(c, times, i);
    BlacklistRule(c, KeysAt(c, times, i), times[i]);
  }

  lemma {:induction false} NothingCountedAfter(h: seq<Check>, bound: Time)
    requires forall i :: 0 <= i < |h| && Counted(h[i]) ==> h[i].now <= bound
    ensures CountedAfter(h, bound) == 0
  {
    if h != [] {
      NothingCountedAfter(h[..|h| - 1], bound);
    }
  }

  lemma {:induction false} CountedAfterMonotone(h: seq<Check>, low: Time, high: Time)
    requires low <= high
    ensures CountedAfter(h, high) <= CountedAfter(h, low)
  {
    if h != [] {
      CountedAfterMonotone(h[..|h| - 1], low, high);
    }
  }

  /** The first request let through after a blacklisting starts from a clean window. */
  lemma {:induction false} FirstAfterExpiry(c: Config, times: seq<Time>, j: nat, i: nat)
    requires c.Valid() && Outlives(c) && Ordered(times) && j < i < |times|
    requires Answers(c, times)[j].reply.status == JustBlacklisted
    requires times[j] + c.blacklistTtl < times[i]
    requires times[i - 1] <= times[j] + c.blacklistTtl
    ensures Answers(c, times)[i].reply.count == 1
  {
    var h := Answers(c, times);
    BlacklistPersists(c, times, j, i);
    AnswerAt(c, times, i);
    BlacklistRule(c, KeysAt(c, times, i), times[i]);
    assert Counted(h[i]);
    CountIsWindowCount(c, times, i);
    assert h[..i + 1][..i] == h[..i];
    forall k | 0 <= k < i && Counted(h[k])
      ensures h[k].now <= times[i] - c.window
    {
      if j < k {
        BlacklistedUntilExpiry(c, times, j, k);
      }
    }
    NothingCountedAfter(h[..i], times[i] - c.window);
  }

  /** Inside the window of a counted check no earlier check was itself a blacklisting. */
  lemma {:induction false} NoBlacklistingInWindow(c: Config, times: seq<Time>, j: nat, i: nat)
    requires c.Valid() && Outlives(c) && Ordered(times) && j < i < |times|
    requires Counted(Answers(c, times)[i]) && times[i] - c.window < times[j]
    ensures Answers(c, times)[j].reply.status != JustBlacklisted
  {
    if Answers(c, times)[j].reply.status == JustBlacklisted {
      BlacklistedUntilExpiry(c, times, j, i);
    }
  }

  ghost function LimitedAfter(h: seq<Check>, bound: Time): nat {
    if h == [] then 0
    else
      var x := h[|h| - 1];
      LimitedAfter(h[..|h| - 1], bound) + (if x.reply.status == RateLimited && bound < x.now then 1 else 0)
  }

  /** Within the window that ends at check i, every check beyond the limit was answered 429, and
      none was counted beyond the blacklist threshold. */
  lemma {:induction false} EscalationInWindow(c: Config, times: seq<Time>, i: nat, m: nat)
    requires c.Valid() && Outlives(c) && 0 <= c.blacklistThreshold && Ordered(times) && m <= i < |times|
    requires Counted(Answers(c, times)[i])
    ensures var h, bound := Answers(c, times), times[i] - c.window;
      && CountedAfter(h[..m], bound) <= LimitedAfter(h[..m], bound) + Max(0, c.maxRequests)
      && CountedAfter(h[..m], bound) <= c.blacklistThreshold
  {
    var h, bound := Answers(c, times), times[i] - c.window;
    if 0 < m {
      EscalationInWindow(c, times, i, m - 1);
      assert h[..m][..m - 1] == h[..m - 1];
      if Counted(h[m - 1]) && bound < times[m - 1] {
        CountIsWindowCount(c, times, m - 1);
        assert h[..m - 1 + 1] == h[..m];
        CountedAfterMonotone(h[..m], times[m - 1] - c.window, bound);
        NoBlacklistingInWindow(c, times, m - 1, i);
      }
    }
  }

  /** A blacklisting at check i as it should be: at exactly threshold + 1 requests, and after at least
      threshold - limit of them were already answered 429 in the same window. */
  ghost predicate Graduated(c: Config, h: seq<Check>, i: nat)
    requires i < |h|
  {
    && h[i].reply.count == c.blacklistThreshold + 1
    && LimitedAfter(h[..i], h[i].now - c.window) >= c.blacklistThreshold - Max(0, c.maxRequests)
  }

  lemma {:induction false} BlacklistingIsGraduated(c: Config, times: seq<Time>, i: nat)
    requires c.Valid() && Outlives(c) && 0 <= c.blacklistThreshold && Ordered(times) && i < |times|
    requires Answers(c, times)[i].reply.status == JustBlacklisted
    ensures Graduated(c, Answers(c, times), i)
  {
    var h := Answers(c, times);
    EscalationInWindow(c, times, i, i);
    CountIsWindowCount(c, times, i);
    assert h[..i + 1][..i] == h[..i];
  }

  /** Requests that all arrive at time 0. */
  function Burst(n: nat): (s: seq<Time>)
    ensures |s| == n && forall i :: 0 <= i < n ==> s[i] == 0
  {
    if n == 0 then [] else Burst(n - 1) + [0]
  }

  lemma {:induction false} AllCounted(h: seq<Check>, bound: Time)
    requires forall i :: 0 <= i < |h| ==> Counted(h[i]) && bound < h[i].now
    ensures CountedAfter(h, bound) == |h|
  {
    if h != [] {
      AllCounted(h[..|h| - 1], bound);
    }
  }

  /** A request inside the first window that is not blacklisted yet: its count is its position. */
  lemma {:induction false} CountInFirstWindow(c: Config, times: seq<Time>, i: nat)
    requires c.Valid() && Ordered(times) && i < |times| && times[i] - c.window < times[0]
    requires forall j :: 0 <= j < i ==> Counted(Answers(c, times)[j])
    requires !BlacklistedWithin(c, times, i)
    ensures Answers(c, times)[i].reply == Reply(i + 1, Verdict(c, i + 1))
  {
    var h := Answers(c, times);
    AlreadyBlacklistedIff(c, times, i);
    CountIsWindowCount(c, times, i);
    AllCounted(h[..i + 1], times[i] - c.window);
  }

  /** The position of the request that a burst is blacklisted at. */
  function Breach(c: Config): nat { Max(1, c.blacklistThreshold + 1) }

  lemma {:induction false} BurstAnswers(c: Config, times: seq<Time>, i: nat)
    requires c.Valid() && Ordered(times) && Breach(c) <= |times| && times[..Breach(c)] == Burst(Breach(c)) && i < Breach(c)
    ensures forall j :: 0 <= j <= i ==> Answers(c, times)[j].reply == Reply(j + 1, Verdict(c, j + 1))
  {
    assert times[i] == times[..Breach(c)][i] == 0 && times[0] == times[..Breach(c)][0] == 0;
    if 0 < i {
      BurstAnswers(c, times, i - 1);
    }
    CountInFirstWindow(c, times, i);
  }

  /** When the blacklisting ends before the window that caused it, the old requests still count: after a
      burst that is blacklisted, the first request after the blacklisting is blacklisted at a higher count. */
  lemma {:induction false} ShortBlacklistCountsOn(c: Config, t: Time)
    requires c.Valid() && c.blacklistTtl < t < c.window
    ensures var n := Breach(c);
      var times := Burst(n) + [t];
      var h := Answers(c, times);
      && Ordered(times) && h[n - 1].reply == Reply(n, JustBlacklisted) && h[n].reply == Reply(n + 1, JustBlacklisted)
  {
    var n := Breach(c);
    var times := Burst(n) + [t];
    assert times[..n] == Burst(n);
    BurstAnswers(c, times, n - 1);
    CountInFirstWindow(c, times, n);
  }

  lemma {:induction false} FirstRequest(c: Config)
    requires c.Valid()
    ensures Answers(c, [0])[0].reply == Reply(1, Verdict(c, 1))
  {
    CountInFirstWindow(c, [0], 0);
  }

  /** Check i is the first one after the blacklisting set at check j. */
  ghost predicate FirstAfter(c: Config, times: seq<Time>, j: nat, i: nat) {
    && Ordered(times) && j < i < |times| && Answers(c, times)[j].reply.status == JustBlacklisted
    && times[i - 1] <= times[j] + c.blacklistTtl < times[i]
  }

  /** The clean restart, exactly: in every run the first request after a blacklisting has count 1 if and
      only if the blacklisting outlives the window, whatever the limits. */
  lemma {:induction false} CleanRestartIffOutlives(c: Config)
    requires c.Valid()
    ensures (forall times, j: nat, i: nat :: FirstAfter(c, times, j, i) ==> Answers(c, times)[i].reply.count == 1) <==> Outlives(c)
  {
    if Outlives(c) {
      forall times, j: nat, i: nat | FirstAfter(c, times, j, i)
        ensures Answers(c, times)[i].reply.count == 1
      {
        FirstAfterExpiry(c, times, j, i);
      }
    } else {
      var n, t := Breach(c), c.blacklistTtl + 1;
      ShortBlacklistCountsOn(c, t);
      assert FirstAfter(c, Burst(n) + [t], n - 1, n);
    }
  }

  /** Graduated response, exactly: every blacklisting of every run is graduated if and only if the
      threshold is not negative and the blacklisting outlives the window. */
  lemma {:induction false} GraduatedIffOutlives(c: Config)
    requires c.Valid()
    ensures (forall times, i ::
        Ordered(times) && 0 <= i < |times| && Answers(c, times)[i].reply.status == JustBlacklisted ==>
        Graduated(c, Answers(c, times), i))
      <==> 0 <= c.blacklistThreshold && Outlives(c)
  {
    if c.blacklistThreshold < 0 {
      FirstRequest(c);
      assert Ordered([0]) && !Graduated(c, Answers(c, [0]), 0);
    } else if !Outlives(c) {
      var n := Breach(c);
      var times := Burst(n) + [c.blacklistTtl + 1];
      ShortBlacklistCountsOn(c, c.blacklistTtl + 1);
      assert !Graduated(c, Answers(c, times), n);
    } else {
      forall times, i | Ordered(times) && 0 <= i < |times| && Answers(c, times)[i].reply.status == JustBlacklisted
        ensures Graduated(c, Answers(c, times), i)
      {
        BlacklistingIsGraduated(c, times, i);
      }
    }
  }

  /** A setting outside that condition: a window of ten seconds, a limit and threshold of zero and a
      blacklisting of one second. */
  lemma {:induction false} TenSecondWindow()
    ensures var c := Config(10 * SECOND, 0, 0, SECOND);
      var h := Answers(c, [0, 5 * SECOND]);
      && c.Valid() && h[0].reply == Reply(1, JustBlacklisted) && h[1].reply == Reply(2, JustBlacklisted)
  {
    var c := Config(10 * SECOND, 0, 0, SECOND);
    ShortBlacklistCountsOn(c, 5 * SECOND);
    assert Burst(1) == [0] && Burst(1) + [5 * SECOND] == [0, 5 * SECOND];
  }

  // ---------------------------------------------------------------- all fingerprints together

  type Fingerprint = string

  datatype Request = Request(fingerprint: Fingerprint, now: Time)

  type Store = map<Fingerprint, Keys>

  function KeysIn(store: Store, fp: Fingerprint): Keys { if fp in store then store[fp] else NO_KEYS }

  function StoreAfter(c: Config, requests: seq<Request>): Store {
    if requests == [] then map[]
    else
      var store := StoreAfter(c, requests[..|requests| - 1]);
      var r := requests[|requests| - 1];
      store[r.fingerprint := Script(c, KeysIn(store, r.fingerprint), r.now).0]
  }

  ghost function TimesOf(fp: Fingerprint, requests: seq<Request>): seq<Time> {
    if requests == [] then []
    else
      var rest := TimesOf(fp, requests[..|requests| - 1]);
      var r := requests[|requests| - 1];
      if r.fingerprint == fp then rest + [r.now] else rest
  }

  lemma {:induction false} KeysAtPrefix(c: Config, times: seq<Time>, x: Time, i: nat)
    requires i <= |times|
    ensures KeysAt(c, times + [x], i) == KeysAt(c, times, i)
  {
    if 0 < i {
      KeysAtPrefix(c, times, x, i - 1);
    }
  }

  /** In any interleaving of clients, each fingerprint is limited exactly as if it were alone. */
  lemma {:induction false} FingerprintsAreIndependent(c: Config, requests: seq<Request>, fp: Fingerprint)
    ensures var times := TimesOf(fp, requests);
      KeysIn(StoreAfter(c, requests), fp) == KeysAt(c, times, |times|)
  {
    if requests != [] {
      var n := |requests| - 1;
      FingerprintsAreIndependent(c, requests[..n], fp);
      var rest := TimesOf(fp, requests[..n]);
      KeysAtPrefix(c, rest, requests[n].now, |rest|);
    }
  }

  class SlidingWindow {
    const config: Config
    var store: Store

    constructor (c: Config)
      ensures config == c && store == map[]
    {
      config := c;
      store := map[];
    }

    /** The Lua script, command by command, on the two keys of one fingerprint. */
    method Evaluate(fp: Fingerprint, now: Time) returns (reply: Reply)
      modifies this
      ensures store == old(store)[fp := Script(config, KeysIn(old(store), fp), now).0]
      ensures reply == Script(config, KeysIn(old(store), fp), now).1
      ensures var k := KeysIn(old(store), fp);
        if k.blacklistedUntil.Some? && now <= k.blacklistedUntil.value
        then reply == Reply(0, AlreadyBlacklisted) && store == old(store)
        else
          && store == old(store)[fp := KeysIn(store, fp)]
          && var after := KeysIn(store, fp);
             && reply.count == |after.scores| >= 1 && after.scores[|after.scores| - 1] == now
             && after.scoresUntil == Some(now + config.window + SECOND)
             && after.blacklistedUntil == (if reply.count > config.blacklistThreshold then Some(now + config.blacklistTtl) else None)
             && (reply.status == JustBlacklisted <==> config.blacklistThreshold < reply.count)
             && (reply.status == RateLimited <==> config.maxRequests < reply.count <= config.blacklistThreshold)
             && (reply.status == Ok <==> reply.count <= config.maxRequests && reply.count <= config.blacklistThreshold)
    {
      var k := KeysIn(store, fp);
      // EXISTS bl_key
      if Live(k.blacklistedUntil, now) {
        return Reply(0, AlreadyBlacklisted);
      }
      // ZREMRANGEBYSCORE, ZADD, EXPIRE on the sorted set, which an elapsed expiry has emptied
      var scores := Present(k, now);
      scores := DropUpTo(scores, now - config.window);
      scores := scores + [now];
      var scoresUntil := Some(now + config.window + SECOND);
      // ZCARD
      var count := |scores|;
      var blacklistedUntil := None;
      var status := Ok;
      if count > config.blacklistThreshold {
        blacklistedUntil := Some(now + config.blacklistTtl);
        status := JustBlacklisted;
      } else if count > config.maxRequests {
        status := RateLimited;
      }
      store := store[fp := Keys(scores, scoresUntil, blacklistedUntil)];
      reply := Reply(count, status);
    }
  }
}
