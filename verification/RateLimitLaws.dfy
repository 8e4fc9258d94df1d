/** Both stores decide as the ledger does; the ledger keeps the limit in every window; waiting as told suffices. */
module RateLimitLaws {
  import opened RateLimit
  import opened Wrappers

  // Forgetting what has expired.

  lemma {:induction false} RecentMembers(times: seq<nat>, cutoff: int)
    ensures |Recent(times, cutoff)| <= |times|
    ensures forall t :: t in Recent(times, cutoff) <==> t in times && t > cutoff
  {
    if times != [] {
      RecentMembers(times[..|times| - 1], cutoff);
      assert times == times[..|times| - 1] + [times[|times| - 1]];
    }
  }

  lemma RecentAppends(times: seq<nat>, t: nat, cutoff: int)
    ensures Recent(times + [t], cutoff) == Recent(times, cutoff) + if t > cutoff then [t] else []
  {
    assert (times + [t])[..|times|] == times;
  }

  lemma {:induction false} RecentTwice(times: seq<nat>, early: int, late: int)
    requires early <= late
    ensures Recent(Recent(times, early), late) == Recent(times, late)
  {
    if times != [] {
      var init, last := times[..|times| - 1], times[|times| - 1];
      RecentTwice(init, early, late);
      if last > early {
        RecentAppends(Recent(init, early), last, late);
      } else {
        NothingAdded(Recent(init, early));
        NothingAdded(Recent(init, late));
      }
    }
  }

  lemma {:induction false} NothingRecent(times: seq<nat>, cutoff: int)
    requires AllExpired(times, cutoff)
    ensures Recent(times, cutoff) == []
  {
    if times != [] { NothingRecent(times[..|times| - 1], cutoff); }
  }

  /** The two lists hold the same as far back as the window of the key reaches. */
  ghost predicate Alike(times: seq<nat>, ledger: seq<nat>, rule: Rule, now: nat) {
    Within(times, rule, now) == Within(ledger, rule, now)
  }

  lemma WithinLater(times: seq<nat>, rule: Rule, now: nat, later: nat)
    requires now <= later
    ensures Within(Within(times, rule, now), rule, later) == Within(times, rule, later)
  {
    RecentTwice(times, now - rule.Window(), later - rule.Window());
  }

  lemma AlikeLater(times: seq<nat>, ledger: seq<nat>, rule: Rule, now: nat, later: nat)
    requires Alike(times, ledger, rule, now) && now <= later
    ensures Alike(times, ledger, rule, later)
  {
    WithinLater(times, rule, now, later);
    WithinLater(ledger, rule, now, later);
  }

  lemma WithinAppends(times: seq<nat>, rule: Rule, now: nat)
    ensures Within(times + [now], rule, now) == Within(times, rule, now) + if rule.Window() > 0 then [now] else []
  {
    RecentAppends(times, now, now - rule.Window());
  }

  lemma AlikeTrimmed(times: seq<nat>, ledger: seq<nat>, rule: Rule, now: nat)
    requires Alike(times, ledger, rule, now)
    ensures Alike(Within(times, rule, now), ledger, rule, now)
    ensures Alike(Within(times, rule, now) + [now], ledger + [now], rule, now)
  {
    WithinLater(times, rule, now, now);
    WithinAppends(Within(times, rule, now), rule, now);
    WithinAppends(ledger, rule, now);
  }

  // In memory.

  /** All keys are limited over windows of the same length. */
  ghost predicate OneWindow(rules: Rules, seconds: nat) {
    forall key :: rules(key).windowSeconds == seconds
  }

  lemma PruningForgetsNothing(windows: Windows, times: seq<nat>, rule: Rule, now: nat, key: string)
    requires Alike(Of(windows, key), times, rule, now)
    ensures Alike(Of(Pruned(windows, now - rule.Window()), key), times, rule, now)
  {
    var cutoff := now - rule.Window();
    if key in windows && AllExpired(windows[key], cutoff) { NothingRecent(windows[key], cutoff); }
  }

  lemma MemoryDecides(windows: Windows, ledger: Windows, rules: Rules, call: Call)
    requires Alike(Of(windows, call.key), Of(ledger, call.key), rules(call.key), call.now)
    ensures MemoryDecision(windows, rules, call) == LedgerDecision(ledger, rules, call)
  {
    if Live(windows, rules, call) != [] { LiveIsRecent(windows, rules, call); }
  }

  lemma MemoryWrites(windows: Windows, ledger: Windows, rules: Rules, call: Call, key: string)
    requires Alike(Of(windows, key), Of(ledger, key), rules(key), call.now)
    requires Alike(Of(windows, call.key), Of(ledger, call.key), rules(call.key), call.now)
    ensures var live := Live(windows, rules, call);
            Alike(Of(windows[call.key := live], key), Of(ledger, key), rules(key), call.now) &&
            Alike(Of(windows[call.key := live + [call.now]], key),
                  Of(ledger[call.key := Of(ledger, call.key) + [call.now]], key), rules(key), call.now)
  {
    AlikeTrimmed(Of(windows, call.key), Of(ledger, call.key), rules(call.key), call.now);
  }

  lemma MemoryStepHolds(windows: Windows, ledger: Windows, rules: Rules, seconds: nat, call: Call, key: string)
    requires OneWindow(rules, seconds)
    requires Alike(Of(windows, key), Of(ledger, key), rules(key), call.now)
    requires Alike(Of(windows, call.key), Of(ledger, call.key), rules(call.key), call.now)
    ensures Alike(Of(MemoryStep(windows, rules, call), key), Of(LedgerStep(ledger, rules, call), key), rules(key), call.now)
  {
    MemoryWrites(windows, ledger, rules, call, key);
    if Admits(ledger, rules, call) { MemoryAdmits(windows, ledger, rules, seconds, call, key); }
  }

  lemma MemoryAdmits(windows: Windows, ledger: Windows, rules: Rules, seconds: nat, call: Call, key: string)
    requires OneWindow(rules, seconds) && Admits(ledger, rules, call)
    requires Alike(Of(windows, call.key), Of(ledger, call.key), rules(call.key), call.now)
    requires Alike(Of(windows[call.key := Live(windows, rules, call) + [call.now]], key),
                   Of(ledger[call.key := Of(ledger, call.key) + [call.now]], key), rules(key), call.now)
    ensures Alike(Of(MemoryStep(windows, rules, call), key), Of(LedgerStep(ledger, rules, call), key), rules(key), call.now)
  {
    assert rules(key).Window() == rules(call.key).Window();
    var written := windows[call.key := Live(windows, rules, call) + [call.now]];
    var admitted := ledger[call.key := Of(ledger, call.key) + [call.now]];
    PruningForgetsNothing(written, Of(admitted, key), rules(key), call.now, key);
  }

  lemma LiveIsRecent(windows: Windows, rules: Rules, call: Call)
    requires Live(windows, rules, call) != []
    ensures Live(windows, rules, call)[0] + rules(call.key).Window() - call.now >= 1
  {
    RecentMembers(Of(windows, call.key), call.now - rules(call.key).Window());
    assert Live(windows, rules, call)[0] in Live(windows, rules, call);
  }

  lemma {:induction false} MemoryFollowsLedger(rules: Rules, seconds: nat, calls: seq<Call>, key: string, later: nat)
    requires OneWindow(rules, seconds) && Clocked(calls) && Now(calls) <= later
    ensures Alike(Of(Memory(rules, calls), key), Of(Ledger(rules, calls), key), rules(key), later)
    decreases |calls|
  {
    if calls != [] {
      var init, call := calls[..|calls| - 1], calls[|calls| - 1];
      ClockedPrefix(calls);
      MemoryFollowsLedger(rules, seconds, init, key, call.now);
      MemoryFollowsLedger(rules, seconds, init, call.key, call.now);
      MemoryStepHolds(Memory(rules, init), Ledger(rules, init), rules, seconds, call, key);
      AlikeLater(Of(Memory(rules, calls), key), Of(Ledger(rules, calls), key), rules(key), call.now, later);
    }
  }

  // On the server.

  /** Everything in the set has left the window by the time the key may go. */
  ghost predicate ExpiresInTime(stored: SortedSet, rule: Rule, now: nat) {
    forall i :: 0 <= i < |stored.scores| ==> stored.scores[i] + rule.Window() <= stored.expiresAt && stored.scores[i] <= now
  }

  ghost predicate ServerHolds(server: Server, ledger: Windows, rule: Rule, now: nat, key: string) {
    Alike(Scores(server, key), Of(ledger, key), rule, now) && (key in server ==> ExpiresInTime(server[key], rule, now))
  }

  lemma ReapingForgetsNothing(server: Server, ledger: Windows, rule: Rule, now: nat, later: nat, gone: set<string>,
                              key: string)
    requires ServerHolds(server, ledger, rule, now, key) && now <= later && MayReap(server, gone, later)
    ensures ServerHolds(Reaped(server, gone), ledger, rule, later, key)
  {
    AlikeLater(Scores(server, key), Of(ledger, key), rule, now, later);
    if key in server && key in gone { NothingRecent(server[key].scores, later - rule.Window()); }
  }

  lemma RedisDecides(server: Server, ledger: Windows, rules: Rules, call: Call)
    requires ServerHolds(server, ledger, rules(call.key), call.now, call.key)
    ensures RedisDecision(server, rules, call) == LedgerDecision(ledger, rules, call)
  {
    if Live(ledger, rules, call) != [] { LiveIsRecent(ledger, rules, call); }
  }

  lemma RedisAdmits(scores: seq<nat>, expiresAt: nat, times: seq<nat>, rule: Rule, now: nat)
    requires Alike(scores, times, rule, now) && ExpiresInTime(SortedSet(scores, expiresAt), rule, now)
    ensures var after := SortedSet(ZAdd(Within(scores, rule, now), now), now + rule.Window());
            Alike(after.scores, times + [now], rule, now) && ExpiresInTime(after, rule, now)
  {
    AlikeTrimmed(scores, times, rule, now);
    KeptExpireInTime(SortedSet(scores, expiresAt), rule, now);
    var kept := Within(scores, rule, now);
    assert kept != [] ==> kept[|kept| - 1] <= now;
    assert ZAdd(kept, now) == kept + [now];
  }

  lemma RedisRefuses(scores: seq<nat>, expiresAt: nat, times: seq<nat>, rule: Rule, now: nat)
    requires Alike(scores, times, rule, now) && ExpiresInTime(SortedSet(scores, expiresAt), rule, now)
    ensures var after := SortedSet(Within(scores, rule, now), expiresAt);
            Alike(after.scores, times, rule, now) && ExpiresInTime(after, rule, now)
  {
    AlikeTrimmed(scores, times, rule, now);
    KeptExpireInTime(SortedSet(scores, expiresAt), rule, now);
  }

  lemma RedisWritesOneKey(server: Server, ledger: Windows, rules: Rules, call: Call, key: string)
    requires key != call.key
    ensures Scores(RedisStep(server, rules, call), key) == Scores(server, key)
    ensures key in RedisStep(server, rules, call) <==> key in server
    ensures key in server ==> RedisStep(server, rules, call)[key] == server[key]
    ensures Of(LedgerStep(ledger, rules, call), key) == Of(ledger, key)
  {
  }

  lemma RedisWritesAdmission(server: Server, ledger: Windows, rules: Rules, call: Call)
    requires ServerHolds(server, ledger, rules(call.key), call.now, call.key) && Admits(ledger, rules, call)
    ensures ServerHolds(RedisStep(server, rules, call), LedgerStep(ledger, rules, call), rules(call.key), call.now, call.key)
  {
    var key, rule := call.key, rules(call.key);
    var kept := Within(Scores(server, key), rule, call.now);
    RedisAdmits(Scores(server, key), if key in server then server[key].expiresAt else 0, Of(ledger, key), rule, call.now);
    assert RedisStep(server, rules, call)[key] == SortedSet(ZAdd(kept, call.now), call.now + rule.Window());
    assert Of(LedgerStep(ledger, rules, call), key) == Of(ledger, key) + [call.now];
  }

  lemma RedisWritesRefusal(server: Server, ledger: Windows, rules: Rules, call: Call)
    requires ServerHolds(server, ledger, rules(call.key), call.now, call.key) && !Admits(ledger, rules, call)
    ensures ServerHolds(RedisStep(server, rules, call), LedgerStep(ledger, rules, call), rules(call.key), call.now, call.key)
  {
    var key, rule := call.key, rules(call.key);
    var kept := Within(Scores(server, key), rule, call.now);
    RedisRefuses(Scores(server, key), server[key].expiresAt, Of(ledger, key), rule, call.now);
    assert RedisStep(server, rules, call)[key] == SortedSet(kept, server[key].expiresAt);
  }

  lemma RedisStepHolds(server: Server, ledger: Windows, rules: Rules, call: Call, key: string)
    requires ServerHolds(server, ledger, rules(key), call.now, key)
    requires ServerHolds(server, ledger, rules(call.key), call.now, call.key)
    ensures ServerHolds(RedisStep(server, rules, call), LedgerStep(ledger, rules, call), rules(key), call.now, key)
  {
    if key == call.key {
      if Admits(ledger, rules, call) {
        RedisWritesAdmission(server, ledger, rules, call);
      } else {
        RedisWritesRefusal(server, ledger, rules, call);
      }
    } else {
      RedisWritesOneKey(server, ledger, rules, call, key);
    }
  }

  lemma KeptExpireInTime(stored: SortedSet, rule: Rule, now: nat)
    requires ExpiresInTime(stored, rule, now)
    ensures ExpiresInTime(SortedSet(Within(stored.scores, rule, now), stored.expiresAt), rule, now)
  {
    var kept := Within(stored.scores, rule, now);
    RecentMembers(stored.scores, now - rule.Window());
    forall i | 0 <= i < |kept| ensures kept[i] + rule.Window() <= stored.expiresAt && kept[i] <= now {
      assert kept[i] in kept;
      var k :| 0 <= k < |stored.scores| && stored.scores[k] == kept[i];
    }
  }

  lemma {:induction false} RedisFollowsLedger(rules: Rules, calls: seq<Call>, gone: seq<set<string>>, key: string)
    requires |gone| == |calls| && Clocked(calls) && LegalReaping(rules, calls, gone)
    ensures ServerHolds(Redis(rules, calls, gone), Ledger(rules, calls), rules(key), Now(calls), key)
    decreases |calls|
  {
    if calls != [] {
      var n := |calls| - 1;
      var call, server, ledger := calls[n], Redis(rules, calls[..n], gone[..n]), Ledger(rules, calls[..n]);
      ClockedPrefix(calls);
      RedisFollowsLedger(rules, calls[..n], gone[..n], key);
      RedisFollowsLedger(rules, calls[..n], gone[..n], call.key);
      ReapingForgetsNothing(server, ledger, rules(key), Now(calls[..n]), call.now, gone[n], key);
      ReapingForgetsNothing(server, ledger, rules(call.key), Now(calls[..n]), call.now, gone[n], call.key);
      RedisStepHolds(Reaped(server, gone[n]), ledger, rules, call, key);
    }
  }

  /** After any run, whatever the server reaped and whatever memory pruned, both stores answer the next call alike. */
  lemma StoresAgree(rules: Rules, seconds: nat, calls: seq<Call>, gone: seq<set<string>>, next: Call, dropped: set<string>)
    requires OneWindow(rules, seconds)
    requires |gone| == |calls| && Clocked(calls) && Now(calls) <= next.now
    requires LegalReaping(rules, calls, gone) && MayReap(Redis(rules, calls, gone), dropped, next.now)
    ensures MemoryDecision(Memory(rules, calls), rules, next) ==
            RedisDecision(Reaped(Redis(rules, calls, gone), dropped), rules, next) ==
            LedgerDecision(Ledger(rules, calls), rules, next)
  {
    MemoryFollowsLedger(rules, seconds, calls, next.key, next.now);
    MemoryDecides(Memory(rules, calls), Ledger(rules, calls), rules, next);
    RedisFollowsLedger(rules, calls, gone, next.key);
    ReapingForgetsNothing(Redis(rules, calls, gone), Ledger(rules, calls), rules(next.key), Now(calls), next.now, dropped,
                          next.key);
    RedisDecides(Reaped(Redis(rules, calls, gone), dropped), Ledger(rules, calls), rules, next);
  }

  /**
   * What pruning costs when windows differ: an admission forgets what another key still had in its window exactly
   * when the map is over its bound and all of it is older than the window of the key admitted. The other key is
   * then admitted, whatever its limit.
   */
  lemma PruningForgetsExactlyWhen(windows: Windows, rules: Rules, call: Call, other: string)
    requires Admits(windows, rules, call) && other != call.key
    ensures var after := MemoryStep(windows, rules, call);
            var later := Call(other, call.now);
            (Live(after, rules, later) != Live(windows, rules, later) <==>
             |windows.Keys + {call.key}| > MAP_BOUND && Live(windows, rules, later) != [] &&
             AllExpired(Of(windows, other), call.now - rules(call.key).Window())) &&
            (Live(after, rules, later) != Live(windows, rules, later) ==> Admits(after, rules, later))
  {
    var written := windows[call.key := Live(windows, rules, call) + [call.now]];
    assert written.Keys == windows.Keys + {call.key};
    assert |written| == |written.Keys|;
    assert Of(written, other) == Of(windows, other);
  }

  // The limit over every window.

  ghost predicate Ascending(times: seq<nat>) {
    forall i, j :: 0 <= i < j < |times| ==> times[i] <= times[j]
  }

  /** Any admission comes a full window after the one `limit` places before it. */
  ghost predicate Spread(times: seq<nat>, rule: Rule) {
    forall i, j :: 0 <= i < j < |times| && j - i >= rule.limit ==> times[i] + rule.Window() <= times[j]
  }

  /** What is recent begins at the first time after the cutoff and runs to the end. */
  lemma {:induction false} RecentIsTheTail(times: seq<nat>, cutoff: int) returns (k: nat)
    requires Ascending(times)
    ensures k <= |times| && |Recent(times, cutoff)| == |times| - k
    ensures k > 0 ==> times[k - 1] <= cutoff
    ensures k < |times| ==> times[k] > cutoff && Recent(times, cutoff)[0] == times[k]
  {
    if times == [] { return 0; }
    var init, last := times[..|times| - 1], times[|times| - 1];
    if last > cutoff {
      k := RecentIsTheTail(init, cutoff);
    } else {
      NothingRecent(times, cutoff);
      k := |times|;
    }
  }

  lemma WindowIsTheTail(times: seq<nat>, rule: Rule, now: nat) returns (k: nat)
    requires Ascending(times)
    ensures k <= |times| && |Within(times, rule, now)| == |times| - k
    ensures k > 0 ==> times[k - 1] + rule.Window() <= now
    ensures k < |times| ==> times[k] + rule.Window() > now && Within(times, rule, now)[0] == times[k]
  {
    k := RecentIsTheTail(times, now - rule.Window());
  }

  lemma {:induction false} AdmissionsAreSpread(rules: Rules, calls: seq<Call>, key: string)
    requires Clocked(calls)
    ensures var times := Of(Ledger(rules, calls), key);
            Ascending(times) && Spread(times, rules(key)) && AllExpired(times, Now(calls))
    decreases |calls|
  {
    if calls != [] {
      var init, call := calls[..|calls| - 1], calls[|calls| - 1];
      ClockedPrefix(calls);
      AdmissionsAreSpread(rules, init, key);
      if call.key == key && Admits(Ledger(rules, init), rules, call) {
        OneMoreAdmission(Of(Ledger(rules, init), key), rules(key), call.now);
      }
    }
  }

  lemma SpreadGoesOn(times: seq<nat>, rule: Rule, now: nat)
    requires Ascending(times) && Spread(times, rule) && |Within(times, rule, now)| < rule.limit
    ensures Spread(times + [now], rule)
  {
    var k := WindowIsTheTail(times, rule, now);
    var longer := times + [now];
    forall i, j | 0 <= i < j < |longer| && j - i >= rule.limit ensures longer[i] + rule.Window() <= longer[j] {
      if j == |times| { assert times[i] <= times[k - 1]; }
    }
  }

  lemma OneMoreAdmission(times: seq<nat>, rule: Rule, now: nat)
    requires Ascending(times) && Spread(times, rule) && AllExpired(times, now) && |Within(times, rule, now)| < rule.limit
    ensures Ascending(times + [now]) && Spread(times + [now], rule) && AllExpired(times + [now], now)
  {
    SpreadGoesOn(times, rule, now);
  }

  function CountIn(times: seq<nat>, start: int, end: int): nat {
    if times == [] then 0
    else CountIn(times[..|times| - 1], start, end) + if start <= times[|times| - 1] < end then 1 else 0
  }

  lemma {:induction false} CountIsBounded(times: seq<nat>, rule: Rule, start: int)
    requires Ascending(times) && Spread(times, rule) && rule.limit >= 1
    ensures CountIn(times, start, start + rule.Window()) <= rule.limit
  {
    if times != [] {
      var init, last := times[..|times| - 1], times[|times| - 1];
      CountIsBounded(init, rule, start);
      if start <= last < start + rule.Window() {
        if |times| > rule.limit {
          var k := |times| - 1 - rule.limit;
          assert times[k] + rule.Window() <= last;
          CountAfter(times, start, start + rule.Window(), k + 1);
        } else {
          CountAfter(times, start, start + rule.Window(), 0);
        }
      }
    }
  }

  lemma {:induction false} CountAfter(times: seq<nat>, start: int, end: int, k: nat)
    requires Ascending(times) && k <= |times| && (k > 0 ==> times[k - 1] < start)
    ensures CountIn(times, start, end) <= |times| - k
  {
    if |times| > k { CountAfter(times[..|times| - 1], start, end, k); }
    else if times != [] { CountAfter(times[..|times| - 1], start, end, k - 1); }
  }

  /** In no run does any stretch as long as the window, wherever it starts, hold more admissions of a key than its limit. */
  lemma LimitHoldsInEveryWindow(rules: Rules, calls: seq<Call>, key: string, start: int)
    requires Clocked(calls)
    ensures CountIn(Of(Ledger(rules, calls), key), start, start + rules(key).Window()) <= rules(key).limit
  {
    AdmissionsAreSpread(rules, calls, key);
    CountIsBounded(Of(Ledger(rules, calls), key), rules(key), start);
  }

  /**
   * A caller refused and told how long to wait is admitted then, if the key was admitted nothing in between, and was
   * not told to wait a second longer than that took.
   */
  lemma WaitingSuffices(rules: Rules, calls: seq<Call>, refused: Call, since: seq<Call>, again: Call)
    requires Clocked(calls + [refused]) && again.key == refused.key && refused.now <= again.now
    requires !Admits(Ledger(rules, calls), rules, refused)
    requires Of(Ledger(rules, calls + [refused] + since), refused.key) == Of(Ledger(rules, calls), refused.key)
    ensures var told := refused.now + 1000 * LedgerDecision(Ledger(rules, calls), rules, refused).retryAfterSeconds;
            var after := Ledger(rules, calls + [refused] + since);
            (again.now >= told ==> Admits(after, rules, again)) &&
            (again.now + 1000 <= told ==> !Admits(after, rules, again))
  {
    var rule, times := rules(refused.key), Of(Ledger(rules, calls), refused.key);
    assert (calls + [refused])[..|calls|] == calls;
    ClockedPrefix(calls + [refused]);
    AdmissionsAreSpread(rules, calls, refused.key);
    FreeFrom(times, rule, refused.now, again.now);
  }

  /** A full window has room again exactly when its oldest admission leaves it. */
  lemma FreeFrom(times: seq<nat>, rule: Rule, now: nat, later: nat)
    requires Ascending(times) && Spread(times, rule) && AllExpired(times, now) && now <= later
    requires |Within(times, rule, now)| >= rule.limit >= 1
    ensures |Within(times, rule, later)| < rule.limit <==> Within(times, rule, now)[0] + rule.Window() <= later
  {
    var k := LimitIsReached(times, rule, now);
    var k' := WindowIsTheTail(times, rule, later);
    if times[k] + rule.Window() <= later {
      assert k' > k;
    } else {
      assert k' <= k;
    }
  }

  /** The ledger after `m` calls of one key at one moment. */
  function Repeatedly(ledger: Windows, rules: Rules, call: Call, m: nat): Windows {
    if m == 0 then ledger else LedgerStep(Repeatedly(ledger, rules, call, m - 1), rules, call)
  }

  function LiveCount(ledger: Windows, rules: Rules, call: Call): nat {
    |Live(ledger, rules, call)|
  }

  lemma OneMoreLive(ledger: Windows, rules: Rules, call: Call)
    requires rules(call.key).windowSeconds > 0
    ensures LiveCount(LedgerStep(ledger, rules, call), rules, call) ==
            LiveCount(ledger, rules, call) + if LiveCount(ledger, rules, call) < rules(call.key).limit then 1 else 0
  {
    RecentAppends(Of(ledger, call.key), call.now, call.now - rules(call.key).Window());
  }

  /** What grows by one until it meets a limit. */
  lemma {:induction false} GrowsToTheLimit(count: nat -> nat, limit: nat, m: nat)
    requires count(0) <= limit
    requires forall k: nat :: count(k + 1) == count(k) + if count(k) < limit then 1 else 0
    ensures count(m) == if count(0) + m < limit then count(0) + m else limit
  {
    if m > 0 {
      GrowsToTheLimit(count, limit, m - 1);
      assert count((m - 1) + 1) == count(m);
    }
  }

  function RepeatedCount(ledger: Windows, rules: Rules, call: Call): nat -> nat {
    (k: nat) => LiveCount(Repeatedly(ledger, rules, call, k), rules, call)
  }

  lemma LiveAfterRepeats(ledger: Windows, rules: Rules, call: Call, m: nat)
    requires rules(call.key).windowSeconds > 0 && LiveCount(ledger, rules, call) <= rules(call.key).limit
    ensures var used, limit := LiveCount(ledger, rules, call) + m, rules(call.key).limit;
            RepeatedCount(ledger, rules, call)(m) == if used < limit then used else limit
  {
    var count := RepeatedCount(ledger, rules, call);
    forall k: nat ensures count(k + 1) == count(k) + if count(k) < rules(call.key).limit then 1 else 0 {
      OneMoreLive(Repeatedly(ledger, rules, call, k), rules, call);
    }
    GrowsToTheLimit(count, rules(call.key).limit, m);
  }

  /** `remaining` is exact: of any number of further calls at the same moment just that many are admitted, the first ones. */
  lemma RemainingIsExact(ledger: Windows, rules: Rules, call: Call, m: nat)
    requires Admits(ledger, rules, call) && rules(call.key).windowSeconds > 0
    ensures var after := LedgerStep(ledger, rules, call);
            Admits(Repeatedly(after, rules, call, m), rules, call) <==> m < LedgerDecision(ledger, rules, call).remaining
  {
    OneMoreLive(ledger, rules, call);
    LiveAfterRepeats(LedgerStep(ledger, rules, call), rules, call, m);
  }

  /** No more than the limit is ever live, so a refusal finds exactly the limit. */
  lemma LimitIsReached(times: seq<nat>, rule: Rule, now: nat) returns (k: nat)
    requires Ascending(times) && Spread(times, rule) && AllExpired(times, now)
    requires |Within(times, rule, now)| >= rule.limit >= 1
    ensures k < |times| && Within(times, rule, now)[0] == times[k] && |times| - k == |Within(times, rule, now)| == rule.limit
    ensures times[k] + rule.Window() > now
  {
    k := WindowIsTheTail(times, rule, now);
    if |times| > rule.limit {
      assert times[|times| - 1 - rule.limit] + rule.Window() <= times[|times| - 1];
    }
  }
}
