/**
 * The two stores agree over every run exactly when all keys are limited over windows of one length: two keys with
 * different windows, and a map filled past its bound, are enough to tell them apart.
 */
module UnequalWindows {
  import opened RateLimit
  import opened RateLimitLaws

  // A run that fills the map

  function Zeros(n: nat): seq<nat> {
    seq(n, _ => 0)
  }

  lemma {:induction false} ZerosStay(n: nat, cutoff: int)
    requires cutoff < 0
    ensures Recent(Zeros(n), cutoff) == Zeros(n)
  {
    if n > 0 {
      ZerosStay(n - 1, cutoff);
      assert Zeros(n)[..n - 1] == Zeros(n - 1) && Zeros(n) == Zeros(n - 1) + [0];
    }
  }

  ghost predicate NoLonger(keys: set<string>, length: nat) {
    forall key :: key in keys ==> |key| <= length
  }

  lemma OneMoreCall(rules: Rules, calls: seq<Call>, call: Call)
    ensures Memory(rules, calls + [call]) == MemoryStep(Memory(rules, calls), rules, call)
    ensures Ledger(rules, calls + [call]) == LedgerStep(Ledger(rules, calls), rules, call)
  {
    assert (calls + [call])[..|calls|] == calls;
  }

  ghost predicate AtStart(calls: seq<Call>) {
    forall i :: 0 <= i < |calls| ==> calls[i].now == 0
  }

  /** The slow key has been admitted `n` times at time 0, and memory holds it and `others`. */
  ghost predicate Filled(windows: Windows, ledger: Windows, slow: string, n: nat, others: set<string>) {
    slow in windows && windows[slow] == Zeros(n) && Of(ledger, slow) == Zeros(n) && windows.Keys == {slow} + others
  }

  ghost predicate FilledBy(rules: Rules, calls: seq<Call>, slow: string, n: nat, others: set<string>) {
    Filled(Memory(rules, calls), Ledger(rules, calls), slow, n, others)
  }

  lemma Admitted(windows: Windows, ledger: Windows, rules: Rules, call: Call, times: seq<nat>)
    requires Live(windows, rules, call) == Live(ledger, rules, call) == Of(ledger, call.key) == times
    requires |times| < rules(call.key).limit && windows.Keys <= {call.key}
    ensures MemoryStep(windows, rules, call) == windows[call.key := times + [call.now]]
    ensures Of(LedgerStep(ledger, rules, call), call.key) == times + [call.now]
  {
    var written := windows[call.key := times + [call.now]];
    assert written.Keys == {call.key} && |written| == |written.Keys|;
  }

  lemma ZerosAreLive(ledger: Windows, rules: Rules, call: Call, n: nat)
    requires call.now == 0 && rules(call.key).windowSeconds > 0 && Of(ledger, call.key) == Zeros(n)
    ensures Live(ledger, rules, call) == Zeros(n)
  {
    ZerosStay(n, call.now - rules(call.key).Window());
  }

  lemma SlowFills(windows: Windows, ledger: Windows, rules: Rules, call: Call, n: nat)
    requires call.now == 0 && n < rules(call.key).limit && rules(call.key).windowSeconds > 0
    requires Of(windows, call.key) == Of(ledger, call.key) == Zeros(n) && windows.Keys <= {call.key}
    ensures Filled(MemoryStep(windows, rules, call), LedgerStep(ledger, rules, call), call.key, n + 1, {})
  {
    ZerosAreLive(windows, rules, call, n);
    ZerosAreLive(ledger, rules, call, n);
    Admitted(windows, ledger, rules, call, Zeros(n));
    assert Zeros(n) + [call.now] == Zeros(n + 1);
  }

  lemma OneMoreSlow(rules: Rules, calls: seq<Call>, call: Call, n: nat)
    requires call.now == 0 && n < rules(call.key).limit && rules(call.key).windowSeconds > 0
    requires if n == 0 then calls == [] else FilledBy(rules, calls, call.key, n, {})
    ensures FilledBy(rules, calls + [call], call.key, n + 1, {})
  {
    SlowFills(Memory(rules, calls), Ledger(rules, calls), rules, call, n);
    OneMoreCall(rules, calls, call);
  }

  /** The slow key called `n` times. */
  lemma {:induction false} SlowRun(rules: Rules, slow: string, n: nat) returns (calls: seq<Call>)
    requires 0 < n <= rules(slow).limit && rules(slow).windowSeconds > 0
    ensures FilledBy(rules, calls, slow, n, {}) && AtStart(calls)
  {
    calls := [];
    if n > 1 { calls := SlowRun(rules, slow, n - 1); }
    OneMoreSlow(rules, calls, Call(slow, 0), n - 1);
    calls := calls + [Call(slow, 0)];
  }

  lemma OtherFills(windows: Windows, ledger: Windows, rules: Rules, slow: string, n: nat, others: set<string>, call: Call)
    requires Filled(windows, ledger, slow, n, others) && call.key != slow && |others| + 2 <= MAP_BOUND
    ensures Filled(MemoryStep(windows, rules, call), LedgerStep(ledger, rules, call), slow, n, others + {call.key})
  {
    var written := windows[call.key := Live(windows, rules, call) + [call.now]];
    assert written.Keys == {slow} + (others + {call.key});
    assert |written| == |written.Keys| <= |others| + 2;
  }

  lemma OneMoreFiller(rules: Rules, calls: seq<Call>, slow: string, limit: nat, others: set<string>, call: Call)
    requires FilledBy(rules, calls, slow, limit, others) && call.key != slow && |others| + 2 <= MAP_BOUND
    ensures FilledBy(rules, calls + [call], slow, limit, others + {call.key})
  {
    OtherFills(Memory(rules, calls), Ledger(rules, calls), rules, slow, limit, others, call);
    OneMoreCall(rules, calls, call);
  }

  /** Then `n` other keys, each longer than all before it. */
  lemma {:induction false} FillerRun(rules: Rules, slow: string, short: string, n: nat)
    returns (calls: seq<Call>, others: set<string>)
    requires n < MAP_BOUND && rules(slow).windowSeconds > 0
    ensures FilledBy(rules, calls, slow, rules(slow).limit, others) && AtStart(calls)
    ensures |others| == n && slow !in others && short !in others && NoLonger(others, |slow| + |short| + n)
  {
    if n == 0 {
      calls := SlowRun(rules, slow, rules(slow).limit);
      others := {};
    } else {
      calls, others := FillerRun(rules, slow, short, n - 1);
      var key := seq(|slow| + |short| + n, _ => 'k');
      OneMoreFiller(rules, calls, slow, rules(slow).limit, others, Call(key, 0));
      calls, others := calls + [Call(key, 0)], others + {key};
    }
  }

  // What the last key makes memory forget

  /** The key that takes the map over its bound, called as late as its own window reaches, forgets all at time 0. */
  lemma ShortForgets(windows: Windows, ledger: Windows, rules: Rules, slow: string, short: string, others: set<string>)
    requires rules(short).windowSeconds < rules(slow).windowSeconds
    requires Filled(windows, ledger, slow, rules(slow).limit, others) && slow !in others && short !in others
    requires |others| + 1 == MAP_BOUND
    ensures var call := Call(short, rules(short).Window());
            Of(MemoryStep(windows, rules, call), slow) == [] &&
            Of(LedgerStep(ledger, rules, call), slow) == Zeros(rules(slow).limit)
  {
    var call := Call(short, rules(short).Window());
    assert Live(windows, rules, call) == [];
    var written := windows[short := [call.now]];
    assert written.Keys == {slow} + others + {short};
    assert |written| == |written.Keys| == |others| + 2;
  }

  lemma SlowDecided(windows: Windows, ledger: Windows, rules: Rules, slow: string, short: string)
    requires rules(short).windowSeconds < rules(slow).windowSeconds
    requires Of(windows, slow) == [] && Of(ledger, slow) == Zeros(rules(slow).limit)
    ensures var next := Call(slow, rules(short).Window());
            MemoryDecision(windows, rules, next).allowed && !LedgerDecision(ledger, rules, next).allowed
  {
    ZerosStay(rules(slow).limit, rules(short).Window() - rules(slow).Window());
  }

  function NoneGone(n: nat): seq<set<string>> {
    seq(n, _ => {})
  }

  lemma {:induction false} NoneGoneIsLegal(rules: Rules, calls: seq<Call>)
    ensures LegalReaping(rules, calls, NoneGone(|calls|))
    decreases |calls|
  {
    if calls != [] {
      var n := |calls| - 1;
      NoneGoneIsLegal(rules, calls[..n]);
      assert NoneGone(|calls|)[..n] == NoneGone(n);
    }
  }

  /** What memory and the server may have been through before a call. */
  ghost predicate LegalRun(rules: Rules, calls: seq<Call>, gone: seq<set<string>>, next: Call, dropped: set<string>) {
    |gone| == |calls| && Clocked(calls) && Now(calls) <= next.now && LegalReaping(rules, calls, gone) &&
    MayReap(Redis(rules, calls, gone), dropped, next.now)
  }

  ghost predicate Agree(rules: Rules, calls: seq<Call>, gone: seq<set<string>>, next: Call, dropped: set<string>)
    requires |gone| == |calls|
  {
    MemoryDecision(Memory(rules, calls), rules, next) == RedisDecision(Reaped(Redis(rules, calls, gone), dropped), rules, next)
  }

  /**
   * Where one key has a shorter window than another: the slower key used up at time 0, enough others called to fill the
   * map, and then the shorter one. Memory admits the slower key again, the server and the ledger refuse it.
   */
  lemma ShorterWindowForgets(rules: Rules, slow: string, short: string) returns (calls: seq<Call>, next: Call)
    requires rules(short).windowSeconds < rules(slow).windowSeconds
    ensures LegalRun(rules, calls, NoneGone(|calls|), next, {})
    ensures next.key == slow && MemoryDecision(Memory(rules, calls), rules, next).allowed
    ensures !LedgerDecision(Ledger(rules, calls), rules, next).allowed
    ensures !RedisDecision(Reaped(Redis(rules, calls, NoneGone(|calls|)), {}), rules, next).allowed
  {
    calls, next := FilledAndForgotten(rules, slow, short, MAP_BOUND - 1);
    NoneGoneIsLegal(rules, calls);
    ServerRemembers(rules, calls, next);
  }

  lemma FilledAndForgotten(rules: Rules, slow: string, short: string, n: nat) returns (calls: seq<Call>, next: Call)
    requires rules(short).windowSeconds < rules(slow).windowSeconds && n + 1 == MAP_BOUND
    ensures Clocked(calls) && Now(calls) <= next.now && next.key == slow
    ensures MemoryDecision(Memory(rules, calls), rules, next).allowed
    ensures !LedgerDecision(Ledger(rules, calls), rules, next).allowed
  {
    var now := rules(short).Window();
    var filled, others := FillerRun(rules, slow, short, n);
    calls, next := filled + [Call(short, now)], Call(slow, now);
    ForgottenAfter(rules, filled, slow, short, others);
  }

  lemma ForgottenAfter(rules: Rules, filled: seq<Call>, slow: string, short: string, others: set<string>)
    requires rules(short).windowSeconds < rules(slow).windowSeconds
    requires FilledBy(rules, filled, slow, rules(slow).limit, others)
    requires slow !in others && short !in others && |others| + 1 == MAP_BOUND
    ensures var calls, next := filled + [Call(short, rules(short).Window())], Call(slow, rules(short).Window());
            MemoryDecision(Memory(rules, calls), rules, next).allowed &&
            !LedgerDecision(Ledger(rules, calls), rules, next).allowed
  {
    var last := Call(short, rules(short).Window());
    ShortForgets(Memory(rules, filled), Ledger(rules, filled), rules, slow, short, others);
    OneMoreCall(rules, filled, last);
    SlowDecided(Memory(rules, filled + [last]), Ledger(rules, filled + [last]), rules, slow, short);
  }

  lemma ServerRemembers(rules: Rules, calls: seq<Call>, next: Call)
    requires Clocked(calls) && Now(calls) <= next.now && LegalReaping(rules, calls, NoneGone(|calls|))
    ensures RedisDecision(Reaped(Redis(rules, calls, NoneGone(|calls|)), {}), rules, next) ==
            LedgerDecision(Ledger(rules, calls), rules, next)
  {
    var server := Redis(rules, calls, NoneGone(|calls|));
    RedisFollowsLedger(rules, calls, NoneGone(|calls|), next.key);
    ReapingForgetsNothing(server, Ledger(rules, calls), rules(next.key), Now(calls), next.now, {}, next.key);
    RedisDecides(Reaped(server, {}), Ledger(rules, calls), rules, next);
  }

  /** In every run, whatever the server reaped. */
  ghost predicate AlwaysAgree(rules: Rules) {
    forall calls, gone, next, dropped ::
      LegalRun(rules, calls, gone, next, dropped) ==> Agree(rules, calls, gone, next, dropped)
  }

  /** The stores can stand in for each other exactly when all keys have one window. */
  lemma StoresAgreeExactlyWhen(rules: Rules)
    ensures AlwaysAgree(rules) <==> exists seconds :: OneWindow(rules, seconds)
  {
    if seconds :| OneWindow(rules, seconds) {
      forall calls, gone, next, dropped | LegalRun(rules, calls, gone, next, dropped)
        ensures Agree(rules, calls, gone, next, dropped)
      {
        StoresAgree(rules, seconds, calls, gone, next, dropped);
      }
    }
    if !OneWindow(rules, rules("").windowSeconds) {
      var key :| rules(key).windowSeconds != rules("").windowSeconds;
      var slow := if rules(key).windowSeconds > rules("").windowSeconds then key else "";
      var calls, next := ShorterWindowForgets(rules, slow, if slow == key then "" else key);
      assert LegalRun(rules, calls, NoneGone(|calls|), next, {}) && !Agree(rules, calls, NoneGone(|calls|), next, {});
    }
  }
}
