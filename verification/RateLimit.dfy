/**
 * The rolling-window rate limiter: a ledger of every admission that says what the window means, and the two stores
 * that forget most of it. Times are in milliseconds.
 */
module RateLimit {
  import opened Wrappers

  /** What one key is allowed. */
  datatype Rule = Rule(limit: nat, windowSeconds: nat) {
    function Window(): nat {
      1000 * windowSeconds
    }
  }

  type Rules = rules: string -> Rule | forall key :: rules(key).limit >= 1 witness key => Rule(1, 0)

  datatype Call = Call(key: string, now: nat)

  datatype Decision = Decision(allowed: bool, remaining: int, retryAfterSeconds: int)

  type Windows = map<string, seq<nat>>

  function Of(windows: Windows, key: string): seq<nat> {
    if key in windows then windows[key] else []
  }

  /** The times after the cutoff, in order. */
  function Recent(times: seq<nat>, cutoff: int): seq<nat> {
    if times == [] then []
    else Recent(times[..|times| - 1], cutoff) + if times[|times| - 1] > cutoff then [times[|times| - 1]] else []
  }

  /** What the window of a rule still covers. */
  function Within(times: seq<nat>, rule: Rule, now: nat): seq<nat> {
    Recent(times, now - rule.Window())
  }

  function CeilSeconds(ms: int): int {
    (ms + 999) / 1000
  }

  function Max(x: int, y: int): int {
    if x < y then y else x
  }

  // What the window means: every admission is remembered, and those inside the window count.

  function Live(ledger: Windows, rules: Rules, call: Call): seq<nat> {
    Within(Of(ledger, call.key), rules(call.key), call.now)
  }

  predicate Admits(ledger: Windows, rules: Rules, call: Call) {
    |Live(ledger, rules, call)| < rules(call.key).limit
  }

  function LedgerDecision(ledger: Windows, rules: Rules, call: Call): Decision {
    var live, rule := Live(ledger, rules, call), rules(call.key);
    if |live| < rule.limit then Decision(true, rule.limit - |live| - 1, 0)
    else Decision(false, 0, CeilSeconds(live[0] + rule.Window() - call.now))
  }

  function LedgerStep(ledger: Windows, rules: Rules, call: Call): Windows {
    if Admits(ledger, rules, call) then ledger[call.key := Of(ledger, call.key) + [call.now]] else ledger
  }

  function Ledger(rules: Rules, calls: seq<Call>): Windows {
    if calls == [] then map[] else LedgerStep(Ledger(rules, calls[..|calls| - 1]), rules, calls[|calls| - 1])
  }

  /** The clock never runs backwards. */
  predicate Clocked(calls: seq<Call>) {
    forall i, j :: 0 <= i < j < |calls| ==> calls[i].now <= calls[j].now
  }

  function Now(calls: seq<Call>): nat {
    if calls == [] then 0 else calls[|calls| - 1].now
  }

  lemma ClockedPrefix(calls: seq<Call>)
    requires Clocked(calls) && calls != []
    ensures Clocked(calls[..|calls| - 1]) && Now(calls[..|calls| - 1]) <= Now(calls)
  {
  }

  // The in-memory store.

  const MAP_BOUND: nat := 10000

  predicate AllExpired(times: seq<nat>, cutoff: int) {
    forall i :: 0 <= i < |times| ==> times[i] <= cutoff
  }

  function Pruned(windows: Windows, cutoff: int): Windows {
    if |windows| > MAP_BOUND then map key | key in windows && !AllExpired(windows[key], cutoff) :: windows[key] else windows
  }

  /** With a limit of 0 and nothing in the window there is no oldest admission to wait for. */
  predicate NothingToWaitFor(windows: Windows, rule: Rule, call: Call) {
    rule.limit == 0 && Within(Of(windows, call.key), rule, call.now) == []
  }

  function MemoryAnswer(windows: Windows, rule: Rule, call: Call): Decision
    requires !NothingToWaitFor(windows, rule, call)
  {
    var admitted := Within(Of(windows, call.key), rule, call.now);
    if |admitted| >= rule.limit then
      Decision(false, 0, Max(1, CeilSeconds(rule.Window() - (call.now - admitted[0]))))
    else Decision(true, rule.limit - |admitted + [call.now]|, 0)
  }

  function MemoryWrite(windows: Windows, rule: Rule, call: Call): Windows {
    var admitted := Within(Of(windows, call.key), rule, call.now);
    if |admitted| >= rule.limit then windows[call.key := admitted]
    else Pruned(windows[call.key := admitted + [call.now]], call.now - rule.Window())
  }

  function MemoryDecision(windows: Windows, rules: Rules, call: Call): Decision {
    MemoryAnswer(windows, rules(call.key), call)
  }

  function MemoryStep(windows: Windows, rules: Rules, call: Call): Windows {
    MemoryWrite(windows, rules(call.key), call)
  }

  function Memory(rules: Rules, calls: seq<Call>): Windows {
    if calls == [] then map[] else MemoryStep(Memory(rules, calls[..|calls| - 1]), rules, calls[|calls| - 1])
  }

  // The Redis store. The server may drop a key at any moment from its expiry on.

  datatype SortedSet = SortedSet(scores: seq<nat>, expiresAt: nat)

  type Server = map<string, SortedSet>

  function Scores(server: Server, key: string): seq<nat> {
    if key in server then server[key].scores else []
  }

  function Reaped(server: Server, gone: set<string>): Server {
    map key | key in server && key !in gone :: server[key]
  }

  predicate MayReap(server: Server, gone: set<string>, now: nat) {
    forall key :: key in gone && key in server ==> server[key].expiresAt <= now
  }

  /** By score; a new member goes after those of an equal score. */
  function ZAdd(scores: seq<nat>, score: nat): seq<nat> {
    if scores == [] || scores[|scores| - 1] <= score then scores + [score]
    else ZAdd(scores[..|scores| - 1], score) + [scores[|scores| - 1]]
  }

  /** The members a call still finds once it has trimmed the set. */
  function Kept(server: Server, rule: Rule, call: Call): seq<nat> {
    Within(Scores(server, call.key), rule, call.now)
  }

  /** With a limit of 0 and nothing in the set the script looks for an oldest member there is none of. */
  predicate ScriptFails(server: Server, rule: Rule, call: Call) {
    rule.limit == 0 && Kept(server, rule, call) == []
  }

  function RedisAnswer(server: Server, rule: Rule, call: Call): Decision
    requires !ScriptFails(server, rule, call)
  {
    var kept := Kept(server, rule, call);
    if |kept| >= rule.limit then Decision(false, 0, CeilSeconds(Max(1, rule.Window() - (call.now - kept[0]))))
    else Decision(true, rule.limit - |kept| - 1, 0)
  }

  /** A set trimmed to nothing is gone, and only an admission moves the expiry. */
  function RedisWrite(server: Server, rule: Rule, call: Call): Server
    requires !ScriptFails(server, rule, call)
  {
    var kept := Kept(server, rule, call);
    if |kept| >= rule.limit then server[call.key := SortedSet(kept, server[call.key].expiresAt)]
    else server[call.key := SortedSet(ZAdd(kept, call.now), call.now + rule.Window())]
  }

  function RedisDecision(server: Server, rules: Rules, call: Call): Decision {
    RedisAnswer(server, rules(call.key), call)
  }

  function RedisStep(server: Server, rules: Rules, call: Call): Server {
    RedisWrite(server, rules(call.key), call)
  }

  function Redis(rules: Rules, calls: seq<Call>, gone: seq<set<string>>): Server
    requires |gone| == |calls|
  {
    if calls == [] then map[]
    else
      var n := |calls| - 1;
      RedisStep(Reaped(Redis(rules, calls[..n], gone[..n]), gone[n]), rules, calls[n])
  }

  /** Before every call the server has dropped only keys that had expired. */
  ghost predicate LegalReaping(rules: Rules, calls: seq<Call>, gone: seq<set<string>>)
    requires |gone| == |calls|
  {
    calls == [] ||
    (var n := |calls| - 1;
     LegalReaping(rules, calls[..n], gone[..n]) && MayReap(Redis(rules, calls[..n], gone[..n]), gone[n], calls[n].now))
  }

  class InMemoryStore {
    var windows: Windows

    constructor ()
      ensures windows == map[]
    {
      windows := map[];
    }

    /** Any limit; with nothing to wait for the call is refused for a time that is not a number, and nothing is counted. */
    method Consume(rule: Rule, call: Call) returns (decision: Option<Decision>)
      modifies this
      ensures windows == MemoryWrite(old(windows), rule, call)
      ensures NothingToWaitFor(old(windows), rule, call) ==> decision == None && windows == old(windows)[call.key := []]
      ensures !NothingToWaitFor(old(windows), rule, call) ==> decision == Some(MemoryAnswer(old(windows), rule, call))
    {
      var cutoff := call.now - rule.Window();
      var times := Of(windows, call.key);
      var admitted := [];
      for i := 0 to |times|
        invariant admitted == Recent(times[..i], cutoff)
      {
        assert times[..i + 1][..i] == times[..i];
        if times[i] > cutoff { admitted := admitted + [times[i]]; }
      }
      assert times[..|times|] == times;
      if |admitted| >= rule.limit {
        windows := windows[call.key := admitted];
        if admitted == [] { return None; }
        return Some(Decision(false, 0, Max(1, CeilSeconds(rule.Window() - (call.now - admitted[0])))));
      }
      admitted := admitted + [call.now];
      windows := windows[call.key := admitted];
      if |windows| > MAP_BOUND { Prune(cutoff); }
      return Some(Decision(true, rule.limit - |admitted|, 0));
    }

    method Prune(cutoff: int)
      modifies this
      ensures windows == map key | key in old(windows) && !AllExpired(old(windows)[key], cutoff) :: old(windows)[key]
    {
      var candidates := windows.Keys;
      while candidates != {}
        invariant candidates <= windows.Keys
        invariant forall key :: key in windows <==>
                                key in old(windows) && (key in candidates || !AllExpired(old(windows)[key], cutoff))
        invariant forall key :: key in windows ==> windows[key] == old(windows)[key]
      {
        var candidate :| candidate in candidates;
        if AllExpired(windows[candidate], cutoff) { windows := windows - {candidate}; }
        candidates := candidates - {candidate};
      }
    }
  }

  /** Two servers that differ at one key only are equal once that key is written. */
  lemma OthersKept(server: Server, before: Server, key: string, stored: SortedSet)
    requires server - {key} == before - {key}
    ensures server[key := stored] == before[key := stored]
  {
    assert server[key := stored] == (server - {key})[key := stored];
    assert before[key := stored] == (before - {key})[key := stored];
  }

  class RedisStore {
    var server: Server

    constructor ()
      ensures server == map[]
    {
      server := map[];
    }

    method TrimUpTo(key: string, cutoff: int)
      modifies this
      ensures Scores(server, key) == Recent(Scores(old(server), key), cutoff)
      ensures key in server <==> Scores(server, key) != []
      ensures key in server ==> key in old(server) && server[key].expiresAt == old(server)[key].expiresAt
      ensures server - {key} == old(server) - {key}
    {
      var scores := Scores(server, key);
      var kept := [];
      for i := 0 to |scores|
        invariant kept == Recent(scores[..i], cutoff)
      {
        assert scores[..i + 1][..i] == scores[..i];
        if scores[i] > cutoff { kept := kept + [scores[i]]; }
      }
      assert scores[..|scores|] == scores;
      server := if kept == [] then server - {key} else server[key := server[key].(scores := kept)];
    }

    /** The script: trim, count, then either the wait or one more member. What it trimmed stays trimmed when it fails. */
    method RollingWindow(key: string, now: nat, window: nat, limit: nat) returns (reply: Option<(int, int, int)>)
      modifies this
      ensures var kept := Recent(Scores(old(server), key), now - window);
              if limit == 0 && kept == [] then reply == None && server == old(server) - {key}
              else if |kept| >= limit then
                reply == Some((0, 0, Max(1, window - (now - kept[0])))) &&
                server == old(server)[key := SortedSet(kept, old(server)[key].expiresAt)]
              else
                reply == Some((1, limit - |kept| - 1, 0)) &&
                server == old(server)[key := SortedSet(ZAdd(kept, now), now + window)]
    {
      TrimUpTo(key, now - window);
      var used := |Scores(server, key)|;
      if used >= limit {
        if used == 0 { return None; }
        OthersKept(server, old(server), key, server[key]);
        var oldest := server[key].scores[0];
        var retry := window - (now - oldest);
        if retry < 1 { retry := 1; }
        return Some((0, 0, retry));
      }
      var stored := SortedSet(ZAdd(Scores(server, key), now), now + window);
      OthersKept(server, old(server), key, stored);
      server := server[key := stored];
      return Some((1, limit - used - 1, 0));
    }

    /**
     * A store that cannot be reached, or a script that fails, admits the call unchecked and counts nothing; otherwise
     * the decision is the script's.
     */
    method Consume(rule: Rule, call: Call, reachable: bool) returns (decision: Decision)
      modifies this
      ensures !reachable ==> decision == Decision(true, rule.limit, 0) && server == old(server)
      ensures reachable && ScriptFails(old(server), rule, call) ==>
                decision == Decision(true, rule.limit, 0) && server == old(server) - {call.key}
      ensures reachable && !ScriptFails(old(server), rule, call) ==>
                decision == RedisAnswer(old(server), rule, call) && server == RedisWrite(old(server), rule, call)
    {
      if !reachable { return Decision(true, rule.limit, 0); }
      var reply := RollingWindow(call.key, call.now, rule.Window(), rule.limit);
      match reply
      case None => return Decision(true, rule.limit, 0);
      case Some((allowed, remaining, retryMs)) => return Decision(allowed == 1, remaining, CeilSeconds(retryMs));
    }
  }
}
