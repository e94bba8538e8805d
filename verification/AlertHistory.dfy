/** What one caller of the alert manager gets over whole runs with fixed rules. */
module AlertHistory {
  import opened AlertManager
  import opened Collections
  import opened Events
  import opened Rules
  import opened Strings

  ghost predicate Monotone(clock: nat -> int) { forall i: nat, j: nat :: i <= j ==> clock(i) <= clock(j) }

  function Start(rules: seq<Rule>): Shared { Shared(rules, [], map[], map[], 1) }

  // ------------------------------------------------------------ the alert log

  /** When a rule last fired. */
  function LastTime(log: seq<Alert>, name: string): Option<int> {
    if log == [] then None
    else if log[|log| - 1].rule == name then Some(log[|log| - 1].time)
    else LastTime(log[..|log| - 1], name)
  }

  /** The state against the full log of alerts ever raised: the history is its tail, ids
      count up from one, and the cooldown table holds the last firing of each rule. */
  ghost predicate Agrees(s: Shared, log: seq<Alert>) {
    && s.alerts == Last(log, MAX_ALERTS)
    && s.nextId == |log| + 1
    && (forall k :: 0 <= k < |log| ==> log[k].id == k + 1)
    && (forall name :: (if name in s.last then Some(s.last[name]) else None) == LastTime(log, name))
  }

  lemma FiringAgrees(s: Shared, log: seq<Alert>, a: Alert)
    requires Agrees(s, log) && a.id == s.nextId
    ensures Agrees(Fired(s, a), log + [a])
  {
    assert (log + [a])[..|log|] == log;
  }

  lemma NothingAgrees(rules: seq<Rule>)
    ensures Agrees(Start(rules), [])
  {
  }

  lemma OnRuleAgrees(s: Shared, log: seq<Alert>, rule: Rule, e: Event, env: Env, clock: nat -> int, r: nat)
    requires Agrees(s, log)
    ensures var o := OnRule(s, rule, e, env, clock, r); Agrees(o.s, log + o.raised) && o.s.rules == s.rules && o.ticks >= r
  {
    hide Agrees, Fired, Cooling, Reached, LooksAtClock, Recent;
    var o := OnRule(s, rule, e, env, clock, r);
    var s2 := Checked(Tracked(s, rule.name, e.timestamp), rule, clock(r));
    SameLog(s, s2, log);
    assert log + [] == log;
    if o.raised != [] {
      FiringAgrees(s2, log, o.raised[0]);
      FiringKeepsRules(s2, o.raised[0]);
    }
  }

  lemma FiringKeepsRules(s: Shared, a: Alert)
    ensures Fired(s, a).rules == s.rules
  {
  }

  lemma SameLog(s: Shared, s2: Shared, log: seq<Alert>)
    requires s2.alerts == s.alerts && s2.last == s.last && s2.nextId == s.nextId
    ensures Agrees(s, log) ==> Agrees(s2, log)
  {
  }

  lemma {:induction false} OnRulesAgrees(s: Shared, log: seq<Alert>, rules: seq<Rule>, e: Event, env: Env, clock: nat -> int, r: nat)
    requires Agrees(s, log)
    ensures var o := OnRules(s, rules, e, env, clock, r); Agrees(o.s, log + o.raised) && o.s.rules == s.rules && o.ticks >= r
  {
    hide OnRule, Agrees;
    if rules == [] {
      assert log + [] == log;
    } else {
      var front := rules[..|rules| - 1];
      OnRulesAgrees(s, log, front, e, env, clock, r);
      var before := OnRules(s, front, e, env, clock, r);
      OnRuleAgrees(before.s, log + before.raised, rules[|rules| - 1], e, env, clock, before.ticks);
      var o := OnRule(before.s, rules[|rules| - 1], e, env, clock, before.ticks);
      assert log + (before.raised + o.raised) == (log + before.raised) + o.raised;
    }
  }

  /** Over every run: the history is always the last at most 10000 alerts raised, ids are
      unique, consecutive and increasing, and the cooldown table is exact. */
  lemma {:induction false} RunAgrees(rules: seq<Rule>, es: seq<Event>, env: Env, clock: nat -> int)
    ensures var o := OnEvents(Start(rules), es, env, clock, 0); Agrees(o.s, o.raised) && o.s.rules == rules
    ensures var o := OnEvents(Start(rules), es, env, clock, 0); o.s.alerts == Last(o.raised, 10000)
  {
    hide OnRules, Agrees;
    if es == [] {
      NothingAgrees(rules);
    } else {
      RunAgrees(rules, es[..|es| - 1], env, clock);
      var before := OnEvents(Start(rules), es[..|es| - 1], env, clock, 0);
      OnRulesAgrees(before.s, before.raised, rules, es[|es| - 1], env, clock, before.ticks);
    }
    var o := OnEvents(Start(rules), es, env, clock, 0);
    HistoryIsTail(o.s, o.raised);
  }

  lemma HistoryIsTail(s: Shared, log: seq<Alert>)
    requires Agrees(s, log)
    ensures s.alerts == Last(log, 10000)
  {
  }

  // ------------------------------------------------------------ the sliding window

  /** Pruning early loses nothing a later cutoff would keep. */
  lemma {:induction false} RecentTwice(times: seq<int>, early: int, late: int)
    requires early <= late
    ensures Recent(Recent(times, early), late) == Recent(times, late)
  {
    if times != [] {
      var n := |times| - 1;
      RecentTwice(times[..n], early, late);
      if times[n] >= early {
      } else {
        assert Recent(times[..n], early) + [] == Recent(times[..n], early);
        assert Recent(times[..n], late) + [] == Recent(times[..n], late);
      }
    }
  }

  predicate Applies(rule: Rule, e: Event, env: Env) { rule.enabled && env.matches(rule, e) }

  /** The timestamps of all events of a run that a rule matched. */
  function MatchedTimes(es: seq<Event>, rule: Rule, env: Env): seq<int> {
    if es == [] then []
    else
      var e := es[|es| - 1];
      MatchedTimes(es[..|es| - 1], rule, env) + (if Applies(rule, e, env) then [e.timestamp] else [])
  }

  /** The stored list is the whole matched history cut at some time the clock has passed. */
  ghost predicate Windowed(stored: seq<int>, history: seq<int>, rule: Rule, now: int) {
    stored == history == [] || exists cutoff :: cutoff + rule.body.window <= now && stored == Recent(history, cutoff)
  }

  ghost predicate NoAlertOf(raised: seq<Alert>, name: string) { forall i :: 0 <= i < |raised| ==> raised[i].rule != name }

  lemma {:induction false} LastTimeAppend(log: seq<Alert>, more: seq<Alert>, name: string)
    requires NoAlertOf(more, name)
    ensures LastTime(log + more, name) == LastTime(log, name)
    decreases |more|
  {
    if more == [] {
      assert log + more == log;
    } else {
      var n := |more| - 1;
      LastTimeAppend(log, more[..n], name);
      assert (log + more)[..|log| + n] == log + more[..n];
    }
  }

  /** Other rules leave a rule's list alone ... */
  lemma OtherRule(s: Shared, rule: Rule, name: string, e: Event, env: Env, clock: nat -> int, r: nat)
    requires rule.name != name
    ensures var o := OnRule(s, rule, e, env, clock, r); SeenOf(o.s, name) == SeenOf(s, name) && o.ticks >= r
  {
  }

  lemma {:induction false} OtherRules(s: Shared, rules: seq<Rule>, name: string, e: Event, env: Env, clock: nat -> int, r: nat)
    requires forall i :: 0 <= i < |rules| ==> rules[i].name != name
    ensures var o := OnRules(s, rules, e, env, clock, r); SeenOf(o.s, name) == SeenOf(s, name) && o.ticks >= r
  {
    hide OnRule, SeenOf;
    if rules != [] {
      var front := rules[..|rules| - 1];
      OtherRules(s, front, name, e, env, clock, r);
      var before := OnRules(s, front, e, env, clock, r);
      OtherRule(before.s, rules[|rules| - 1], name, e, env, clock, before.ticks);
    }
  }

  /** ... and raise none of its alerts. */
  lemma OtherRuleSilent(s: Shared, rule: Rule, name: string, e: Event, env: Env, clock: nat -> int, r: nat)
    requires rule.name != name
    ensures NoAlertOf(OnRule(s, rule, e, env, clock, r).raised, name)
  {
  }

  lemma {:induction false} OtherRulesSilent(s: Shared, rules: seq<Rule>, name: string, e: Event, env: Env, clock: nat -> int, r: nat)
    requires forall i :: 0 <= i < |rules| ==> rules[i].name != name
    ensures NoAlertOf(OnRules(s, rules, e, env, clock, r).raised, name)
  {
    hide OnRule;
    if rules != [] {
      var front := rules[..|rules| - 1];
      OtherRulesSilent(s, front, name, e, env, clock, r);
      var before := OnRules(s, front, e, env, clock, r);
      OtherRuleSilent(before.s, rules[|rules| - 1], name, e, env, clock, before.ticks);
    }
  }

  /** The rules after rule `j` of an event. */
  lemma {:induction false} LaterRules(s: Shared, rules: seq<Rule>, j: nat, e: Event, env: Env, clock: nat -> int, r: nat)
    requires UniqueNames(rules) && j < |rules|
    ensures var mid, o := OnRules(s, rules[..j + 1], e, env, clock, r), OnRules(s, rules, e, env, clock, r);
            SeenOf(o.s, rules[j].name) == SeenOf(mid.s, rules[j].name) && o.ticks >= mid.ticks
    decreases |rules|
  {
    hide OnRule, SeenOf;
    var n := |rules| - 1;
    if j == n {
      assert rules[..j + 1] == rules;
    } else {
      assert rules[..n][..j + 1] == rules[..j + 1];
      LaterRules(s, rules[..n], j, e, env, clock, r);
      var before := OnRules(s, rules[..n], e, env, clock, r);
      OtherRule(before.s, rules[n], rules[j].name, e, env, clock, before.ticks);
    }
  }

  /** State and readings just before rule `j` sees the last event of a run. */
  function BeforeRule(rules: seq<Rule>, es: seq<Event>, e: Event, j: nat, env: Env, clock: nat -> int): Outcome
    requires j <= |rules|
  {
    var before := OnEvents(Start(rules), es, env, clock, 0);
    var o := OnRules(before.s, rules[..j], e, env, clock, before.ticks);
    Outcome(o.s, o.ticks, before.raised + o.raised)
  }

  lemma ReachRule(rules: seq<Rule>, es: seq<Event>, e: Event, j: nat, env: Env, clock: nat -> int)
    requires UniqueNames(rules) && j < |rules|
    ensures var o, before := BeforeRule(rules, es, e, j, env, clock), OnEvents(Start(rules), es, env, clock, 0);
            && SeenOf(o.s, rules[j].name) == SeenOf(before.s, rules[j].name) && o.ticks >= before.ticks
            && Agrees(o.s, o.raised) && o.s.rules == rules
            && LastTime(o.raised, rules[j].name) == LastTime(before.raised, rules[j].name)
  {
    hide OnRules, OnEvents, Agrees, LastTime, SeenOf;
    var before := OnEvents(Start(rules), es, env, clock, 0);
    RunAgrees(rules, es, env, clock);
    OnRulesAgrees(before.s, before.raised, rules[..j], e, env, clock, before.ticks);
    OtherRules(before.s, rules[..j], rules[j].name, e, env, clock, before.ticks);
    OtherRulesSilent(before.s, rules[..j], rules[j].name, e, env, clock, before.ticks);
    LastTimeAppend(before.raised, OnRules(before.s, rules[..j], e, env, clock, before.ticks).raised, rules[j].name);
  }

  /** One more event: where the window and the clock are afterwards. */
  lemma AfterEvent(rules: seq<Rule>, front: seq<Event>, e: Event, j: nat, env: Env, clock: nat -> int)
    requires UniqueNames(rules) && j < |rules|
    ensures var before, o, after := OnEvents(Start(rules), front, env, clock, 0), BeforeRule(rules, front, e, j, env, clock),
                                    OnEvents(Start(rules), front + [e], env, clock, 0);
            && before.ticks <= o.ticks
            && after.ticks >= o.ticks
            && SeenOf(after.s, rules[j].name)
               == (if Applies(rules[j], e, env)
                   then Recent(SeenOf(before.s, rules[j].name) + [e.timestamp], clock(o.ticks) - rules[j].body.window)
                   else SeenOf(before.s, rules[j].name))
  {
    hide OnRules, OnRule, Recent, SeenOf, Agrees, Applies, LastTime, UniqueNames, OnEvents;
    OneMoreEvent(rules, front, e, env, clock);
    var before := OnEvents(Start(rules), front, env, clock, 0);
    RunAgrees(rules, front, env, clock);
    ReachRule(rules, front, e, j, env, clock);
    UpToRule(before.s, rules, j, e, env, clock, before.ticks);
    LaterRules(before.s, rules, j, e, env, clock, before.ticks);
    var o := BeforeRule(rules, front, e, j, env, clock);
    StoredAfter(o.s, rules[j], e, env, clock, o.ticks);
  }

  lemma OneMoreEvent(rules: seq<Rule>, front: seq<Event>, e: Event, env: Env, clock: nat -> int)
    ensures var before, after := OnEvents(Start(rules), front, env, clock, 0), OnEvents(Start(rules), front + [e], env, clock, 0);
            var o := OnRules(before.s, before.s.rules, e, env, clock, before.ticks);
            after == Outcome(o.s, o.ticks, before.raised + o.raised)
  {
    hide OnRules;
    assert (front + [e])[..|front|] == front;
  }

  ghost predicate WindowOf(rules: seq<Rule>, es: seq<Event>, j: nat, env: Env, clock: nat -> int)
    requires j < |rules|
  {
    var o := OnEvents(Start(rules), es, env, clock, 0);
    Windowed(SeenOf(o.s, rules[j].name), MatchedTimes(es, rules[j], env), rules[j], clock(o.ticks))
  }

  lemma WindowAppend(rules: seq<Rule>, front: seq<Event>, e: Event, j: nat, env: Env, clock: nat -> int)
    requires UniqueNames(rules) && j < |rules| && Monotone(clock) && WindowOf(rules, front, j, env, clock)
    ensures WindowOf(rules, front + [e], j, env, clock)
  {
    hide OnEvents, OnRules, Recent, SeenOf, BeforeRule, Windowed, Monotone, UniqueNames, Applies, MatchedTimes;
    var rule := rules[j];
    AfterEvent(rules, front, e, j, env, clock);
    MatchedAppend(front, e, rule, env);
    var before, o, after := OnEvents(Start(rules), front, env, clock, 0), BeforeRule(rules, front, e, j, env, clock),
                            OnEvents(Start(rules), front + [e], env, clock, 0);
    ClockLater(clock, before.ticks, o.ticks);
    ClockLater(clock, o.ticks, after.ticks);
    WindowNext(SeenOf(before.s, rule.name), SeenOf(after.s, rule.name), MatchedTimes(front, rule, env), rule, e.timestamp,
               Applies(rule, e, env), clock(before.ticks), clock(o.ticks), clock(after.ticks));
  }

  lemma MatchedAppend(es: seq<Event>, e: Event, rule: Rule, env: Env)
    ensures MatchedTimes(es + [e], rule, env) == MatchedTimes(es, rule, env) + (if Applies(rule, e, env) then [e.timestamp] else [])
  {
    assert (es + [e])[..|es|] == es;
  }

  lemma {:induction false} WindowCut(rules: seq<Rule>, es: seq<Event>, j: nat, env: Env, clock: nat -> int)
    requires UniqueNames(rules) && j < |rules| && Monotone(clock)
    ensures WindowOf(rules, es, j, env, clock)
  {
    if es != [] {
      hide WindowOf, Monotone, UniqueNames;
      assert es == es[..|es| - 1] + [es[|es| - 1]];
      WindowCut(rules, es[..|es| - 1], j, env, clock);
      WindowAppend(rules, es[..|es| - 1], es[|es| - 1], j, env, clock);
    }
  }

  /** Which events of a run the window of a rule from `low` on holds. */
  ghost function InWindow(es: seq<Event>, rule: Rule, env: Env, low: int): set<nat> {
    set i: nat | i < |es| && rule.enabled && env.matches(rule, es[i]) && es[i].timestamp >= low
  }

  /** The times of those events, in the order they came. */
  ghost predicate TimesAre(times: seq<int>, es: seq<Event>, keep: set<nat>) {
    exists idx :: Lists(idx, keep) && |times| == |idx| && forall k :: 0 <= k < |idx| ==> idx[k] < |es| && times[k] == es[idx[k]].timestamp
  }

  lemma {:induction false} WindowLists(es: seq<Event>, rule: Rule, env: Env, low: int) returns (idx: seq<nat>)
    ensures var times := Recent(MatchedTimes(es, rule, env), low);
            && Lists(idx, InWindow(es, rule, env, low)) && |times| == |idx|
            && forall k :: 0 <= k < |idx| ==> idx[k] < |es| && times[k] == es[idx[k]].timestamp
  {
    if es == [] {
      idx := [];
    } else {
      hide Recent, Lists;
      var n := |es| - 1;
      idx := WindowLists(es[..n], rule, env, low);
      var keep, front := InWindow(es[..n], rule, env, low), MatchedTimes(es[..n], rule, env);
      RecentAppend(front, es[n].timestamp, low);
      if Applies(rule, es[n], env) && es[n].timestamp >= low {
        ListsNext(idx, keep, n);
        assert InWindow(es, rule, env, low) == keep + {n};
        idx := idx + [n];
      } else {
        assert InWindow(es, rule, env, low) == keep;
        assert front + [] == front && Recent(front, low) + [] == Recent(front, low);
      }
    }
  }

  lemma RecentAppend(times: seq<int>, t: int, low: int)
    ensures Recent(times + [t], low) == Recent(times, low) + (if t >= low then [t] else [])
  {
    assert (times + [t])[..|times|] == times;
  }

  lemma WindowIs(es: seq<Event>, rule: Rule, env: Env, low: int)
    ensures var times := Recent(MatchedTimes(es, rule, env), low);
            TimesAre(times, es, InWindow(es, rule, env, low)) && |times| == |InWindow(es, rule, env, low)|
  {
    hide Lists, InWindow, Recent, MatchedTimes;
    var idx := WindowLists(es, rule, env, low);
    ListsSize(idx, InWindow(es, rule, env, low));
  }

  /** The stored list holds the times of exactly the events matched so far from some past time
      on, in the order they came. */
  lemma WindowRun(rules: seq<Rule>, es: seq<Event>, j: nat, env: Env, clock: nat -> int)
    requires UniqueNames(rules) && j < |rules| && Monotone(clock)
    ensures var o := OnEvents(Start(rules), es, env, clock, 0);
            exists low :: low + rules[j].body.window <= clock(o.ticks)
                          && TimesAre(SeenOf(o.s, rules[j].name), es, InWindow(es, rules[j], env, low))
  {
    hide OnEvents, SeenOf, MatchedTimes, InWindow, TimesAre, Recent, Monotone, UniqueNames;
    WindowCut(rules, es, j, env, clock);
    var o, rule := OnEvents(Start(rules), es, env, clock, 0), rules[j];
    var stored, history := SeenOf(o.s, rule.name), MatchedTimes(es, rule, env);
    var low := clock(o.ticks) - rule.body.window;
    if stored != [] || history != [] {
      low :| low + rule.body.window <= clock(o.ticks) && stored == Recent(history, low);
    } else {
      RecentNothing(low);
    }
    WindowIs(es, rule, env, low);
  }

  lemma RecentNothing(low: int)
    ensures Recent([], low) == []
  {
  }

  lemma ClockLater(clock: nat -> int, i: nat, j: nat)
    requires Monotone(clock) && i <= j
    ensures clock(i) <= clock(j)
  {
  }

  lemma WindowNext(stored: seq<int>, stored2: seq<int>, history: seq<int>, rule: Rule, t: int, applies: bool,
                   before: int, now: int, after: int)
    requires Windowed(stored, history, rule, before) && before <= now <= after
    requires stored2 == if applies then Recent(stored + [t], now - rule.body.window) else stored
    ensures Windowed(stored2, history + (if applies then [t] else []), rule, after)
  {
    hide Recent, Windowed;
    if applies {
      WindowStep(stored, history, rule, before, t, now);
      CutIsWindow(history + [t], rule, now, after);
    } else {
      assert history + [] == history;
      KeepsWindow(stored, history, rule, before, after);
    }
  }

  lemma CutIsWindow(history: seq<int>, rule: Rule, now: int, later: int)
    requires now <= later
    ensures Windowed(Recent(history, now - rule.body.window), history, rule, later)
  {
    var cutoff := now - rule.body.window;
    assert cutoff + rule.body.window <= later && Recent(history, cutoff) == Recent(history, cutoff);
  }

  lemma UpToRule(s: Shared, rules: seq<Rule>, j: nat, e: Event, env: Env, clock: nat -> int, r: nat)
    requires j < |rules|
    ensures var before := OnRules(s, rules[..j], e, env, clock, r);
            var o := OnRule(before.s, rules[j], e, env, clock, before.ticks);
            OnRules(s, rules[..j + 1], e, env, clock, r) == Outcome(o.s, o.ticks, before.raised + o.raised)
  {
    assert rules[..j + 1][..j] == rules[..j];
  }

  lemma KeepsWindow(stored: seq<int>, history: seq<int>, rule: Rule, now: int, later: int)
    requires Windowed(stored, history, rule, now) && now <= later
    ensures Windowed(stored, history, rule, later)
  {
  }

  lemma WindowStep(stored: seq<int>, history: seq<int>, rule: Rule, now: int, t: int, later: int)
    requires Windowed(stored, history, rule, now) && now <= later
    ensures Recent(stored + [t], later - rule.body.window) == Recent(history + [t], later - rule.body.window)
  {
    if stored != history {
      var cutoff :| cutoff + rule.body.window <= now && stored == Recent(history, cutoff);
      RecentTwice(history, cutoff, later - rule.body.window);
    }
  }

  lemma StoredAfter(s: Shared, rule: Rule, e: Event, env: Env, clock: nat -> int, r: nat)
    ensures var o := OnRule(s, rule, e, env, clock, r);
            && o.ticks >= r
            && SeenOf(o.s, rule.name)
               == (if Applies(rule, e, env) then Recent(SeenOf(s, rule.name) + [e.timestamp], clock(r) - rule.body.window)
                   else SeenOf(s, rule.name))
            && (Applies(rule, e, env) ==> o.ticks > r)
  {
    hide Recent, FindRule, Cooling, LooksAtClock, Reached, Last;
  }

  /** For each event of a run, with a clock that does not go back and rules that do not change. A
      rule that is switched off or does not match does nothing. Any other holds afterwards the
      times of exactly the events it matched from `now - window` on, and raises an alert exactly
      when there are as many as the threshold and the cooldown since its last alert is over. */
  lemma RuleDecision(rules: seq<Rule>, es: seq<Event>, e: Event, j: nat, env: Env, clock: nat -> int)
    requires UniqueNames(rules) && j < |rules| && Monotone(clock)
    ensures var rule, o := rules[j], BeforeRule(rules, es, e, j, env, clock);
            var keep := InWindow(es + [e], rule, env, clock(o.ticks) - rule.body.window);
            var last := LastTime(OnEvents(Start(rules), es, env, clock, 0).raised, rule.name);
            var after := OnRule(o.s, rule, e, env, clock, o.ticks);
            if !rule.enabled || !env.matches(rule, e) then after == Outcome(o.s, o.ticks, [])
            else
              && TimesAre(SeenOf(after.s, rule.name), es + [e], keep)
              && (after.raised != [] <==>
                    |keep| >= rule.body.threshold && (last.None? || clock(o.ticks + 1) - last.value >= rule.body.cooldown))
              && (after.raised != [] ==> AlertOf(after.raised, rule, e, env))
  {
    hide OnRules, OnEvents, Recent, MatchedTimes, LastTime, Monotone, InWindow, TimesAre;
    var rule, o := rules[j], BeforeRule(rules, es, e, j, env, clock);
    if rule.enabled && env.matches(rule, e) {
      var before := OnEvents(Start(rules), es, env, clock, 0);
      ReachRule(rules, es, e, j, env, clock);
      WindowCut(rules, es, j, env, clock);
      StoredAfter(o.s, rule, e, env, clock, o.ticks);
      ClockLater(clock, before.ticks, o.ticks);
      WindowStep(SeenOf(before.s, rule.name), MatchedTimes(es, rule, env), rule, clock(before.ticks), e.timestamp, clock(o.ticks));
      MatchedAppend(es, e, rule, env);
      WindowIs(es + [e], rule, env, clock(o.ticks) - rule.body.window);
      FindsUnique(rules, j);
      assert (if rule.name in o.s.last then Some(o.s.last[rule.name]) else None) == LastTime(o.raised, rule.name);
    }
  }

  /** One alert, of the rule and the event. */
  predicate AlertOf(raised: seq<Alert>, rule: Rule, e: Event, env: Env) {
    |raised| == 1 && raised[0].rule == rule.name && raised[0].event == e && raised[0].message == env.message(rule, e)
  }
}
