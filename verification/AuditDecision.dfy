/** When a rule of the security auditor fires, over whole runs of reports and rule edits. */
module AuditDecision {
  import opened AuditHistory
  import opened Collections
  import opened Rules
  import opened SecurityAuditor
  import opened Strings

  /** No record of the rule up to the end of the log was made more than the window it had then
      after entry `i`. */
  ghost predicate Survives(log: seq<Entry>, i: nat)
    requires i < |log|
  {
    forall m :: i <= m < |log| && log[m].rule.name == log[i].rule.name ==> log[m].at - log[i].at <= log[m].rule.body.window
  }

  /** When those of the first `n` entries that survive the log were recorded. */
  ghost function Surviving(log: seq<Entry>, n: nat, name: string): seq<int>
    requires n <= |log|
  {
    if n == 0 then []
    else Surviving(log, n - 1, name) + (if log[n - 1].rule.name == name && Survives(log, n - 1) then [log[n - 1].at] else [])
  }

  ghost function Remaining(log: seq<Entry>, name: string): seq<int> { Surviving(log, |log|, name) }

  /** The entries of its rule that count at entry `k`: those left and, at the call, younger than
      the window. */
  ghost function Counting(log: seq<Entry>, k: nat): set<nat>
    requires k < |log|
  {
    set i: nat | i <= k && log[i].rule.name == log[k].rule.name && Survives(log[..k + 1], i)
                 && log[k].stamp - log[i].at < log[k].rule.body.window
  }

  /** A rule fires at entry `k` exactly when as many count as its threshold. */
  ghost predicate Decided(log: seq<Entry>, k: nat)
    requires k < |log|
  {
    log[k].fired <==> |Counting(log, k)| >= log[k].rule.body.threshold
  }

  ghost function Young(log: seq<Entry>, n: nat, name: string, stamp: int, window: int): set<nat>
    requires n <= |log|
  {
    set i: nat | i < n && log[i].rule.name == name && Survives(log, i) && stamp - log[i].at < window
  }

  lemma {:induction false} CountSurviving(log: seq<Entry>, n: nat, name: string, stamp: int, window: int)
    requires n <= |log|
    ensures Count(Surviving(log, n, name), stamp, window) == |Young(log, n, name, stamp, window)|
  {
    hide Survives, Young;
    YoungStep(log, n, name, stamp, window);
    if n > 0 {
      var before := Surviving(log, n - 1, name);
      CountSurviving(log, n - 1, name, stamp, window);
      CountAppend(before, log[n - 1].at, stamp, window);
      assert before + [] == before;
    }
  }

  lemma YoungStep(log: seq<Entry>, n: nat, name: string, stamp: int, window: int)
    requires n <= |log|
    ensures |Young(log, n, name, stamp, window)|
         == if n == 0 then 0
            else |Young(log, n - 1, name, stamp, window)|
                 + (if log[n - 1].rule.name == name && Survives(log, n - 1) && stamp - log[n - 1].at < window then 1 else 0)
  {
    hide Survives;
    if n == 0 {
      assert Young(log, 0, name, stamp, window) == {};
    } else {
      var hit := log[n - 1].rule.name == name && Survives(log, n - 1) && stamp - log[n - 1].at < window;
      YoungHits(log, n, name, stamp, window);
      hide Young;
      OneMore(Young(log, n - 1, name, stamp, window), Young(log, n, name, stamp, window), n - 1, hit);
    }
  }

  lemma YoungHits(log: seq<Entry>, n: nat, name: string, stamp: int, window: int)
    requires 0 < n <= |log|
    ensures n - 1 !in Young(log, n - 1, name, stamp, window)
    ensures forall k: nat :: k in Young(log, n, name, stamp, window) <==>
              k in Young(log, n - 1, name, stamp, window)
              || (k == n - 1 && log[n - 1].rule.name == name && Survives(log, n - 1) && stamp - log[n - 1].at < window)
  {
    hide Survives;
  }

  lemma CountAppend(times: seq<int>, t: int, now: int, window: int)
    ensures Count(times + [t], now, window) == Count(times, now, window) + (if now - t < window then 1 else 0)
  {
    assert (times + [t])[..|times|] == times;
  }

  lemma LastCounting(log: seq<Entry>, e: Entry)
    ensures var more := log + [e];
            |Counting(more, |log|)| == Count(Remaining(more, e.rule.name), e.stamp, e.rule.body.window)
  {
    hide Survives, Count, Surviving;
    var more := log + [e];
    CountSurviving(more, |more|, e.rule.name, e.stamp, e.rule.body.window);
    assert more[..|more|] == more && more[|log|] == e;
    assert Counting(more, |log|) == Young(more, |more|, e.rule.name, e.stamp, e.rule.body.window);
  }

  // ------------------------------------------------------------ one more entry

  lemma SurvivesStep(log: seq<Entry>, e: Entry, i: nat)
    requires i < |log|
    ensures Survives(log + [e], i) <==>
              Survives(log, i) && (e.rule.name == log[i].rule.name ==> e.at - log[i].at <= e.rule.body.window)
  {
    var more := log + [e];
    assert more[|log|] == e && forall m :: 0 <= m < |log| ==> more[m] == log[m];
  }

  lemma {:induction false} SurvivingStep(log: seq<Entry>, e: Entry, n: nat)
    requires n <= |log|
    ensures Surviving(log + [e], n, e.rule.name) == Kept(Surviving(log, n, e.rule.name), e.at, e.rule.body.window)
  {
    hide Survives;
    if n > 0 {
      SurvivingStep(log, e, n - 1);
      SurvivesStep(log, e, n - 1);
      var before := Surviving(log, n - 1, e.rule.name);
      KeptAppend(before, log[n - 1].at, e.at, e.rule.body.window);
      assert before + [] == before && (log + [e])[n - 1] == log[n - 1];
      assert Kept(before, e.at, e.rule.body.window) + [] == Kept(before, e.at, e.rule.body.window);
    }
  }

  lemma KeptAppend(times: seq<int>, time: int, now: int, window: int)
    ensures Kept(times + [time], now, window) == Kept(times, now, window) + (if now - time > window then [] else [time])
  {
    assert (times + [time])[..|times|] == times;
  }

  lemma {:induction false} SurvivingOther(log: seq<Entry>, e: Entry, n: nat, name: string)
    requires n <= |log| && name != e.rule.name
    ensures Surviving(log + [e], n, name) == Surviving(log, n, name)
  {
    hide Survives;
    if n > 0 {
      SurvivingOther(log, e, n - 1, name);
      SurvivesStep(log, e, n - 1);
    }
  }

  /** A new entry prunes what is left of its rule and leaves the others alone. */
  lemma RemainingStep(log: seq<Entry>, e: Entry, name: string)
    ensures Remaining(log + [e], name) ==
              if name == e.rule.name then Kept(Remaining(log, name) + [e.at], e.at, e.rule.body.window) else Remaining(log, name)
  {
    hide Kept;
    var more := log + [e];
    assert more[|log|] == e;
    assert Survives(more, |log|) <==> 0 <= e.rule.body.window;
    if name == e.rule.name {
      SurvivingStep(log, e, |log|);
      KeptAppend(Remaining(log, name), e.at, e.at, e.rule.body.window);
    } else {
      SurvivingOther(log, e, |log|, name);
    }
  }

  // ------------------------------------------------------------ the run

  /** Every stored list is what is left of its rule's entries, and every entry was decided so. */
  ghost predicate Traced(s: Books, log: seq<Entry>) {
    && UniqueNames(s.rules)
    && (forall name :: TimesOf(s, name) == Remaining(log, name))
    && (forall k :: 0 <= k < |log| ==> Decided(log, k))
  }

  /** What one rule does to its own list, and that it leaves the others alone. */
  lemma OnRuleFacts(s: Books, i: nat, e: Incident, matches: (Rule, Incident) -> bool, clock: nat -> int, r: nat)
    requires UniqueNames(s.rules) && i < |s.rules|
    ensures var rule, o := s.rules[i], OnRule(s, s.rules[i], e, matches, clock, r);
            && o.s.rules == s.rules
            && (forall name :: name != rule.name ==> TimesOf(o.s, name) == TimesOf(s, name))
            && if o.log == [] then TimesOf(o.s, rule.name) == TimesOf(s, rule.name)
               else
                 && o.log == [o.log[0]] && o.log[0].rule == rule
                 && TimesOf(o.s, rule.name) == Kept(TimesOf(s, rule.name) + [o.log[0].at], o.log[0].at, rule.body.window)
                 && o.log[0].fired == (Count(TimesOf(o.s, rule.name), o.log[0].stamp, rule.body.window) >= rule.body.threshold)
  {
    hide FindRule, Kept, Count;
    FindsUnique(s.rules, i);
  }

  lemma EntryTraced(s: Books, log: seq<Entry>, s2: Books, e: Entry)
    requires Traced(s, log) && s2.rules == s.rules
    requires forall name :: name != e.rule.name ==> TimesOf(s2, name) == TimesOf(s, name)
    requires TimesOf(s2, e.rule.name) == Kept(TimesOf(s, e.rule.name) + [e.at], e.at, e.rule.body.window)
    requires e.fired == (Count(TimesOf(s2, e.rule.name), e.stamp, e.rule.body.window) >= e.rule.body.threshold)
    ensures Traced(s2, log + [e])
  {
    hide Kept, Count, TimesOf, Remaining, Survives;
    var more := log + [e];
    LastCounting(log, e);
    forall name ensures TimesOf(s2, name) == Remaining(more, name) {
      RemainingStep(log, e, name);
    }
    forall k | 0 <= k < |more| ensures Decided(more, k) {
      if k < |log| {
        assert Decided(log, k);
        assert more[..k + 1] == log[..k + 1];
        assert Counting(more, k) == Counting(log, k);
      }
    }
  }

  lemma OnRuleTraced(s: Books, log: seq<Entry>, i: nat, e: Incident, matches: (Rule, Incident) -> bool, clock: nat -> int, r: nat)
    requires Traced(s, log) && i < |s.rules|
    ensures var o := OnRule(s, s.rules[i], e, matches, clock, r); Traced(o.s, log + o.log) && o.s.rules == s.rules
  {
    hide OnRule, Kept, Count, TimesOf, Remaining, Decided;
    var o := OnRule(s, s.rules[i], e, matches, clock, r);
    OnRuleFacts(s, i, e, matches, clock, r);
    if o.log == [] {
      assert log + o.log == log;
      forall name ensures TimesOf(o.s, name) == Remaining(log, name) {
        assert TimesOf(o.s, name) == TimesOf(s, name);
      }
    } else {
      EntryTraced(s, log, o.s, o.log[0]);
    }
  }

  lemma {:induction false} OnRulesTraced(s: Books, log: seq<Entry>, n: nat, e: Incident, matches: (Rule, Incident) -> bool,
      clock: nat -> int)
    requires Traced(s, log) && n <= |s.rules|
    ensures var o := OnRules(s, s.rules[..n], e, matches, clock); Traced(o.s, log + o.log) && o.s.rules == s.rules
  {
    hide OnRule, Traced;
    if n == 0 {
      assert log + [] == log;
    } else {
      OnRulesTraced(s, log, n - 1, e, matches, clock);
      assert s.rules[..n][..n - 1] == s.rules[..n - 1];
      var before := OnRules(s, s.rules[..n - 1], e, matches, clock);
      OnRuleTraced(before.s, log + before.log, n - 1, e, matches, clock, before.ticks);
      var o := OnRule(before.s, s.rules[n - 1], e, matches, clock, before.ticks);
      assert log + (before.log + o.log) == (log + before.log) + o.log;
    }
  }

  /** Anything that leaves the stored lists alone and the names unique. */
  lemma SameTraced(s: Books, s2: Books, log: seq<Entry>)
    requires Traced(s, log) && UniqueNames(s2.rules) && s2.times == s.times
    ensures Traced(s2, log)
  {
    hide Remaining, Decided;
    assert forall name :: TimesOf(s2, name) == TimesOf(s, name);
  }

  lemma NotingKeeps(s: Books, e: Incident)
    ensures Noted(s, e).rules == s.rules && Noted(s, e).times == s.times
  {
  }

  lemma ApplyTraced(s: Books, log: seq<Entry>, op: Op, matches: (Rule, Incident) -> bool)
    requires Traced(s, log)
    ensures var o := Apply(s, op, matches); Traced(o.s, log + o.log)
  {
    hide Traced, OnRules, Noted, UniqueNames, Removed, Enabling;
    assert UniqueNames(s.rules) by { TracedUnique(s, log); }
    if op.Report? {
      NotingKeeps(s, op.e);
      SameTraced(s, Noted(s, op.e), log);
      OnRulesTraced(Noted(s, op.e), log, |s.rules|, op.e.(id := s.nextId), matches, op.clock);
      assert s.rules[..|s.rules|] == s.rules;
    } else {
      EditsKeepUnique(s, op, matches);
      SameTraced(s, Apply(s, op, matches).s, log);
      assert log + [] == log;
    }
  }

  lemma TracedUnique(s: Books, log: seq<Entry>)
    requires Traced(s, log)
    ensures UniqueNames(s.rules)
  {
  }

  lemma NothingTraced(rules: seq<Rule>)
    requires UniqueNames(rules)
    ensures Traced(Start(rules), [])
  {
  }

  lemma {:induction false} RunTraced(rules: seq<Rule>, ops: seq<Op>, matches: (Rule, Incident) -> bool)
    requires UniqueNames(rules)
    ensures var t := Run(rules, ops, matches); Traced(t.s, t.log)
  {
    hide Traced, Apply, UniqueNames;
    if ops == [] {
      NothingTraced(rules);
    } else {
      RunTraced(rules, ops[..|ops| - 1], matches);
      var before := Run(rules, ops[..|ops| - 1], matches);
      ApplyTraced(before.s, before.log, ops[|ops| - 1], matches);
    }
  }

  /** Over every run of reports and rule edits, whatever the readings: a rule fires at an event
      the cooldown let through exactly when enough of its entries are left and in the window.
      What is left is what no record since, with the window the rule had then, has pruned; the
      stored list holds their times. */
  lemma EveryDecision(rules: seq<Rule>, ops: seq<Op>, matches: (Rule, Incident) -> bool, k: nat)
    requires UniqueNames(rules) && k < |Run(rules, ops, matches).log|
    ensures Decided(Run(rules, ops, matches).log, k)
    ensures forall name :: TimesOf(Run(rules, ops, matches).s, name) == Remaining(Run(rules, ops, matches).log, name)
  {
    hide Decided, UniqueNames, Run, TimesOf, Remaining;
    RunTraced(rules, ops, matches);
  }

  // ------------------------------------------------------------ readings in order

  ghost predicate Rising(clock: nat -> int) { forall a: nat, b: nat :: a <= b ==> clock(a) <= clock(b) }

  ghost predicate Bounded(ops: seq<Op>, t: int) {
    forall i, a: nat :: 0 <= i < |ops| && ops[i].Report? ==> ops[i].clock(a) <= t
  }

  /** Every reading of the run, in the order it was taken, never goes back. */
  ghost predicate ReadingsInOrder(ops: seq<Op>) {
    forall i :: 0 <= i < |ops| && ops[i].Report? ==> Rising(ops[i].clock) && Bounded(ops[..i], ops[i].clock(0))
  }

  ghost predicate AtsInOrder(log: seq<Entry>) { forall j, k :: 0 <= j <= k < |log| ==> log[j].at <= log[k].at }

  lemma {:induction false} OnRulesTimes(s: Books, rules: seq<Rule>, e: Incident, matches: (Rule, Incident) -> bool, clock: nat -> int)
    requires Rising(clock)
    ensures var o := OnRules(s, rules, e, matches, clock);
            o.ticks >= 1 && AtsInOrder(o.log) && forall k :: 0 <= k < |o.log| ==> clock(1) <= o.log[k].at <= clock(o.ticks)
  {
    if rules != [] {
      hide OnRule, Rising, AtsInOrder;
      var n := |rules| - 1;
      OnRulesTimes(s, rules[..n], e, matches, clock);
      var before := OnRules(s, rules[..n], e, matches, clock);
      var o := OnRule(before.s, rules[n], e, matches, clock, before.ticks);
      OnRuleTime(before.s, rules[n], e, matches, clock, before.ticks);
      RisesTo(clock, 1, before.ticks);
      RisesTo(clock, before.ticks, o.ticks);
      TimesJoin(before.log, o.log, clock(1), clock(before.ticks), clock(o.ticks));
    } else {
      assert AtsInOrder([]);
    }
  }

  lemma RisesTo(clock: nat -> int, i: nat, j: nat)
    requires Rising(clock) && i <= j
    ensures clock(i) <= clock(j)
  {
  }

  lemma TimesJoin(a: seq<Entry>, b: seq<Entry>, lo: int, mid: int, hi: int)
    requires AtsInOrder(a) && |b| <= 1 && lo <= mid <= hi
    requires (forall k :: 0 <= k < |a| ==> lo <= a[k].at <= mid) && forall k :: 0 <= k < |b| ==> mid <= b[k].at <= hi
    ensures AtsInOrder(a + b) && forall k :: 0 <= k < |a + b| ==> lo <= (a + b)[k].at <= hi
  {
  }

  lemma OnRuleTime(s: Books, rule: Rule, e: Incident, matches: (Rule, Incident) -> bool, clock: nat -> int, r: nat)
    requires Rising(clock)
    ensures var o := OnRule(s, rule, e, matches, clock, r);
            o.ticks >= r && |o.log| <= 1 && forall k :: 0 <= k < |o.log| ==> clock(r) <= o.log[k].at <= clock(o.ticks)
  {
    hide Cooling, Looks, Count;
  }

  lemma {:induction false} RunTimes(rules: seq<Rule>, ops: seq<Op>, matches: (Rule, Incident) -> bool)
    requires ReadingsInOrder(ops)
    ensures AtsInOrder(Run(rules, ops, matches).log)
    ensures forall t, k :: Bounded(ops, t) && 0 <= k < |Run(rules, ops, matches).log| ==> Run(rules, ops, matches).log[k].at <= t
  {
    if ops != [] {
      hide OnRules, Noted, Bounded, Rising;
      var n := |ops| - 1;
      var front, op := ops[..n], ops[n];
      InOrderFront(ops);
      RunTimes(rules, front, matches);
      if op.Report? {
        var s := Run(rules, front, matches).s;
        OnRulesTimes(Noted(s, op.e), s.rules, op.e.(id := s.nextId), matches, op.clock);
        RisingFrom(op.clock);
      }
      forall t | Bounded(ops, t) ensures Bounded(front, t) && (op.Report? ==> forall a: nat :: op.clock(a) <= t) {
        BoundedFront(ops, t);
      }
    }
  }

  lemma RisingFrom(clock: nat -> int)
    requires Rising(clock)
    ensures clock(0) <= clock(1)
  {
  }

  lemma InOrderFront(ops: seq<Op>)
    requires ops != [] && ReadingsInOrder(ops)
    ensures var n := |ops| - 1;
            ReadingsInOrder(ops[..n]) && (ops[n].Report? ==> Rising(ops[n].clock) && Bounded(ops[..n], ops[n].clock(0)))
  {
    hide Rising, Bounded;
    var n := |ops| - 1;
    assert forall i :: 0 <= i < n ==> ops[..n][i] == ops[i] && ops[..n][..i] == ops[..i];
  }

  lemma BoundedFront(ops: seq<Op>, t: int)
    requires ops != [] && Bounded(ops, t)
    ensures var n := |ops| - 1; Bounded(ops[..n], t) && (ops[n].Report? ==> forall a: nat :: ops[n].clock(a) <= t)
  {
    assert forall i :: 0 <= i < |ops| - 1 ==> ops[..|ops| - 1][i] == ops[i];
  }

  /** The window of entry `k`'s rule was never shorter before. */
  ghost predicate NoShorterBefore(log: seq<Entry>, k: nat)
    requires k < |log|
  {
    forall m :: 0 <= m < k && log[m].rule.name == log[k].rule.name ==> log[m].rule.body.window >= log[k].rule.body.window
  }

  lemma SurvivesInOrder(log: seq<Entry>, i: nat)
    requires i < |log| && AtsInOrder(log) && NoShorterBefore(log, |log| - 1)
    requires log[i].rule.name == log[|log| - 1].rule.name
    ensures Survives(log, i) <==> log[|log| - 1].at - log[i].at <= log[|log| - 1].rule.body.window
  {
  }

  /** When readings never go back and the rule's window was not shorter before, as without edits:
      the entries of the rule count that were recorded within the window, both of this record
      and, short of it, of the call. */
  lemma EveryDecisionInOrder(rules: seq<Rule>, ops: seq<Op>, matches: (Rule, Incident) -> bool, k: nat)
    requires UniqueNames(rules) && ReadingsInOrder(ops)
    requires k < |Run(rules, ops, matches).log| && NoShorterBefore(Run(rules, ops, matches).log, k)
    ensures var log := Run(rules, ops, matches).log;
            var e, window := log[k], log[k].rule.body.window;
            var recent := set i: nat | i <= k && log[i].rule.name == e.rule.name
                                       && e.at - log[i].at <= window && e.stamp - log[i].at < window;
            e.fired <==> |recent| >= e.rule.body.threshold
  {
    hide Run, ReadingsInOrder, UniqueNames, Survives, AtsInOrder, NoShorterBefore;
    EveryDecision(rules, ops, matches, k);
    RunTimes(rules, ops, matches);
    var log := Run(rules, ops, matches).log;
    var e, window := log[k], log[k].rule.body.window;
    var recent := set i: nat | i <= k && log[i].rule.name == e.rule.name
                               && e.at - log[i].at <= window && e.stamp - log[i].at < window;
    forall i: nat | i <= k && log[i].rule.name == e.rule.name ensures Survives(log[..k + 1], i) <==> e.at - log[i].at <= window {
      FrontInOrder(log, k);
      SurvivesInOrder(log[..k + 1], i);
    }
    assert Counting(log, k) == recent;
  }

  lemma FrontInOrder(log: seq<Entry>, k: nat)
    requires k < |log| && AtsInOrder(log) && NoShorterBefore(log, k)
    ensures AtsInOrder(log[..k + 1]) && NoShorterBefore(log[..k + 1], k)
  {
  }

  /** With one reading per call that is a plain sliding window over everything recorded. */
  lemma EveryDecisionOneReading(rules: seq<Rule>, ops: seq<Op>, matches: (Rule, Incident) -> bool, k: nat)
    requires UniqueNames(rules) && ReadingsInOrder(ops) && OneReading(ops)
    requires k < |Run(rules, ops, matches).log| && NoShorterBefore(Run(rules, ops, matches).log, k)
    ensures var log := Run(rules, ops, matches).log;
            var e := log[k];
            var recent := set i: nat | i <= k && log[i].rule.name == e.rule.name && e.stamp - log[i].at < e.rule.body.window;
            e.fired <==> |recent| >= e.rule.body.threshold
  {
    hide Run, ReadingsInOrder, UniqueNames, OneReading, NoShorterBefore;
    EveryDecisionInOrder(rules, ops, matches, k);
    RunSameReadings(rules, ops, matches);
    var log := Run(rules, ops, matches).log;
    var e, window := log[k], log[k].rule.body.window;
    assert (set i: nat | i <= k && log[i].rule.name == e.rule.name && e.stamp - log[i].at < window)
        == set i: nat | i <= k && log[i].rule.name == e.rule.name && e.at - log[i].at <= window && e.stamp - log[i].at < window;
  }

  // ------------------------------------------------------------ which events are recorded

  /** State and readings just before rule `j` of the list sees a further report. */
  function BeforeRule(s: Books, log: seq<Entry>, e: Incident, j: nat, matches: (Rule, Incident) -> bool, clock: nat -> int): Outcome
    requires j <= |s.rules|
  {
    var o := OnRules(Noted(s, e), s.rules[..j], e.(id := s.nextId), matches, clock);
    Outcome(o.s, o.ticks, log + o.log)
  }

  /** After any run, a report is recorded by a rule exactly when the rule is on, matches, and
      its last firing is at least the cooldown before the check's reading. */
  lemma RecordedExactly(rules: seq<Rule>, ops: seq<Op>, e: Incident, j: nat, matches: (Rule,
      Incident) -> bool, clock: nat -> int)
    requires UniqueNames(rules) && StampsInOrder(ops + [Report(e, clock)]) && j < |Run(rules, ops, matches).s.rules|
    ensures var t := Run(rules, ops, matches);
            var rule, o, id := t.s.rules[j], BeforeRule(t.s, t.log, e, j, matches, clock), t.s.nextId;
            var last := LastStamp(o.log, rule.name);
            OnRule(o.s, rule, e.(id := id), matches, clock, o.ticks).log != [] <==>
              rule.enabled && matches(rule, e.(id := id)) && (last.None? || clock(o.ticks) - last.value >= rule.body.cooldown)
  {
    hide Run, OnRules, LastStamp, Kept, Count, FindRule, Noted, StampsInOrder, NotAfter;
    StampsOfPrefix(ops, Report(e, clock));
    RunSpaced(rules, ops, matches, clock(0));
    var t := Run(rules, ops, matches);
    NotingKeeps(t.s, e);
    NotingLast(t.s, e);
    SameSpaced(t.s, Noted(t.s, e), t.log, clock(0));
    OnRulesSpaced(Noted(t.s, e), t.log, j, e.(id := t.s.nextId), matches, clock);
    FindsUnique(t.s.rules, j);
    var o, name := BeforeRule(t.s, t.log, e, j, matches, clock), t.s.rules[j].name;
    assert (if name in o.s.last then Some(o.s.last[name]) else None) == LastStamp(o.log, name);
  }

  lemma NotingLast(s: Books, e: Incident)
    ensures Noted(s, e).last == s.last
  {
  }

  lemma StampsOfPrefix(ops: seq<Op>, op: Op)
    requires op.Report? && StampsInOrder(ops + [op])
    ensures StampsInOrder(ops) && NotAfter(ops, op.clock(0))
  {
    var all := ops + [op];
    assert all[|ops|] == op;
    forall i | 0 <= i < |ops| && ops[i].Report? ensures ops[i].clock(0) <= op.clock(0) {
      assert all[i] == ops[i];
    }
    forall i, j | 0 <= i < j < |ops| && ops[i].Report? && ops[j].Report? ensures ops[i].clock(0) <= ops[j].clock(0) {
      assert all[i] == ops[i] && all[j] == ops[j];
    }
  }
}
