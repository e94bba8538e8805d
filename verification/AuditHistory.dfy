/** The security auditor over whole runs of reports and rule edits in any order. Reports by
    several threads are such a run, since each holds the lock from start to end. */
module AuditHistory {
  import opened Collections
  import opened Rules
  import opened SecurityAuditor
  import opened Strings

  /** Each report comes with its readings of the clock. */
  datatype Op =
    | Report(e: Incident, clock: nat -> int)
    | Add(rule: Rule)
    | Remove(name: string)
    | Enable(name: string, on: bool)
    | Clear

  datatype Trail = Trail(s: Books, log: seq<Entry>)

  function Start(rules: seq<Rule>): Books { Books(rules, [], map[], map[], 1) }

  function Apply(s: Books, op: Op, matches: (Rule, Incident) -> bool): Trail {
    match op
    case Report(e, clock) => var o := OnReport(s, e, matches, clock); Trail(o.s, o.log)
    case Add(rule) => Trail(s.(rules := Removed(s.rules, rule.name) + [rule]), [])
    case Remove(name) => Trail(s.(rules := Removed(s.rules, name)), [])
    case Enable(name, on) => Trail(s.(rules := Enabling(s.rules, name, on)), [])
    case Clear => Trail(s.(rules := []), [])
  }

  function Run(rules: seq<Rule>, ops: seq<Op>, matches: (Rule, Incident) -> bool): Trail {
    if ops == [] then Trail(Start(rules), [])
    else
      var before := Run(rules, ops[..|ops| - 1], matches);
      var o := Apply(before.s, ops[|ops| - 1], matches);
      Trail(o.s, before.log + o.log)
  }

  // ------------------------------------------------------------ the incident history

  function Incidents(ops: seq<Op>): seq<Incident> {
    if ops == [] then []
    else
      var op, front := ops[|ops| - 1], Incidents(ops[..|ops| - 1]);
      if op.Report? then front + [op.e.(id := |front| + 1)] else front
  }

  lemma {:induction false} OnRulesKeeps(s: Books, rules: seq<Rule>, e: Incident, matches: (Rule, Incident) -> bool, clock: nat -> int)
    ensures var o := OnRules(s, rules, e, matches, clock);
            o.s.events == s.events && o.s.nextId == s.nextId && o.s.rules == s.rules && o.ticks >= 1
  {
    if rules != [] {
      OnRulesKeeps(s, rules[..|rules| - 1], e, matches, clock);
    }
  }

  lemma ApplyKeepsIncidents(s: Books, past: seq<Incident>, op: Op, matches: (Rule, Incident) -> bool)
    requires s.events == Last(past, 1000) && s.nextId == |past| + 1
    ensures var now, r := if op.Report? then past + [op.e.(id := |past| + 1)] else past, Apply(s, op, matches).s;
            r.events == Last(now, 1000) && r.nextId == |now| + 1
  {
    hide OnRules;
    if op.Report? {
      OnRulesKeeps(Noted(s, op.e), s.rules, op.e.(id := s.nextId), matches, op.clock);
    }
  }

  /** The history is always the last at most 1000 incidents reported, numbered from one on. */
  lemma {:induction false} KeepsIncidents(rules: seq<Rule>, ops: seq<Op>, matches: (Rule, Incident) -> bool)
    ensures var s := Run(rules, ops, matches).s;
            s.events == Last(Incidents(ops), 1000) && s.nextId == |Incidents(ops)| + 1
  {
    if ops != [] {
      hide Apply, Last;
      var front, op := ops[..|ops| - 1], ops[|ops| - 1];
      KeepsIncidents(rules, front, matches);
      ApplyKeepsIncidents(Run(rules, front, matches).s, Incidents(front), op, matches);
    }
  }

  lemma {:induction false} IncidentIds(ops: seq<Op>, k: nat)
    requires k < |Incidents(ops)|
    ensures Incidents(ops)[k].id == k + 1
  {
    if k < |Incidents(ops[..|ops| - 1])| {
      IncidentIds(ops[..|ops| - 1], k);
    }
  }

  // ------------------------------------------------------------ firings are a cooldown apart

  function LastStamp(log: seq<Entry>, name: string): Option<int> {
    if log == [] then None
    else if log[|log| - 1].fired && log[|log| - 1].rule.name == name then Some(log[|log| - 1].stamp)
    else LastStamp(log[..|log| - 1], name)
  }

  /** The call readings of the reports never go back. */
  ghost predicate StampsInOrder(ops: seq<Op>) {
    forall i, j :: 0 <= i < j < |ops| && ops[i].Report? && ops[j].Report? ==> ops[i].clock(0) <= ops[j].clock(0)
  }

  /** Entry `k` was let through a cooldown after each earlier firing of its rule. */
  ghost predicate RestedAt(log: seq<Entry>, k: nat)
    requires k < |log|
  {
    forall j :: 0 <= j < k && log[j].fired && log[j].rule.name == log[k].rule.name ==>
      log[k].checked - log[j].stamp >= log[k].rule.body.cooldown
  }

  ghost predicate Spaced(s: Books, log: seq<Entry>, upTo: int) {
    && UniqueNames(s.rules)
    && (forall name :: (if name in s.last then Some(s.last[name]) else None) == LastStamp(log, name))
    && (forall k :: 0 <= k < |log| ==> log[k].stamp <= upTo && RestedAt(log, k))
    && (forall j, k :: 0 <= j < k < |log| ==> log[j].stamp <= log[k].stamp)
  }

  lemma {:induction false} LastStampAtLeast(log: seq<Entry>, j: nat)
    requires j < |log| && log[j].fired && forall i, k :: 0 <= i < k < |log| ==> log[i].stamp <= log[k].stamp
    ensures LastStamp(log, log[j].rule.name).Some? && LastStamp(log, log[j].rule.name).value >= log[j].stamp
  {
    var n := |log| - 1;
    if !(log[n].fired && log[n].rule.name == log[j].rule.name) {
      LastStampAtLeast(log[..n], j);
    }
  }

  lemma OnRuleSpaced(s: Books, log: seq<Entry>, i: nat, e: Incident, matches: (Rule,
      Incident) -> bool, clock: nat -> int, r: nat)
    requires Spaced(s, log, clock(0)) && i < |s.rules|
    ensures var o := OnRule(s, s.rules[i], e, matches, clock, r); Spaced(o.s, log + o.log, clock(0)) && o.s.rules == s.rules
  {
    hide FindRule, Kept, Count;
    var rule := s.rules[i];
    var o := OnRule(s, rule, e, matches, clock, r);
    if o.log == [] {
      assert log + o.log == log;
    } else {
      FindsUnique(s.rules, i);
      var entry := o.log[0];
      var more := log + [entry];
      assert more[..|log|] == log;
      forall k | 0 <= k < |more| ensures RestedAt(more, k) {
        if k < |log| {
          assert RestedAt(log, k);
        } else {
          forall j | 0 <= j < k && more[j].fired && more[j].rule.name == rule.name
            ensures entry.checked - more[j].stamp >= rule.body.cooldown
          {
            LastStampAtLeast(log, j);
          }
        }
      }
    }
  }

  lemma {:induction false} OnRulesSpaced(s: Books, log: seq<Entry>, n: nat, e: Incident, matches: (Rule,
      Incident) -> bool, clock: nat -> int)
    requires Spaced(s, log, clock(0)) && n <= |s.rules|
    ensures var o := OnRules(s, s.rules[..n], e, matches, clock); Spaced(o.s, log + o.log, clock(0)) && o.s.rules == s.rules
  {
    hide Spaced, OnRule;
    if n == 0 {
      assert log + [] == log;
    } else {
      OnRulesSpaced(s, log, n - 1, e, matches, clock);
      assert s.rules[..n][..n - 1] == s.rules[..n - 1];
      var before := OnRules(s, s.rules[..n - 1], e, matches, clock);
      OnRuleSpaced(before.s, log + before.log, n - 1, e, matches, clock, before.ticks);
      var o := OnRule(before.s, s.rules[n - 1], e, matches, clock, before.ticks);
      assert log + (before.log + o.log) == (log + before.log) + o.log;
    }
  }

  /** Every rule edit keeps names unique. */
  lemma EditsKeepUnique(s: Books, op: Op, matches: (Rule, Incident) -> bool)
    requires UniqueNames(s.rules) && !op.Report?
    ensures var s2 := Apply(s, op, matches).s;
            UniqueNames(s2.rules) && s2.last == s.last && s2.times == s.times && s2.events == s.events
  {
    match op
    case Add(rule) =>
      RemovedKeeps(s.rules, rule.name);
      var kept := Removed(s.rules, rule.name);
      forall i | 0 <= i < |kept| ensures kept[i].name != rule.name {
        assert kept[i] in kept;
      }
    case Remove(name) => RemovedKeeps(s.rules, name);
    case Enable(name, on) => EnablingKeeps(s.rules, name, on);
    case Clear =>
  }

  /** The reading of the latest report so far, or any time before the first. */
  ghost predicate NotAfter(ops: seq<Op>, t: int) { forall i :: 0 <= i < |ops| && ops[i].Report? ==> ops[i].clock(0) <= t }

  lemma SameSpaced(s: Books, s2: Books, log: seq<Entry>, t: int)
    requires Spaced(s, log, t) && s2.last == s.last && UniqueNames(s2.rules)
    ensures Spaced(s2, log, t)
  {
  }

  lemma {:induction false} RunSpaced(rules: seq<Rule>, ops: seq<Op>, matches: (Rule, Incident) -> bool, upTo: int)
    requires UniqueNames(rules) && StampsInOrder(ops) && NotAfter(ops, upTo)
    ensures var t := Run(rules, ops, matches); Spaced(t.s, t.log, upTo)
    decreases |ops|
  {
    if ops != [] {
      hide Spaced, OnRules, Enabling, Removed, UniqueNames;
      var front, op := ops[..|ops| - 1], ops[|ops| - 1];
      assert op == ops[|ops| - 1];
      var before := Run(rules, front, matches);
      if op.Report? {
        RunSpaced(rules, front, matches, op.clock(0));
        SameSpaced(before.s, Noted(before.s, op.e), before.log, op.clock(0)) by { SpacedUnique(before.s, before.log, op.clock(0)); }
        OnRulesSpaced(Noted(before.s, op.e), before.log, |before.s.rules|, op.e.(id := before.s.nextId), matches, op.clock);
        assert before.s.rules[..|before.s.rules|] == before.s.rules;
        var t := Run(rules, ops, matches);
      } else {
        RunSpaced(rules, front, matches, upTo);
        SpacedUnique(before.s, before.log, upTo);
        EditsKeepUnique(before.s, op, matches);
        assert before.log + [] == before.log;
        SameSpaced(before.s, Apply(before.s, op, matches).s, before.log, upTo);
      }
    }
  }

  lemma SpacedUnique(s: Books, log: seq<Entry>, t: int)
    requires Spaced(s, log, t)
    ensures UniqueNames(s.rules)
  {
  }

  /** Whatever reports and rule edits come in whatever order: no matching event is recorded,
      let alone fires, before the cooldown check has seen the rule's whole cooldown go by
      since every earlier firing under that name. */
  lemma CheckedApart(rules: seq<Rule>, ops: seq<Op>, matches: (Rule, Incident) -> bool, j: nat, k: nat)
    requires UniqueNames(rules) && StampsInOrder(ops)
    requires j < k < |Run(rules, ops, matches).log|
    ensures var log := Run(rules, ops, matches).log;
            log[j].fired && log[j].rule.name == log[k].rule.name ==> log[k].checked - log[j].stamp >= log[k].rule.body.cooldown
  {
    hide Run, UniqueNames, StampsInOrder;
    var t := SomeBound(ops);
    RunSpaced(rules, ops, matches, t);
    assert RestedAt(Run(rules, ops, matches).log, k);
  }

  lemma {:induction false} SomeBound(ops: seq<Op>) returns (t: int)
    ensures NotAfter(ops, t)
  {
    if ops == [] {
      t := 0;
    } else {
      var op := ops[|ops| - 1];
      t := SomeBound(ops[..|ops| - 1]);
      if op.Report? && op.clock(0) > t { t := op.clock(0); }
    }
  }

  // ------------------------------------------------------------ one reading per call

  ghost predicate OneReading(ops: seq<Op>) {
    forall i, r: nat :: 0 <= i < |ops| && ops[i].Report? ==> ops[i].clock(r) == ops[i].clock(0)
  }

  ghost predicate SameReadings(log: seq<Entry>) {
    forall k :: 0 <= k < |log| ==> log[k].checked == log[k].stamp == log[k].at
  }

  lemma {:induction false} OnRulesSameReadings(s: Books, rules: seq<Rule>, e: Incident, matches: (Rule,
      Incident) -> bool, clock: nat -> int)
    requires forall r: nat :: clock(r) == clock(0)
    ensures SameReadings(OnRules(s, rules, e, matches, clock).log)
  {
    if rules != [] {
      OnRulesSameReadings(s, rules[..|rules| - 1], e, matches, clock);
    }
  }

  lemma {:induction false} RunSameReadings(rules: seq<Rule>, ops: seq<Op>, matches: (Rule, Incident) -> bool)
    requires OneReading(ops)
    ensures SameReadings(Run(rules, ops, matches).log)
  {
    if ops != [] {
      hide Apply, OnReport, SameReadings;
      var front, op := ops[..|ops| - 1], ops[|ops| - 1];
      RunSameReadings(rules, front, matches);
      assert op == ops[|ops| - 1];
      var before := Run(rules, front, matches);
      ApplySameReadings(before.s, op, matches);
      SameReadingsJoin(before.log, Apply(before.s, op, matches).log);
    } else {
      assert SameReadings([]);
    }
  }

  lemma ApplySameReadings(s: Books, op: Op, matches: (Rule, Incident) -> bool)
    requires op.Report? ==> forall r: nat :: op.clock(r) == op.clock(0)
    ensures SameReadings(Apply(s, op, matches).log)
  {
    hide OnRules;
    if op.Report? {
      OnRulesSameReadings(Noted(s, op.e), s.rules, op.e.(id := s.nextId), matches, op.clock);
    }
  }

  lemma SameReadingsJoin(a: seq<Entry>, b: seq<Entry>)
    requires SameReadings(a) && SameReadings(b)
    ensures SameReadings(a + b)
  {
  }

  /** With one reading of the clock per call, firings of a rule are at least its cooldown apart. */
  lemma FiringsApart(rules: seq<Rule>, ops: seq<Op>, matches: (Rule, Incident) -> bool, j: nat, k: nat)
    requires UniqueNames(rules) && StampsInOrder(ops) && OneReading(ops)
    requires j < k < |Run(rules, ops, matches).log|
    ensures var log := Run(rules, ops, matches).log;
            log[j].fired && log[j].rule.name == log[k].rule.name ==> log[k].stamp - log[j].stamp >= log[k].rule.body.cooldown
  {
    hide Run, UniqueNames, StampsInOrder, OneReading;
    CheckedApart(rules, ops, matches, j, k);
    RunSameReadings(rules, ops, matches);
  }

  /** The cooldown check reads the clock later than the stamp it lets a firing take, so two
      firings can come closer than the cooldown. */
  lemma LateCheckFiresEarly(e: Incident, matches: (Rule, Incident) -> bool, first: nat -> int, late: nat -> int)
    requires matches(Named("r", true, Limits(1, 60000, 10)), e.(id := 1)) && matches(Named("r", true, Limits(1, 60000, 10)), e.(id := 2))
    requires first(0) == first(1) == 100 && late(0) == 105 && late(1) == late(2) == 110
    ensures var rule := Named("r", true, Limits(1, 60000, 10));
            var log := Run([rule], [Report(e, first), Report(e, late)], matches).log;
            && |log| == 2 && log[0].fired && log[1].fired && log[0].rule == log[1].rule == rule
            && log[1].stamp - log[0].stamp == 5 && log[1].checked - log[0].stamp == rule.body.cooldown
  {
    hide Run, OnReport;
    var rule := Named("r", true, Limits(1, 60000, 10));
    OneRule(Start([rule]), rule, e, matches, first);
    var a := OnReport(Start([rule]), e, matches, first);
    OneRule(a.s, rule, e, matches, late);
    TwoReports(rule, e, matches, first, late);
  }

  lemma TwoReports(rule: Rule, e: Incident, matches: (Rule, Incident) -> bool, first: nat -> int, late: nat -> int)
    ensures var a := OnReport(Start([rule]), e, matches, first);
            Run([rule], [Report(e, first), Report(e, late)], matches).log == a.log + OnReport(a.s, e, matches, late).log
  {
    hide OnReport;
    var ops := [Report(e, first), Report(e, late)];
    var a := OnReport(Start([rule]), e, matches, first);
    assert ops[..1] == [Report(e, first)] && ops[..1][..0] == [];
    assert Run([rule], [], matches) == Trail(Start([rule]), []);
    assert Run([rule], ops[..1], matches) == Trail(a.s, [] + a.log);
    assert [] + a.log == a.log;
  }

  lemma OneRule(s: Books, rule: Rule, e: Incident, matches: (Rule, Incident) -> bool, clock: nat -> int)
    requires s.rules == [rule]
    ensures var o := OnRule(Noted(s, e), rule, e.(id := s.nextId), matches, clock, 1);
            OnReport(s, e, matches, clock) == o
  {
    hide OnRule;
    assert s.rules[..0] == [];
    assert OnRules(Noted(s, e), [], e.(id := s.nextId), matches, clock) == Outcome(Noted(s, e), 1, []);
  }
}
