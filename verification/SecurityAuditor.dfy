/** The security auditor. A report does all its work under one lock, but reads the clock once
    for the call, once for each cooldown check and once for each recorded event. */
module SecurityAuditor {
  import opened Collections
  import opened Rules
  import opened Strings

  datatype Incident = Incident(id: nat, time: int, kind: string, source: string, target: string, summary: string, severity: int)

  const MAX_INCIDENTS := 1000
  const DEFAULT_WINDOW := 60000

  datatype Books = Books(rules: seq<Rule>, events: seq<Incident>, times: map<string, seq<int>>, last: map<string, int>, nextId: nat)

  /** A matching event that the cooldown let through: the call's reading of the clock, the
      reading by the cooldown check (the call's own, if it did not look), the reading when it
      was recorded, and whether the rule fired. */
  datatype Entry = Entry(rule: Rule, stamp: int, checked: int, at: int, fired: bool)

  function TimesOf(s: Books, name: string): seq<int> { if name in s.times then s.times[name] else [] }

  /** The times at most `window` before `now`. */
  function Kept(times: seq<int>, now: int, window: int): seq<int> {
    if times == [] then []
    else
      var n := |times| - 1;
      Kept(times[..n], now, window) + (if now - times[n] > window then [] else [times[n]])
  }

  /** How many times are less than `window` before `now`. */
  function Count(times: seq<int>, now: int, window: int): nat {
    if times == [] then 0
    else
      var n := |times| - 1;
      Count(times[..n], now, window) + (if now - times[n] < window then 1 else 0)
  }

  predicate Looks(s: Books, name: string) { name in s.last && FindRule(s.rules, name).Some? }

  predicate Cooling(s: Books, name: string, now: int) {
    Looks(s, name) && now - s.last[name] < FindRule(s.rules, name).value.body.cooldown
  }

  function WindowOf(s: Books, name: string): int {
    if FindRule(s.rules, name).Some? then FindRule(s.rules, name).value.body.window else DEFAULT_WINDOW
  }

  function Recorded(s: Books, name: string, now: int): Books {
    s.(times := s.times[name := Kept(TimesOf(s, name) + [now], now, WindowOf(s, name))])
  }

  datatype Outcome = Outcome(s: Books, ticks: nat, log: seq<Entry>)

  /** `clock(0)` is the call's own reading, `r` the next one. */
  function OnRule(s: Books, rule: Rule, e: Incident, matches: (Rule, Incident) -> bool, clock: nat -> int, r: nat): Outcome {
    if !rule.enabled || !matches(rule, e) then Outcome(s, r, [])
    else
      var r1 := if Looks(s, rule.name) then r + 1 else r;
      if Cooling(s, rule.name, clock(r)) then Outcome(s, r1, [])
      else
        var s2 := Recorded(s, rule.name, clock(r1));
        var fired := Count(TimesOf(s2, rule.name), clock(0), rule.body.window) >= rule.body.threshold;
        var s3 := if fired then s2.(last := s2.last[rule.name := clock(0)]) else s2;
        Outcome(s3, r1 + 1, [Entry(rule, clock(0), if Looks(s, rule.name) then clock(r) else clock(0), clock(r1), fired)])
  }

  function OnRules(s: Books, rules: seq<Rule>, e: Incident, matches: (Rule, Incident) -> bool, clock: nat -> int): Outcome {
    if rules == [] then Outcome(s, 1, [])
    else
      var before := OnRules(s, rules[..|rules| - 1], e, matches, clock);
      var o := OnRule(before.s, rules[|rules| - 1], e, matches, clock, before.ticks);
      Outcome(o.s, o.ticks, before.log + o.log)
  }

  function Noted(s: Books, e: Incident): Books {
    s.(events := Last(s.events + [e.(id := s.nextId)], MAX_INCIDENTS), nextId := s.nextId + 1)
  }

  function OnReport(s: Books, e: Incident, matches: (Rule, Incident) -> bool, clock: nat -> int): Outcome {
    OnRules(Noted(s, e), s.rules, e.(id := s.nextId), matches, clock)
  }

  class Auditor {
    const matches: (Rule, Incident) -> bool
    var rules: seq<Rule>
    var events: seq<Incident>
    var ruleEvents: map<string, seq<int>>
    var lastTriggered: map<string, int>
    var nextEventId: nat

    ghost function State(): Books
      reads this
    {
      Books(rules, events, ruleEvents, lastTriggered, nextEventId)
    }

    constructor (matches: (Rule, Incident) -> bool)
      ensures State() == Books([], [], map[], map[], 1) && this.matches == matches
    {
      this.matches := matches;
      rules, events, ruleEvents, lastTriggered, nextEventId := [], [], map[], map[], 1;
    }

    method AddRule(rule: Rule)
      modifies this`rules
      ensures rules == Removed(old(rules), rule.name) + [rule]
    {
      rules := Removed(rules, rule.name) + [rule];
    }

    method EnableRule(name: string, on: bool)
      modifies this`rules
      ensures rules == Enabling(old(rules), name, on)
    {
      ghost var was := rules;
      var i := 0;
      while i < |rules| && rules[i].name != name
        invariant 0 <= i <= |rules| && rules == was
        invariant Enabling(was, name, on) == was[..i] + Enabling(was[i..], name, on)
      {
        EnablingPast(was, name, on, i);
        i := i + 1;
      }
      if i < |rules| {
        EnablingAt(was, name, on, i);
        rules := rules[i := rules[i].(enabled := on)];
      } else {
        assert was[i..] == [] && was[..i] == was;
      }
    }

    method IsInCooldown(name: string, clock: nat -> int, r: nat) returns (cooling: bool, r1: nat)
      ensures cooling == Cooling(State(), name, clock(r))
      ensures r1 == if Looks(State(), name) then r + 1 else r
    {
      if name !in lastTriggered { return false, r; }
      var rule := FindRule(rules, name);
      if rule.None? { return false, r; }
      return clock(r) - lastTriggered[name] < rule.value.body.cooldown, r + 1;
    }

    method RecordRuleEvent(name: string, now: int)
      modifies this`ruleEvents
      ensures State() == Recorded(old(State()), name, now) && name in ruleEvents
    {
      var times := (if name in ruleEvents then ruleEvents[name] else []) + [now];
      var window := DEFAULT_WINDOW;
      var rule := FindRule(rules, name);
      if rule.Some? { window := rule.value.body.window; }
      var kept := [];
      for i := 0 to |times|
        invariant kept == Kept(times[..i], now, window)
      {
        assert times[..i + 1][..i] == times[..i];
        if now - times[i] <= window { kept := kept + [times[i]]; }
      }
      assert times[..|times|] == times;
      ruleEvents := ruleEvents[name := kept];
    }

    method CheckRule(rule: Rule, e: Incident, clock: nat -> int, r: nat) returns (ticks: nat, ghost log: seq<Entry>)
      modifies this`ruleEvents, this`lastTriggered
      ensures Outcome(State(), ticks, log) == OnRule(old(State()), rule, e, matches, clock, r)
    {
      ticks, log := r, [];
      if !rule.enabled || !matches(rule, e) { return; }
      var cooling;
      ghost var looked := Looks(State(), rule.name);
      cooling, ticks := IsInCooldown(rule.name, clock, r);
      if cooling { return; }
      var at := clock(ticks);
      RecordRuleEvent(rule.name, at);
      ticks := ticks + 1;
      var times, count := ruleEvents[rule.name], 0;
      for i := 0 to |times|
        invariant count == Count(times[..i], clock(0), rule.body.window)
      {
        assert times[..i + 1][..i] == times[..i];
        if clock(0) - times[i] < rule.body.window { count := count + 1; }
      }
      assert times[..|times|] == times;
      log := [Entry(rule, clock(0), if looked then clock(r) else clock(0), at, count >= rule.body.threshold)];
      if count >= rule.body.threshold {
        lastTriggered := lastTriggered[rule.name := clock(0)];
      }
    }

    method ReportSecurityEvent(event: Incident, clock: nat -> int) returns (ghost log: seq<Entry>)
      modifies this
      ensures State() == OnReport(old(State()), event, matches, clock).s
      ensures log == OnReport(old(State()), event, matches, clock).log
    {
      var e := event.(id := nextEventId);
      nextEventId := nextEventId + 1;
      events := events + [e];
      if |events| > MAX_INCIDENTS { events := events[|events| - MAX_INCIDENTS..]; }
      ghost var noted := State();
      assert noted == Noted(old(State()), event);
      var ticks := 1;
      log := [];
      for i := 0 to |rules|
        invariant rules == old(rules)
        invariant Outcome(State(), ticks, log) == OnRules(noted, old(rules)[..i], e, matches, clock)
      {
        assert rules[..i + 1][..i] == rules[..i];
        ghost var more;
        ticks, more := CheckRule(rules[i], e, clock, ticks);
        log := log + more;
      }
      assert rules[..|rules|] == rules;
    }
  }
}
