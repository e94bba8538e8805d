/** The alert manager. Each critical section of process_event is a function on the shared
    state; class `Manager` runs them in the order of one caller, and module AlertThreads lets
    several callers interleave them. Times are milliseconds. */
module AlertManager {
  import opened Collections
  import opened Events
  import opened Rules
  import opened Strings

  datatype Alert = Alert(id: nat, time: int, rule: string, event: Event, message: string)

  /** What the alert manager does not decide itself: whether a rule's category, type, pattern and
      custom conditions hold of an event, and the message text. */
  datatype Env = Env(matches: (Rule, Event) -> bool, message: (Rule, Event) -> string)

  /** The fields behind the lock. */
  datatype Shared = Shared(
    rules: seq<Rule>, alerts: seq<Alert>, seen: map<string, seq<int>>, last: map<string, int>, nextId: nat)

  const MAX_ALERTS := 10000

  // ------------------------------------------------------------ critical sections

  function SeenOf(s: Shared, name: string): seq<int> { if name in s.seen then s.seen[name] else [] }

  function Tracked(s: Shared, name: string, time: int): Shared {
    s.(seen := s.seen[name := SeenOf(s, name) + [time]])
  }

  /** The times not before the cutoff. */
  function Recent(times: seq<int>, cutoff: int): seq<int> {
    if times == [] then []
    else
      var n := |times| - 1;
      Recent(times[..n], cutoff) + (if times[n] < cutoff then [] else [times[n]])
  }

  function Checked(s: Shared, rule: Rule, now: int): Shared {
    s.(seen := s.seen[rule.name := Recent(SeenOf(s, rule.name), now - rule.body.window)])
  }

  predicate Reached(s: Shared, rule: Rule) { |SeenOf(s, rule.name)| >= rule.body.threshold }

  /** is_in_cooldown looks at the clock only when the rule has fired before and still exists. */
  predicate LooksAtClock(s: Shared, name: string) { name in s.last && FindRule(s.rules, name).Some? }

  predicate Cooling(s: Shared, name: string, now: int) {
    LooksAtClock(s, name) && now - s.last[name] < FindRule(s.rules, name).value.body.cooldown
  }

  function NewAlert(s: Shared, rule: Rule, e: Event, now: int, env: Env): Alert {
    Alert(s.nextId, now, rule.name, e, env.message(rule, e))
  }

  function Fired(s: Shared, a: Alert): Shared {
    s.(alerts := Last(s.alerts + [a], MAX_ALERTS), last := s.last[a.rule := a.time], nextId := s.nextId + 1)
  }

  // ------------------------------------------------------------ one caller

  /** State, number of clock readings so far, alerts raised on the way. */
  datatype Outcome = Outcome(s: Shared, ticks: nat, raised: seq<Alert>)

  function OnRule(s: Shared, rule: Rule, e: Event, env: Env, clock: nat -> int, r: nat): Outcome {
    if !rule.enabled || !env.matches(rule, e) then Outcome(s, r, [])
    else
      var s2 := Checked(Tracked(s, rule.name, e.timestamp), rule, clock(r));
      if !Reached(s2, rule) then Outcome(s2, r + 1, [])
      else
        var r2 := if LooksAtClock(s2, rule.name) then r + 2 else r + 1;
        if Cooling(s2, rule.name, clock(r + 1)) then Outcome(s2, r2, [])
        else
          var a := NewAlert(s2, rule, e, clock(r2), env);
          Outcome(Fired(s2, a), r2 + 1, [a])
  }

  function OnRules(s: Shared, rules: seq<Rule>, e: Event, env: Env, clock: nat -> int, r: nat): Outcome {
    if rules == [] then Outcome(s, r, [])
    else
      var before := OnRules(s, rules[..|rules| - 1], e, env, clock, r);
      var o := OnRule(before.s, rules[|rules| - 1], e, env, clock, before.ticks);
      Outcome(o.s, o.ticks, before.raised + o.raised)
  }

  /** All events of a run, each against a copy of the rules. */
  function OnEvents(s: Shared, es: seq<Event>, env: Env, clock: nat -> int, r: nat): Outcome {
    if es == [] then Outcome(s, r, [])
    else
      var before := OnEvents(s, es[..|es| - 1], env, clock, r);
      var o := OnRules(before.s, before.s.rules, es[|es| - 1], env, clock, before.ticks);
      Outcome(o.s, o.ticks, before.raised + o.raised)
  }

  class Manager {
    const env: Env
    const clock: nat -> int
    var ticks: nat
    var rules: seq<Rule>
    var alerts: seq<Alert>
    var ruleEvents: map<string, seq<int>>
    var lastTriggered: map<string, int>
    var nextAlertId: nat

    ghost function State(): Shared
      reads this
    {
      Shared(rules, alerts, ruleEvents, lastTriggered, nextAlertId)
    }

    constructor (env: Env, clock: nat -> int)
      ensures State() == Shared([], [], map[], map[], 1) && ticks == 0 && this.env == env && this.clock == clock
    {
      this.env, this.clock, ticks := env, clock, 0;
      rules, alerts, ruleEvents, lastTriggered, nextAlertId := [], [], map[], map[], 1;
    }

    method AddRule(rule: Rule)
      modifies this`rules
      ensures State() == old(State()).(rules := Replaced(old(rules), rule))
    {
      ghost var was := rules;
      var i := 0;
      while i < |rules| && rules[i].name != rule.name
        invariant 0 <= i <= |rules| && rules == was
        invariant Replaced(was, rule) == was[..i] + Replaced(was[i..], rule)
      {
        ReplacedPast(was, rule, i);
        i := i + 1;
      }
      if i < |rules| {
        ReplacedAt(was, rule, i);
        rules := rules[i := rule];
      } else {
        assert was[i..] == [] && was[..i] == was;
        rules := rules + [rule];
      }
    }

    method RemoveRule(name: string)
      modifies this
      ensures State() == old(State()).(rules := Removed(old(rules), name), seen := old(ruleEvents) - {name},
          last := old(lastTriggered) - {name})
      ensures ticks == old(ticks)
    {
      rules := Removed(rules, name);
      ruleEvents := ruleEvents - {name};
      lastTriggered := lastTriggered - {name};
    }

    method Now() returns (t: int)
      modifies this`ticks
      ensures t == clock(old(ticks)) && ticks == old(ticks) + 1
    {
      t := clock(ticks);
      ticks := ticks + 1;
    }

    method IsInCooldown(name: string) returns (cooling: bool)
      modifies this`ticks
      ensures cooling == Cooling(State(), name, clock(old(ticks)))
      ensures ticks == if LooksAtClock(State(), name) then old(ticks) + 1 else old(ticks)
    {
      if name !in lastTriggered { return false; }
      var rule := FindRule(rules, name);
      if rule.None? { return false; }
      var now := Now();
      return now - lastTriggered[name] < rule.value.body.cooldown;
    }

    method PruneOld(name: string, cutoff: int)
      requires name in ruleEvents
      modifies this`ruleEvents
      ensures ruleEvents == old(ruleEvents)[name := Recent(old(ruleEvents)[name], cutoff)]
    {
      var times, kept := ruleEvents[name], [];
      for i := 0 to |times|
        invariant kept == Recent(times[..i], cutoff)
      {
        assert times[..i + 1][..i] == times[..i];
        if times[i] >= cutoff { kept := kept + [times[i]]; }
      }
      assert times[..|times|] == times;
      ruleEvents := ruleEvents[name := kept];
    }

    method TriggerAlert(rule: Rule, e: Event) returns (a: Alert)
      modifies this
      ensures a == NewAlert(old(State()), rule, e, clock(old(ticks)), env)
      ensures State() == Fired(old(State()), a) && ticks == old(ticks) + 1
    {
      hide FindRule, Recent, Last;
      var now := Now();
      a := Alert(nextAlertId, now, rule.name, e, env.message(rule, e));
      assert a == NewAlert(old(State()), rule, e, now, env);
      nextAlertId := nextAlertId + 1;
      alerts := alerts + [a];
      lastTriggered := lastTriggered[rule.name := now];
      if |alerts| > MAX_ALERTS { alerts := alerts[|alerts| - MAX_ALERTS..]; }
    }

    method ProcessRule(rule: Rule, e: Event) returns (ghost raised: seq<Alert>)
      modifies this
      ensures Outcome(State(), ticks, raised) == OnRule(old(State()), rule, e, env, clock, old(ticks))
    {
      hide Recent, FindRule, Cooling, LooksAtClock, Fired;
      raised := [];
      if !rule.enabled { return; }
      if env.matches(rule, e) {
        ruleEvents := ruleEvents[rule.name := (if rule.name in ruleEvents then ruleEvents[rule.name] else []) + [e.timestamp]];
        var now := Now();
        PruneOld(rule.name, now - rule.body.window);
        if |ruleEvents[rule.name]| >= rule.body.threshold {
          var cooling := IsInCooldown(rule.name);
          if !cooling {
            var a := TriggerAlert(rule, e);
            raised := [a];
          }
        }
      }
    }

    method ProcessEvent(e: Event) returns (ghost raised: seq<Alert>)
      modifies this
      ensures Outcome(State(), ticks, raised) == OnRules(old(State()), old(rules), e, env, clock, old(ticks))
    {
      var copy := rules;
      raised := [];
      for i := 0 to |copy|
        invariant Outcome(State(), ticks, raised) == OnRules(old(State()), copy[..i], e, env, clock, old(ticks))
      {
        assert copy[..i + 1][..i] == copy[..i];
        ghost var more := ProcessRule(copy[i], e);
        raised := raised + more;
      }
      assert copy[..|copy|] == copy;
    }
  }
}
