/** The event filter: an ordered chain of rules, each allowing, denying or changing the events
    it matches. Whether a rule matches an event is a parameter. */
module EventFilter {
  import opened Events
  import opened Rules

  datatype Action = Allow | Deny | Modify

  datatype Filtering = Filtering(priority: int, action: Action, attributes: map<string, string>, summary: string)

  type FilterRule = Named<Filtering>

  type Matcher = (FilterRule, Event) -> bool

  // ------------------------------------------------------------ the rule list

  predicate Sorted(rules: seq<FilterRule>) { forall i, j :: 0 <= i < j < |rules| ==> rules[i].body.priority >= rules[j].body.priority }

  // ------------------------------------------------------------ the chain

  predicate Hits(rule: FilterRule, e: Event, matches: Matcher) { rule.enabled && matches(rule, e) }

  function Modified(rule: FilterRule, e: Event): Event {
    e.(attributes := e.attributes + rule.body.attributes, summary := if rule.body.summary != "" then rule.body.summary else e.summary)
  }

  /** The verdict, the event as the rules left it, and how many changed it. */
  datatype Verdict = Verdict(allowed: bool, e: Event, changes: nat)

  function Decide(rules: seq<FilterRule>, e: Event, matches: Matcher): Verdict {
    if rules == [] then Verdict(true, e, 0)
    else if !Hits(rules[0], e, matches) then Decide(rules[1..], e, matches)
    else
      match rules[0].body.action
      case Allow => Verdict(true, e, 0)
      case Deny => Verdict(false, e, 0)
      case Modify =>
        var v := Decide(rules[1..], Modified(rules[0], e), matches);
        v.(changes := v.changes + 1)
  }

  predicate WouldAllow(rules: seq<FilterRule>, e: Event, matches: Matcher) {
    rules == [] || if Hits(rules[0], e, matches) then rules[0].body.action != Deny else WouldAllow(rules[1..], e, matches)
  }

  class Filter {
    const matches: Matcher
    var rules: seq<FilterRule>
    var processed: nat
    var allowed: nat
    var denied: nat
    var modified: nat

    constructor (matches: Matcher)
      ensures rules == [] && processed == allowed == denied == modified == 0 && this.matches == matches
    {
      this.matches := matches;
      rules, processed, allowed, denied, modified := [], 0, 0, 0, 0;
    }

    /** The library sort is not stable: any order by falling priority may come out. */
    method AddRule(rule: FilterRule)
      modifies this`rules
      ensures Sorted(rules) && multiset(rules) == multiset(Replaced(old(rules), rule))
    {
      ghost var was := rules;
      var i := 0;
      while i < |rules| && rules[i].name != rule.name
        invariant 0 <= i <= |rules| && rules == was
        invariant Replaced(was, rule) == was[..i] + Replaced(was[i..], rule)
      {
        ReplacedPast(was, rule, i);
        i := i + 1;
      }
      if i < |rules| {
        ReplacedAt(was, rule, i);
        rules := rules[i := rule];
      } else {
        assert was[i..] == [] && was[..i] == was;
        rules := rules + [rule];
      }
      rules := SortedByPriority(rules);
    }

    static method SortedByPriority(rules: seq<FilterRule>) returns (out: seq<FilterRule>)
      ensures Sorted(out) && multiset(out) == multiset(rules)
    {
      hide Sorted;
      out := [];
      NothingSorted();
      for i := 0 to |rules|
        invariant Sorted(out) && multiset(out) == multiset(rules[..i])
      {
        var at := PlaceFor(out, rules[i]);
        InsertKeeps(out, at, rules[i]);
        OneMoreRule(rules, i);
        out := out[..at] + [rules[i]] + out[at..];
      }
      assert rules[..|rules|] == rules;
    }

    /** Behind all rules of at least its priority that stand in front of lower ones only. */
    static method PlaceFor(out: seq<FilterRule>, rule: FilterRule) returns (at: nat)
      ensures at <= |out| && (at > 0 ==> out[at - 1].body.priority >= rule.body.priority)
      ensures forall k :: at <= k < |out| ==> out[k].body.priority < rule.body.priority
    {
      at := |out|;
      while at > 0 && out[at - 1].body.priority < rule.body.priority
        invariant 0 <= at <= |out|
        invariant forall k :: at <= k < |out| ==> out[k].body.priority < rule.body.priority
      {
        at := at - 1;
      }
    }

    method RemoveRule(name: string)
      modifies this`rules
      ensures rules == Removed(old(rules), name)
    {
      rules := Removed(rules, name);
    }

    method EnableRule(name: string, on: bool)
      modifies this`rules
      ensures rules == Enabling(old(rules), name, on)
    {
      ghost var was := rules;
      var i := 0;
      while i < |rules| && rules[i].name != name
        invariant 0 <= i <= |rules| && rules == was
        invariant Enabling(was, name, on) == was[..i] + Enabling(was[i..], name, on)
      {
        EnablingPast(was, name, on, i);
        i := i + 1;
      }
      if i < |rules| {
        EnablingAt(was, name, on, i);
        rules := rules[i := rules[i].(enabled := on)];
      } else {
        assert was[i..] == [] && was[..i] == was;
      }
    }

    method ClearRules()
      modifies this`rules
      ensures rules == []
    {
      rules := [];
    }

    method Process(event: Event) returns (ok: bool, e: Event)
      modifies this`processed, this`allowed, this`denied, this`modified
      ensures var v := Decide(rules, event, matches);
              && ok == v.allowed && e == v.e
              && processed == old(processed) + 1 && modified == old(modified) + v.changes
              && allowed == old(allowed) + (if ok then 1 else 0)
              && denied == old(denied) + (if ok then 0 else 1)
    {
      processed := processed + 1;
      var copy := rules;
      e := event;
      for i := 0 to |copy|
        invariant allowed == old(allowed) && denied == old(denied) && processed == old(processed) + 1
        invariant modified >= old(modified)
        invariant var v, all := Decide(copy[i..], e, matches), Decide(copy, event, matches);
                  all.allowed == v.allowed && all.e == v.e && old(modified) + all.changes == modified + v.changes
      {
        assert copy[i..][1..] == copy[i + 1..];
        if Hits(copy[i], e, matches) {
          match copy[i].body.action {
            case Allow =>
              allowed := allowed + 1;
              return true, e;
            case Deny =>
              denied := denied + 1;
              return false, e;
            case Modify =>
              e := ApplyModifications(copy[i], e);
              modified := modified + 1;
          }
        }
      }
      allowed := allowed + 1;
      return true, e;
    }

    static method ApplyModifications(rule: FilterRule, event: Event) returns (e: Event)
      ensures e == Modified(rule, event)
    {
      hide Overlaid;
      var more := rule.body.attributes;
      var attributes, todo: set<string> := event.attributes, more.Keys;
      OverlayStarts(event.attributes, more);
      while todo != {}
        invariant todo <= more.Keys && attributes == Overlaid(event.attributes, more, todo)
        decreases |todo|
      {
        var k :| k in todo;
        OverlayStep(event.attributes, more, todo, k);
        todo := todo - {k};
        attributes := attributes[k := more[k]];
      }
      OverlayEnds(event.attributes, more);
      e := event.(attributes := attributes);
      if rule.body.summary != "" { e := e.(summary := rule.body.summary); }
    }
  }

  /** The attributes once those of the rule outside `todo` are in. */
  ghost function Overlaid(base: map<string, string>, more: map<string, string>, todo: set<string>): map<string, string> {
    base + (map k | k in more && k !in todo :: more[k])
  }

  lemma OverlayStarts(base: map<string, string>, more: map<string, string>)
    ensures Overlaid(base, more, more.Keys) == base
  {
  }

  lemma OverlayStep(base: map<string, string>, more: map<string, string>, todo: set<string>, k: string)
    requires k in todo && todo <= more.Keys
    ensures Overlaid(base, more, todo - {k}) == Overlaid(base, more, todo)[k := more[k]]
  {
  }

  lemma OverlayEnds(base: map<string, string>, more: map<string, string>)
    ensures Overlaid(base, more, {}) == base + more
  {
    assert (map k | k in more && k !in {} :: more[k]) == more;
  }

  lemma OneMoreRule(rules: seq<FilterRule>, i: nat)
    requires i < |rules|
    ensures multiset(rules[..i + 1]) == multiset(rules[..i]) + multiset{rules[i]}
  {
    assert rules[..i + 1] == rules[..i] + [rules[i]];
  }

  lemma NothingSorted()
    ensures Sorted([])
  {
  }

  lemma InsertKeeps(out: seq<FilterRule>, at: nat, rule: FilterRule)
    requires Sorted(out) && at <= |out|
    requires at > 0 ==> out[at - 1].body.priority >= rule.body.priority
    requires forall k :: at <= k < |out| ==> out[k].body.priority < rule.body.priority
    ensures var next := out[..at] + [rule] + out[at..]; Sorted(next) && multiset(next) == multiset(out) + multiset{rule}
  {
    InsertSorted(out, at, rule);
    Together(out[..at], rule, out[at..]);
    assert out == out[..at] + out[at..];
  }

  lemma Together<T>(a: seq<T>, x: T, b: seq<T>)
    ensures multiset(a + [x] + b) == multiset(a + b) + multiset{x}
  {
  }

  lemma InsertSorted(out: seq<FilterRule>, at: nat, rule: FilterRule)
    requires Sorted(out) && at <= |out|
    requires at > 0 ==> out[at - 1].body.priority >= rule.body.priority
    requires forall k :: at <= k < |out| ==> out[k].body.priority < rule.body.priority
    ensures Sorted(out[..at] + [rule] + out[at..])
  {
    var next := out[..at] + [rule] + out[at..];
    forall k | 0 <= k < |next| ensures next[k] == if k < at then out[k] else if k == at then rule else out[k - 1] {
    }
  }
}
