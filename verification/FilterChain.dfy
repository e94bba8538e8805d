/** What the event filter's rule edits keep, and what its verdict depends on. */
module FilterChain {
  import opened EventFilter
  import opened Events
  import opened Rules

  // ------------------------------------------------------------ rule edits

  datatype Edit = Add(rule: FilterRule) | Remove(name: string) | Enable(name: string, on: bool) | Clear

  /** What an edit may turn a rule list into: adding sorts, and the sort may order rules of
      equal priority as it likes. */
  ghost predicate May(before: seq<FilterRule>, op: Edit, after: seq<FilterRule>) {
    match op
    case Add(rule) => Sorted(after) && multiset(after) == multiset(Replaced(before, rule))
    case Remove(name) => after == Removed(before, name)
    case Enable(name, on) => after == Enabling(before, name, on)
    case Clear => after == []
  }

  /** The lists a filter goes through, one before and one after each edit. */
  ghost predicate Edited(lists: seq<seq<FilterRule>>, ops: seq<Edit>) {
    && |lists| == |ops| + 1 && lists[0] == []
    && forall i :: 0 <= i < |ops| ==> May(lists[i], ops[i], lists[i + 1])
  }

  /** Names are unique when no two occurrences share one, which does not depend on the order. */
  lemma UniqueByCount(a: seq<FilterRule>, b: seq<FilterRule>)
    requires UniqueNames(a) && multiset(a) == multiset(b)
    ensures UniqueNames(b)
  {
    forall i, j | 0 <= i < j < |b| ensures b[i].name != b[j].name {
      assert b[i] in multiset(b) && b[j] in multiset(b);
      var k, m :| 0 <= k < |a| && 0 <= m < |a| && a[k] == b[i] && a[m] == b[j];
      if b[i].name == b[j].name {
        assert k == m;
        Twice(b, i, j);
        Once(a, k);
        assert false;
      }
    }
  }

  lemma Twice(b: seq<FilterRule>, i: nat, j: nat)
    requires i < j < |b| && b[i] == b[j]
    ensures multiset(b)[b[i]] >= 2
  {
    assert b == b[..i] + [b[i]] + b[i + 1..j] + [b[j]] + b[j + 1..];
  }

  lemma Once(a: seq<FilterRule>, k: nat)
    requires UniqueNames(a) && k < |a|
    ensures multiset(a)[a[k]] == 1
  {
    assert a == a[..k] + [a[k]] + a[k + 1..];
    assert a[k] !in a[..k] && a[k] !in a[k + 1..];
  }

  lemma {:induction false} RemovedSorted(rules: seq<FilterRule>, name: string)
    ensures Sorted(rules) ==> Sorted(Removed(rules, name))
  {
    if rules != [] {
      RemovedSorted(rules[1..], name);
      RemovedKeeps(rules[1..], name);
      var out, rest := Removed(rules, name), Removed(rules[1..], name);
      if rules[0].name != name {
        forall j | 0 < j < |out| ensures out[j] in rules[1..] {
          assert out[j] == rest[j - 1] && rest[j - 1] in rest;
        }
      }
    }
  }

  /** After any edits in any order the rules are uniquely named and fall in priority, however
      the sort broke its ties. */
  lemma {:induction false} EditsKeepOrder(lists: seq<seq<FilterRule>>, ops: seq<Edit>)
    requires Edited(lists, ops)
    ensures UniqueNames(lists[|ops|]) && Sorted(lists[|ops|])
    decreases |ops|
  {
    hide UniqueNames, Sorted;
    if ops == [] {
      NoRules(lists[0]);
    } else {
      var n := |ops| - 1;
      EditsKeepOrder(lists[..n + 1], ops[..n]);
      assert May(lists[n], ops[n], lists[n + 1]);
      StepKeepsOrder(lists[n], ops[n], lists[n + 1]);
    }
  }

  lemma NoRules(rules: seq<FilterRule>)
    requires rules == []
    ensures UniqueNames(rules) && Sorted(rules)
  {
  }

  lemma StepKeepsOrder(before: seq<FilterRule>, op: Edit, after: seq<FilterRule>)
    requires UniqueNames(before) && Sorted(before) && May(before, op, after)
    ensures UniqueNames(after) && Sorted(after)
  {
    match op
    case Add(rule) =>
      ReplacedKeeps(before, rule);
      UniqueByCount(Replaced(before, rule), after);
    case Remove(name) =>
      RemovedKeeps(before, name);
      RemovedSorted(before, name);
    case Enable(name, on) => EnablingKeeps(before, name, on);
    case Clear =>
  }

  // ------------------------------------------------------------ who decides

  /** The event as the Modify rules among `rules` leave it, when no other rule stops it. */
  function Progress(rules: seq<FilterRule>, e: Event, matches: Matcher): Event {
    if rules == [] then e
    else
      var n := |rules| - 1;
      var before := Progress(rules[..n], e, matches);
      if rules[n].enabled && matches(rules[n], before) && rules[n].body.action.Modify? then Modified(rules[n], before) else before
  }

  /** How many Modify rules act on the way. */
  function Changes(rules: seq<FilterRule>, e: Event, matches: Matcher): nat {
    if rules == [] then 0
    else
      var n := |rules| - 1;
      var before := Progress(rules[..n], e, matches);
      Changes(rules[..n], e, matches)
      + (if rules[n].enabled && matches(rules[n], before) && rules[n].body.action.Modify? then 1 else 0)
  }

  predicate Decides(rules: seq<FilterRule>, e: Event, matches: Matcher, i: nat)
    requires i < |rules|
  {
    rules[i].enabled && matches(rules[i], Progress(rules[..i], e, matches)) && !rules[i].body.action.Modify?
  }

  ghost predicate NoneBefore(rules: seq<FilterRule>, e: Event, matches: Matcher, n: nat)
    requires n <= |rules|
  {
    forall j :: 0 <= j < n ==> !Decides(rules, e, matches, j)
  }

  /** Rules that stop nothing leave the rest of the chain to judge the progressed event. */
  lemma {:induction false} PassAlong(rules: seq<FilterRule>, e: Event, matches: Matcher, n: nat)
    requires n <= |rules| && NoneBefore(rules, e, matches, n)
    ensures var v, rest := Decide(rules, e, matches), Decide(rules[n..], Progress(rules[..n], e, matches), matches);
            v.allowed == rest.allowed && v.e == rest.e && v.changes == Changes(rules[..n], e, matches) + rest.changes
  {
    if n == 0 {
      assert rules[0..] == rules;
    } else {
      PassAlong(rules, e, matches, n - 1);
      assert !Decides(rules, e, matches, n - 1);
      assert rules[..n][..n - 1] == rules[..n - 1];
      assert rules[n - 1..][1..] == rules[n..];
    }
  }

  /** Rule `i` is the first to stop the event; with `i` the number of rules, none does. */
  ghost predicate FirstStop(rules: seq<FilterRule>, e: Event, matches: Matcher, i: nat) {
    i <= |rules| && NoneBefore(rules, e, matches, i) && (i < |rules| ==> Decides(rules, e, matches, i))
  }

  lemma {:induction false} FindFirstStop(rules: seq<FilterRule>, e: Event, matches: Matcher, n: nat) returns (i: nat)
    requires n <= |rules| && NoneBefore(rules, e, matches, n)
    ensures FirstStop(rules, e, matches, i)
    decreases |rules| - n
  {
    if n == |rules| || Decides(rules, e, matches, n) {
      i := n;
    } else {
      i := FindFirstStop(rules, e, matches, n + 1);
    }
  }

  /** There is a first stop, and the event is denied exactly when it is a Deny rule, each rule
      judging the event as changed by the Modify rules before it; the event handed on is that
      changed event. */
  lemma FirstStopDecides(rules: seq<FilterRule>, e: Event, matches: Matcher)
    ensures exists i: nat :: FirstStop(rules, e, matches, i)
    ensures forall i: nat :: FirstStop(rules, e, matches, i) ==>
              var v := Decide(rules, e, matches);
              && v.e == Progress(rules[..i], e, matches) && v.changes == Changes(rules[..i], e, matches)
              && (v.allowed <==> i == |rules| || rules[i].body.action.Allow?)
  {
    var i := FindFirstStop(rules, e, matches, 0);
    forall i: nat | FirstStop(rules, e, matches, i)
      ensures var v := Decide(rules, e, matches);
              && v.e == Progress(rules[..i], e, matches) && v.changes == Changes(rules[..i], e, matches)
              && (v.allowed <==> i == |rules| || rules[i].body.action.Allow?)
    {
      PassAlong(rules, e, matches, i);
    }
  }

  function SwitchedOn(rules: seq<FilterRule>): seq<FilterRule> {
    if rules == [] then [] else (if rules[0].enabled then [rules[0]] else []) + SwitchedOn(rules[1..])
  }

  /** A rule that is switched off changes nothing: verdict, event, counts and dry run are those of
      the chain without it. */
  lemma {:induction false} DisabledRulesDoNothing(rules: seq<FilterRule>, e: Event, matches: Matcher)
    ensures Decide(rules, e, matches) == Decide(SwitchedOn(rules), e, matches)
    ensures WouldAllow(rules, e, matches) == WouldAllow(SwitchedOn(rules), e, matches)
    decreases |rules|
  {
    hide Modified;
    if rules != [] {
      var head, rest := rules[0], SwitchedOn(rules[1..]);
      DisabledRulesDoNothing(rules[1..], e, matches);
      DisabledRulesDoNothing(rules[1..], Modified(head, e), matches);
      assert ([head] + rest)[1..] == rest;
      assert [] + rest == rest;
    }
  }

  lemma {:induction false} SwitchedOnAre(rules: seq<FilterRule>)
    ensures forall i :: 0 <= i < |SwitchedOn(rules)| ==> SwitchedOn(rules)[i].enabled
    ensures forall i :: 0 <= i < |SwitchedOn(rules)| ==> SwitchedOn(rules)[i] in rules
    ensures forall i :: 0 <= i < |rules| && rules[i].enabled ==> rules[i] in SwitchedOn(rules)
  {
    if rules != [] {
      SwitchedOnAre(rules[1..]);
      assert forall i :: 0 < i < |rules| ==> rules[1..][i - 1] == rules[i];
      assert forall r :: r in rules[1..] ==> r in rules;
    }
  }

  /** What a Modify rule leaves: its attributes win, the others stay, and a summary it gives
      replaces the event's; nothing else changes. */
  lemma ModifiedIs(rule: FilterRule, e: Event, k: string)
    ensures var m := Modified(rule, e);
            && (k in m.attributes <==> k in rule.body.attributes || k in e.attributes)
            && (k in rule.body.attributes ==> m.attributes[k] == rule.body.attributes[k])
            && (k in e.attributes && k !in rule.body.attributes ==> m.attributes[k] == e.attributes[k])
            && (rule.body.summary == "" ==> m.summary == e.summary)
            && (rule.body.summary != "" ==> m.summary == rule.body.summary)
            && e == m.(attributes := e.attributes, summary := e.summary)
  {
  }

  // ------------------------------------------------------------ ties in priority

  /** No enabled Modify rule matches the event. */
  ghost predicate NothingModifies(rules: seq<FilterRule>, e: Event, matches: Matcher) {
    forall i :: 0 <= i < |rules| && rules[i].enabled && matches(rules[i], e) ==> !rules[i].body.action.Modify?
  }

  ghost predicate FirstHit(rules: seq<FilterRule>, e: Event, matches: Matcher, i: nat) {
    && i <= |rules|
    && (forall j :: 0 <= j < i ==> !(rules[j].enabled && matches(rules[j], e)))
    && (i < |rules| ==> rules[i].enabled && matches(rules[i], e))
  }

  /** Before the first match nothing happens. */
  lemma {:induction false} UpToFirstHit(rules: seq<FilterRule>, e: Event, matches: Matcher, i: nat)
    requires FirstHit(rules, e, matches, i)
    ensures Decide(rules, e, matches) == Decide(rules[i..], e, matches)
    ensures WouldAllow(rules, e, matches) == WouldAllow(rules[i..], e, matches)
  {
    if i == 0 {
      assert rules[0..] == rules;
    } else {
      assert rules[1..][i - 1..] == rules[i..];
      UpToFirstHit(rules[1..], e, matches, i - 1);
    }
  }

  lemma {:induction false} FindFirstHit(rules: seq<FilterRule>, e: Event, matches: Matcher) returns (i: nat)
    ensures FirstHit(rules, e, matches, i)
  {
    if rules == [] || Hits(rules[0], e, matches) {
      i := 0;
    } else {
      i := FindFirstHit(rules[1..], e, matches);
      i := i + 1;
    }
  }

  /** Without modifications the first match decides. */
  lemma FirstHitDecides(rules: seq<FilterRule>, e: Event, matches: Matcher, i: nat)
    requires FirstHit(rules, e, matches, i) && NothingModifies(rules, e, matches)
    ensures Decide(rules, e, matches) == Verdict(i == |rules| || rules[i].body.action.Allow?, e, 0)
  {
    UpToFirstHit(rules, e, matches, i);
  }

  /** All matching rules of the highest matching priority act alike. */
  ghost predicate TopAgree(rules: seq<FilterRule>, e: Event, matches: Matcher) {
    forall i, j :: 0 <= i < |rules| && 0 <= j < |rules| && Top(rules, e, matches, i) && Top(rules, e, matches, j) ==>
      rules[i].body.action == rules[j].body.action
  }

  ghost predicate Top(rules: seq<FilterRule>, e: Event, matches: Matcher, i: nat)
    requires i < |rules|
  {
    && rules[i].enabled && matches(rules[i], e)
    && forall k :: 0 <= k < |rules| && rules[k].enabled && matches(rules[k], e) ==> rules[k].body.priority <= rules[i].body.priority
  }

  /** Two sorted lists of the same rules. */
  ghost predicate SameRules(a: seq<FilterRule>, b: seq<FilterRule>) { Sorted(a) && Sorted(b) && multiset(a) == multiset(b) }

  lemma FirstHitIsTop(rules: seq<FilterRule>, e: Event, matches: Matcher, i: nat)
    requires Sorted(rules) && FirstHit(rules, e, matches, i) && i < |rules|
    ensures Top(rules, e, matches, i)
  {
  }

  lemma Counterpart(a: seq<FilterRule>, b: seq<FilterRule>, i: nat) returns (j: nat)
    requires multiset(a) == multiset(b) && i < |a|
    ensures j < |b| && b[j] == a[i]
  {
    assert a[i] in multiset(b);
    j :| 0 <= j < |b| && b[j] == a[i];
  }

  lemma TopMoves(a: seq<FilterRule>, b: seq<FilterRule>, e: Event, matches: Matcher, i: nat, j: nat)
    requires multiset(a) == multiset(b) && i < |a| && j < |b| && b[j] == a[i] && Top(a, e, matches, i)
    ensures Top(b, e, matches, j)
  {
    forall k | 0 <= k < |b| && b[k].enabled && matches(b[k], e) ensures b[k].body.priority <= b[j].body.priority {
      var m := Counterpart(b, a, k);
    }
  }

  lemma ModifiesMoves(a: seq<FilterRule>, b: seq<FilterRule>, e: Event, matches: Matcher)
    requires multiset(a) == multiset(b) && NothingModifies(a, e, matches)
    ensures NothingModifies(b, e, matches)
  {
    forall k | 0 <= k < |b| && b[k].enabled && matches(b[k], e) ensures !b[k].body.action.Modify? {
      var m := Counterpart(b, a, k);
    }
  }

  /** If the top matches act alike, the order among equal priorities does not matter ... */
  lemma OrderDoesNotMatter(a: seq<FilterRule>, b: seq<FilterRule>, e: Event, matches: Matcher)
    requires SameRules(a, b) && NothingModifies(a, e, matches) && TopAgree(a, e, matches)
    ensures Decide(a, e, matches) == Decide(b, e, matches)
  {
    hide Decide, Sorted, Top, NothingModifies;
    var i := FindFirstHit(a, e, matches);
    var j := FindFirstHit(b, e, matches);
    ModifiesMoves(a, b, e, matches);
    FirstHitDecides(a, e, matches, i);
    FirstHitDecides(b, e, matches, j);
    if i < |a| {
      var k := Counterpart(a, b, i);
      if j < |b| {
        FirstHitIsTop(a, e, matches, i);
        FirstHitIsTop(b, e, matches, j);
        var m := Counterpart(b, a, j);
        TopMoves(b, a, e, matches, j, m);
      }
    } else if j < |b| {
      var m := Counterpart(b, a, j);
    }
  }

  lemma SwapKeeps(rules: seq<FilterRule>, i: nat, j: nat)
    requires Sorted(rules) && i < j < |rules| && rules[i].body.priority == rules[j].body.priority
    ensures SameRules(rules, rules[i := rules[j]][j := rules[i]])
  {
  }

  /** ... and only then: otherwise swapping two of them turns the verdict round. */
  lemma OrderMatters(a: seq<FilterRule>, e: Event, matches: Matcher) returns (b: seq<FilterRule>)
    requires Sorted(a) && NothingModifies(a, e, matches) && !TopAgree(a, e, matches)
    ensures SameRules(a, b) && Decide(b, e, matches).allowed != Decide(a, e, matches).allowed
  {
    hide Decide;
    var i := FindFirstHit(a, e, matches);
    var j: nat :| j < |a| && Top(a, e, matches, j) && a[j].body.action != a[i].body.action;
    b := a[i := a[j]][j := a[i]];
    SwapKeeps(a, i, j);
    ModifiesMoves(a, b, e, matches);
    assert FirstHit(b, e, matches, i);
    FirstHitDecides(a, e, matches, i);
    FirstHitDecides(b, e, matches, i);
  }

  // ------------------------------------------------------------ would_allow

  /** The dry run judges by the first matching rule and counts Modify as allowing. It agrees
      with the real verdict exactly when that rule is not a Modify rule, or when the first rule
      to stop the event as changed on the way is not a Deny rule. */
  lemma DryRunAgrees(rules: seq<FilterRule>, e: Event, matches: Matcher, i: nat)
    requires FirstHit(rules, e, matches, i)
    ensures WouldAllow(rules, e, matches) == Decide(rules, e, matches).allowed <==>
              || i == |rules| || !rules[i].body.action.Modify?
              || !exists j :: 0 <= j < |rules| && FirstStop(rules, e, matches, j) && rules[j].body.action.Deny?
  {
    UpToFirstHit(rules, e, matches, i);
    FirstStopDecides(rules, e, matches);
    var j :| FirstStop(rules, e, matches, j);
  }

  /** In particular it agrees on every event that no enabled Modify rule matches. */
  lemma DryRunAgreesUnmodified(rules: seq<FilterRule>, e: Event, matches: Matcher)
    requires NothingModifies(rules, e, matches)
    ensures WouldAllow(rules, e, matches) == Decide(rules, e, matches).allowed
  {
    var i := FindFirstHit(rules, e, matches);
    DryRunAgrees(rules, e, matches, i);
  }

  /** A Modify rule ahead of a Deny rule: the dry run says yes, the filter no. */
  lemma DryRunMisleads(e: Event, matches: Matcher)
    requires forall r, x :: matches(r, x)
    ensures var rules := [Named("a", true, Filtering(2, Modify, map[], "")), Named("b", true, Filtering(1, Deny, map[], ""))];
            Sorted(rules) && WouldAllow(rules, e, matches) && !Decide(rules, e, matches).allowed
  {
    var rules := [Named("a", true, Filtering(2, Modify, map[], "")), Named("b", true, Filtering(1, Deny, map[], ""))];
    assert Hits(rules[0], e, matches) && Hits(rules[1], Modified(rules[0], e), matches);
    assert Decide(rules[1..], Modified(rules[0], e), matches) == Verdict(false, Modified(rules[0], e), 0);
  }
}
