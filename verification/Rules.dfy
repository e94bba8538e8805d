/** Named rules that can be switched on and off: what the alert manager, the security auditor
    and the event filter keep in their rule lists, and how they edit and look them up. */
module Rules {
  import opened Strings

  datatype Named<+A> = Named(name: string, enabled: bool, body: A)

  /** The rules of alerting and auditing. */
  datatype Limits = Limits(threshold: int, window: int, cooldown: int)

  type Rule = Named<Limits>

  function FindRule<A>(rules: seq<Named<A>>, name: string): Option<Named<A>> {
    if rules == [] then None else if rules[0].name == name then Some(rules[0]) else FindRule(rules[1..], name)
  }

  function Replaced<A>(rules: seq<Named<A>>, rule: Named<A>): seq<Named<A>> {
    if rules == [] then [rule]
    else if rules[0].name == rule.name then [rule] + rules[1..]
    else [rules[0]] + Replaced(rules[1..], rule)
  }

  function Removed<A>(rules: seq<Named<A>>, name: string): seq<Named<A>> {
    if rules == [] then []
    else (if rules[0].name == name then [] else [rules[0]]) + Removed(rules[1..], name)
  }

  function Enabling<A>(rules: seq<Named<A>>, name: string, on: bool): seq<Named<A>> {
    if rules == [] then []
    else if rules[0].name == name then [rules[0].(enabled := on)] + rules[1..]
    else [rules[0]] + Enabling(rules[1..], name, on)
  }

  predicate UniqueNames<A>(rules: seq<Named<A>>) { forall i, j :: 0 <= i < j < |rules| ==> rules[i].name != rules[j].name }

  // ------------------------------------------------------------ the search loops

  lemma Slide<T>(xs: seq<T>, i: nat, tail: seq<T>)
    requires i < |xs|
    ensures xs[..i] + ([xs[i]] + tail) == xs[..i + 1] + tail
  {
  }

  lemma ReplacedPast<A>(rules: seq<Named<A>>, rule: Named<A>, i: nat)
    requires i < |rules| && rules[i].name != rule.name
    ensures rules[..i] + Replaced(rules[i..], rule) == rules[..i + 1] + Replaced(rules[i + 1..], rule)
  {
    Slide(rules, i, Replaced(rules[i + 1..], rule));
    assert rules[i..][1..] == rules[i + 1..] && rules[i..][0] == rules[i];
    assert Replaced(rules[i..], rule) == [rules[i]] + Replaced(rules[i + 1..], rule);
  }

  lemma ReplacedAt<A>(rules: seq<Named<A>>, rule: Named<A>, i: nat)
    requires i < |rules| && rules[i].name == rule.name
    ensures rules[..i] + Replaced(rules[i..], rule) == rules[i := rule]
  {
    assert rules[i..][1..] == rules[i + 1..] && rules[i..][0] == rules[i];
    assert Replaced(rules[i..], rule) == [rule] + rules[i + 1..];
  }

  lemma EnablingPast<A>(rules: seq<Named<A>>, name: string, on: bool, i: nat)
    requires i < |rules| && rules[i].name != name
    ensures rules[..i] + Enabling(rules[i..], name, on) == rules[..i + 1] + Enabling(rules[i + 1..], name, on)
  {
    Slide(rules, i, Enabling(rules[i + 1..], name, on));
    assert rules[i..][1..] == rules[i + 1..] && rules[i..][0] == rules[i];
    assert Enabling(rules[i..], name, on) == [rules[i]] + Enabling(rules[i + 1..], name, on);
  }

  lemma EnablingAt<A>(rules: seq<Named<A>>, name: string, on: bool, i: nat)
    requires i < |rules| && rules[i].name == name
    ensures rules[..i] + Enabling(rules[i..], name, on) == rules[i := rules[i].(enabled := on)]
  {
    assert rules[i..][1..] == rules[i + 1..] && rules[i..][0] == rules[i];
    assert Enabling(rules[i..], name, on) == [rules[i].(enabled := on)] + rules[i + 1..];
  }

  // ------------------------------------------------------------ what edits keep

  /** Adding keeps every other rule, has the new rule under its name, and keeps names unique. */
  lemma {:induction false} ReplacedKeeps<A>(rules: seq<Named<A>>, rule: Named<A>)
    requires UniqueNames(rules)
    ensures UniqueNames(Replaced(rules, rule)) && rule in Replaced(rules, rule)
    ensures var out := Replaced(rules, rule);
            forall i :: 0 <= i < |out| ==> out[i] == rule || (out[i] in rules && out[i].name != rule.name)
    ensures forall i :: 0 <= i < |rules| && rules[i].name != rule.name ==> rules[i] in Replaced(rules, rule)
  {
    if rules != [] {
      ReplacedKeeps(rules[1..], rule);
      if rules[0].name != rule.name {
        KeepsHead(rules, Replaced(rules[1..], rule), rule);
      } else {
        assert forall i :: 0 < i < |rules| ==> rules[1..][i - 1] == rules[i];
      }
    }
  }

  /** A rule in front of an edited rest. */
  lemma KeepsHead<A>(rules: seq<Named<A>>, rest: seq<Named<A>>, rule: Named<A>)
    requires UniqueNames(rules) && rules != [] && UniqueNames(rest) && rules[0].name != rule.name
    requires forall i :: 0 <= i < |rest| ==> rest[i] == rule || (rest[i] in rules[1..] && rest[i].name != rule.name)
    requires forall i :: 0 <= i < |rules[1..]| && rules[1..][i].name != rule.name ==> rules[1..][i] in rest
    ensures var out := [rules[0]] + rest;
            && UniqueNames(out)
            && (forall i :: 0 <= i < |out| ==> out[i] == rule || (out[i] in rules && out[i].name != rule.name))
            && (forall i :: 0 <= i < |rules| && rules[i].name != rule.name ==> rules[i] in out)
  {
    var out := [rules[0]] + rest;
    forall i | 0 <= i < |rest| ensures rest[i].name != rules[0].name && (rest[i] == rule || rest[i] in rules) {
      if rest[i] != rule {
        var m :| 0 <= m < |rules| - 1 && rules[1..][m] == rest[i];
        assert rules[m + 1] == rest[i];
      }
    }
    forall i | 0 < i < |rules| && rules[i].name != rule.name ensures rules[i] in out {
      assert rules[1..][i - 1] == rules[i];
    }
  }

  lemma {:induction false} RemovedKeeps<A>(rules: seq<Named<A>>, name: string)
    ensures UniqueNames(rules) ==> UniqueNames(Removed(rules, name))
    ensures forall i :: 0 <= i < |Removed(rules, name)| ==> Removed(rules, name)[i] in rules && Removed(rules, name)[i].name != name
    ensures forall i :: 0 <= i < |rules| && rules[i].name != name ==> rules[i] in Removed(rules, name)
  {
    if rules != [] {
      var rest := Removed(rules[1..], name);
      RemovedKeeps(rules[1..], name);
      assert forall i :: 0 < i < |rules| ==> rules[1..][i - 1] == rules[i];
      forall i | 0 <= i < |rest| ensures rest[i] in rules && (UniqueNames(rules) ==> rest[i].name != rules[0].name) {
        var m :| 0 <= m < |rules| - 1 && rules[1..][m] == rest[i];
        assert rules[m + 1] == rest[i];
      }
    }
  }

  lemma {:induction false} EnablingKeeps<A>(rules: seq<Named<A>>, name: string, on: bool)
    ensures var out := Enabling(rules, name, on);
            && |out| == |rules|
            && forall i :: 0 <= i < |rules| ==> out[i].name == rules[i].name && out[i].body == rules[i].body
  {
    if rules != [] {
      EnablingKeeps(rules[1..], name, on);
    }
  }

  /** With unique names exactly the rule of the name is switched, as asked. */
  lemma {:induction false} EnablingSwitches<A>(rules: seq<Named<A>>, name: string, on: bool)
    requires UniqueNames(rules)
    ensures |Enabling(rules, name, on)| == |rules|
    ensures forall i :: 0 <= i < |rules| ==> Enabling(rules, name, on)[i].enabled == if rules[i].name == name then on else rules[i].enabled
  {
    if rules != [] {
      EnablingSwitches(rules[1..], name, on);
      assert forall i :: 0 < i < |rules| ==> rules[1..][i - 1] == rules[i];
    }
  }

  lemma {:induction false} FindsUnique<A>(rules: seq<Named<A>>, i: nat)
    requires UniqueNames(rules) && i < |rules|
    ensures FindRule(rules, rules[i].name) == Some(rules[i])
  {
    if i > 0 {
      FindsUnique(rules[1..], i - 1);
    }
  }
}
