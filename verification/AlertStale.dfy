/** How many alerts of a rule fit into one cooldown when their times may go stale, that is, when
    a thread may stop between reading an alert's time and committing it: with T threads exactly
    T (T + 1) / 2. */
module AlertStale {
  import opened AlertHistory
  import opened AlertManager
  import opened AlertSchedules
  import opened AlertThreads
  import opened Collections
  import opened Events
  import opened Rules
  import opened Strings

  // ------------------------------------------------------------ the bound

  /** Alerts of the rule committed after entry `k` with a time from before the window. */
  ghost function StaleAfter(log: seq<Alert>, name: string, from: int, k: nat): set<nat> {
    set m: nat | k < m < |log| && log[m].rule == name && log[m].time < from
  }

  lemma {:induction false} LastTimeOf(log: seq<Alert>, name: string, j: nat) returns (m: nat)
    requires j < |log| && log[j].rule == name
    ensures j <= m < |log| && log[m].rule == name && LastTime(log, name) == Some(log[m].time)
  {
    if log[|log| - 1].rule == name {
      m := |log| - 1;
    } else {
      m := LastTimeOf(log[..|log| - 1], name, j);
    }
  }

  /** Between two alerts of one thread in the window a stale time was written. */
  lemma StaleBetween(w: World, rule: Rule, from: int, j: nat, k: nat) returns (m: nat)
    requires Inv(w) && FindRule(w.shared.rules, rule.name) == Some(rule)
    requires j < k < |w.log| && w.log[j].rule == w.log[k].rule == rule.name && w.who[j].thread == w.who[k].thread
    requires from <= w.log[j].time && w.log[k].time < from + rule.body.cooldown
    ensures j < m < k && m in StaleAfter(w.log, rule.name, from, j)
  {
    hide Agrees, FindRule, LastTime;
    assert EntryOk(w, k);
    var seen := w.who[k].seen;
    assert w.who[..k][j] == w.who[j];
    m := LastTimeOf(w.log[..seen], rule.name, j);
  }

  /** A thread's later alerts have later times. */
  lemma OwnTimesRise(w: World, k: nat, m: nat)
    requires Inv(w) && k < m < |w.log| && w.who[k].thread == w.who[m].thread
    ensures w.log[k].time <= w.log[m].time
  {
    hide Agrees, Rested;
    assert EntryOk(w, m);
    assert w.who[..m][k] == w.who[k];
    assert w.log[..w.who[m].seen][k] == w.log[k];
  }

  /** The alerts of the window with `e` stale ones behind them. */
  ghost function Class(log: seq<Alert>, name: string, from: int, length: int, e: nat): set<nat> {
    set k | k in Within(log, name, from, length) && |StaleAfter(log, name, from, k)| == e
  }

  /** The same number of stale ones behind means the same ones. */
  lemma SameStale(log: seq<Alert>, name: string, from: int, j: nat, k: nat)
    requires |StaleAfter(log, name, from, j)| == |StaleAfter(log, name, from, k)|
    ensures StaleAfter(log, name, from, j) == StaleAfter(log, name, from, k)
  {
    var a, b := StaleAfter(log, name, from, if j < k then j else k), StaleAfter(log, name, from, if j < k then k else j);
    assert b <= a;
    NoMore(b, a);
  }

  lemma NoMore(b: set<nat>, a: set<nat>)
    requires b <= a && |a| == |b|
    ensures a == b
  {
    assert a == b + (a - b);
  }

  /** Two alerts of one thread in one class, or two stale ones of one thread behind, or one of
      each, cannot be. */
  lemma ClassThreads(w: World, rule: Rule, from: int, e: nat, r: set<nat>, j: nat, k: nat)
    requires Inv(w) && FindRule(w.shared.rules, rule.name) == Some(rule)
    requires forall i :: i in Class(w.log, rule.name, from, rule.body.cooldown, e) ==> StaleAfter(w.log, rule.name, from, i) == r
    requires Class(w.log, rule.name, from, rule.body.cooldown, e) != {}
    requires var c := Class(w.log, rule.name, from, rule.body.cooldown, e); j in c + r && k in c + r && j < k
    ensures w.who[j].thread != w.who[k].thread
  {
    hide Inv, FindRule;
    assert |w.who| == |w.log| by { SameLength(w); }
    var c := Class(w.log, rule.name, from, rule.body.cooldown, e);
    var first := SomeOf(c);
    assert StaleAfter(w.log, rule.name, from, first) == r;
    assert j in c ==> StaleAfter(w.log, rule.name, from, j) == r;
    assert k in c ==> StaleAfter(w.log, rule.name, from, k) == r;
    if w.who[j].thread == w.who[k].thread {
      if k in c {
        if j in c { var m := StaleBetween(w, rule, from, j, k); }
      } else if j in c {
        OwnTimesRise(w, j, k);
      } else {
        StaleTwice(w, first, j, k, from);
      }
    }
  }

  lemma SameLength(w: World)
    requires Inv(w)
    ensures |w.who| == |w.log|
  {
  }

  lemma SomeOf(c: set<nat>) returns (k: nat)
    requires c != {}
    ensures k in c
  {
    k :| k in c;
  }

  /** After an alert of the window a thread commits at most one stale one. */
  lemma StaleTwice(w: World, k: nat, a: nat, b: nat, from: int)
    requires Inv(w) && k < a < b < |w.log| && w.who[a].thread == w.who[b].thread && from <= w.log[k].time
    ensures from <= w.log[b].time
  {
    hide Agrees, Rested;
    assert EntryOk(w, b);
    assert w.who[..b][a] == w.who[a];
    assert w.log[..w.who[b].seen][k] == w.log[k];
  }

  /** With `e` stale ones to come, at most T - e alerts: all are by different threads. */
  lemma ClassBound(w: World, rule: Rule, from: int, e: nat)
    requires Inv(w) && FindRule(w.shared.rules, rule.name) == Some(rule)
    ensures var c := Class(w.log, rule.name, from, rule.body.cooldown, e); c == {} || |c| + e <= |w.threads|
  {
    hide Agrees, FindRule, PhaseOk;
    var c := Class(w.log, rule.name, from, rule.body.cooldown, e);
    if c != {} {
      var first := SomeOf(c);
      var r := StaleAfter(w.log, rule.name, from, first);
      forall i | i in c ensures StaleAfter(w.log, rule.name, from, i) == r {
        SameStale(w.log, rule.name, from, i, first);
      }
      var all := c + r;
      forall k | k in all ensures k < |w.who| && w.who[k].thread < |w.threads| {
        assert EntryOk(w, k);
      }
      forall j, k | j in all && k in all && j != k ensures w.who[j].thread != w.who[k].thread {
        ClassThreads(w, rule, from, e, r, if j < k then j else k, if j < k then k else j);
      }
      Pigeons(all, w.who, |w.threads|);
      assert c !! r;
    }
  }

  /** T + (T - 1) + ... , `n` terms. */
  function Stairs(t: nat, n: nat): nat
    requires n <= t
  {
    if n == 0 then 0 else Stairs(t, n - 1) + (t - (n - 1))
  }

  lemma {:induction false} StairsAre(t: nat, n: nat)
    requires n <= t
    ensures 2 * Stairs(t, n) == n * (2 * t - n + 1)
  {
    if n > 0 {
      StairsAre(t, n - 1);
      assert (n - 1) * (2 * t - n + 2) + 2 * (t - (n - 1)) == n * (2 * t - n + 1);
    }
  }

  ghost function Upto(log: seq<Alert>, name: string, from: int, length: int, n: nat): set<nat> {
    set k | k in Within(log, name, from, length) && |StaleAfter(log, name, from, k)| < n
  }

  lemma {:induction false} UptoBound(w: World, rule: Rule, from: int, n: nat)
    requires Inv(w) && FindRule(w.shared.rules, rule.name) == Some(rule) && n <= |w.threads|
    ensures |Upto(w.log, rule.name, from, rule.body.cooldown, n)| <= Stairs(|w.threads|, n)
  {
    hide Inv, FindRule, Upto, Class;
    UptoSplit(w.log, rule.name, from, rule.body.cooldown, n);
    if n > 0 {
      UptoBound(w, rule, from, n - 1);
      ClassBound(w, rule, from, n - 1);
    }
  }

  lemma UptoSplit(log: seq<Alert>, name: string, from: int, length: int, n: nat)
    ensures |Upto(log, name, from, length, n)|
         == if n == 0 then 0 else |Upto(log, name, from, length, n - 1)| + |Class(log, name, from, length, n - 1)|
  {
    hide Within, StaleAfter;
    if n == 0 {
      assert Upto(log, name, from, length, 0) == {};
    } else {
      var a, c := Upto(log, name, from, length, n - 1), Class(log, name, from, length, n - 1);
      assert Upto(log, name, from, length, n) == a + c && a !! c;
    }
  }

  /** For any schedule of T threads, stale times or not: no window of the length of a rule's
      cooldown holds more than T (T + 1) / 2 alerts of the rule. */
  lemma StaleBound(rules: seq<Rule>, threads: nat, now: int, ls: seq<Label>, env: Env, rule: Rule, from: int)
    requires Exec(Begin(rules, threads, now), ls, env).Some?
    requires FindRule(rules, rule.name) == Some(rule)
    ensures var w := Exec(Begin(rules, threads, now), ls, env).value;
            2 * |Within(w.log, rule.name, from, rule.body.cooldown)| <= threads * (threads + 1)
  {
    hide Inv, FindRule, Exec;
    BeginInv(rules, threads, now);
    RunInv(Begin(rules, threads, now), ls, env);
    var w := Exec(Begin(rules, threads, now), ls, env).value;
    var s := Within(w.log, rule.name, from, rule.body.cooldown);
    forall k | k in s ensures |StaleAfter(w.log, rule.name, from, k)| < threads {
      var e := |StaleAfter(w.log, rule.name, from, k)|;
      ClassBound(w, rule, from, e);
      HasOne(Class(w.log, rule.name, from, rule.body.cooldown, e), k);
    }
    assert s == Upto(w.log, rule.name, from, rule.body.cooldown, threads);
    UptoBound(w, rule, from, threads);
    StairsAre(threads, threads);
  }

  lemma HasOne(c: set<nat>, k: nat)
    requires k in c
    ensures |c| >= 1
  {
    assert c == {k} + (c - {k});
  }

  // ------------------------------------------------------------ the bound is reached

  lemma WithinNext(a: seq<Alert>, b: seq<Alert>, name: string, from: int, length: int)
    requires |b| == |a| + 1 && b[..|a|] == a
    ensures var x := b[|a|];
            |Within(b, name, from, length)|
            == |Within(a, name, from, length)| + (if x.rule == name && from <= x.time < from + length then 1 else 0)
  {
    forall k: nat
      ensures k in Within(b, name, from, length) <==>
                k in Within(a, name, from, length) || (k == |a| && b[|a|].rule == name && from <= b[|a|].time < from + length)
    {
      if k < |a| { assert b[k] == a[k]; }
    }
    hide Within;
    OneMore(Within(a, name, from, length), Within(b, name, from, length), |a|,
      b[|a|].rule == name && from <= b[|a|].time < from + length) by {
      NotYet(a, name, from, length);
    }
  }

  lemma NotYet(a: seq<Alert>, name: string, from: int, length: int)
    ensures |a| !in Within(a, name, from, length)
  {
  }

  /** A rule that any one event sets off at once, for as long as its cooldown lasts. */
  ghost predicate Eager(rule: Rule, e: Event, env: Env) {
    && Applies(rule, e, env) && rule.body.threshold <= 1 && 0 < rule.body.cooldown <= rule.body.window
  }

  /** How many alerts the window that starts right after the event's time holds. */
  ghost function InWindow(w: World, rule: Rule, e: Event): nat {
    |Within(w.log, rule.name, e.timestamp + 1, rule.body.cooldown)|
  }

  /** Threads up to `i` are idle, the others hold a time from before the window. */
  ghost predicate Holding(w: World, rule: Rule, e: Event, i: nat) {
    && w.shared.rules == [rule] && w.now <= e.timestamp + rule.body.cooldown
    && forall t :: 0 <= t < |w.threads| ==>
         if t <= i then w.threads[t].Idle?
         else w.threads[t].Stamped? && w.threads[t].i == 0 && w.threads[t].at == e.timestamp
  }

  /** Threads up to `k` passed the check at the end of the window, those from there to `i` are
      idle, the rest as before. */
  ghost predicate Passing(w: World, rule: Rule, e: Event, k: nat, i: nat) {
    && w.shared.rules == [rule] && w.now <= e.timestamp + rule.body.cooldown
    && forall t :: 0 <= t < |w.threads| ==>
         if t < k then w.threads[t].Passed? && w.threads[t].i == 0
         else if t <= i then w.threads[t].Idle?
         else w.threads[t].Stamped? && w.threads[t].i == 0 && w.threads[t].at == e.timestamp
  }

  /** After a stale time was written the first `k` threads pass the check together. */
  lemma {:induction false} PassAgain(w: World, rule: Rule, e: Event, k: nat, i: nat, env: Env) returns (w2: World)
    requires Eager(rule, e, env) && Holding(w, rule, e, i) && k <= i + 1 <= |w.threads|
    requires rule.name in w.shared.last && w.shared.last[rule.name] == e.timestamp
    ensures Reaches(w, w2, env) && Passing(w2, rule, e, k, i) && |w2.threads| == |w.threads|
    ensures w2.log == w.log && w2.shared.last == w.shared.last
  {
    if k == 0 {
      w2 := w;
      assert Exec(w, [], env) == Some(w);
    } else {
      hide Exec, Applies;
      var a := PassAgain(w, rule, e, k - 1, i, env);
      w2 := Approach(a, rule, k - 1, e, e.timestamp + rule.body.cooldown, env);
      Onward(w, a, w2, env);
    }
  }

  /** Threads from `k` to `i` still have to fire, at the end of the window. */
  ghost predicate Firing(w: World, rule: Rule, e: Event, k: nat, i: nat) {
    && w.shared.rules == [rule] && w.now <= e.timestamp + rule.body.cooldown
    && forall t :: 0 <= t < |w.threads| ==>
         if t < k then w.threads[t].Idle?
         else if t <= i then w.threads[t].Passed? && w.threads[t].i == 0
         else w.threads[t].Stamped? && w.threads[t].i == 0 && w.threads[t].at == e.timestamp
  }

  lemma FireOne(w: World, rule: Rule, e: Event, k: nat, i: nat, env: Env) returns (w2: World)
    requires Eager(rule, e, env) && Firing(w, rule, e, k, i) && k <= i < |w.threads|
    ensures Reaches(w, w2, env) && Firing(w2, rule, e, k + 1, i) && |w2.threads| == |w.threads|
    ensures InWindow(w2, rule, e) == InWindow(w, rule, e) + 1
  {
    hide Reaches, Applies, Within;
    w2 := Shoot(w, rule, k, e.timestamp + rule.body.cooldown, env);
    WithinNext(w.log, w2.log, rule.name, e.timestamp + 1, rule.body.cooldown);
  }

  lemma FireNone(w: World, rule: Rule, e: Event, i: nat, env: Env)
    requires Passing(w, rule, e, i + 1, i)
    ensures Reaches(w, w, env) && Firing(w, rule, e, 0, i)
  {
    assert Exec(w, [], env) == Some(w);
  }

  lemma {:induction false} FireAgain(w: World, rule: Rule, e: Event, k: nat, i: nat, env: Env) returns (w2: World)
    requires Eager(rule, e, env) && Passing(w, rule, e, i + 1, i) && k <= i + 1 <= |w.threads|
    ensures Reaches(w, w2, env) && Firing(w2, rule, e, k, i) && |w2.threads| == |w.threads|
    ensures InWindow(w2, rule, e) == InWindow(w, rule, e) + k
  {
    hide Reaches, Eager, Passing, Firing, InWindow;
    if k == 0 {
      w2 := w;
      FireNone(w, rule, e, i, env);
    } else {
      var a := FireAgain(w, rule, e, k - 1, i, env);
      w2 := FireOne(a, rule, e, k - 1, i, env);
      Onward(w, a, w2, env);
    }
  }

  /** One more thread writes its stale time, and all but those still holding one fire again. */
  lemma Round(w: World, rule: Rule, e: Event, i: nat, env: Env) returns (w2: World)
    requires Eager(rule, e, env) && Holding(w, rule, e, i) && i + 1 < |w.threads|
    ensures Reaches(w, w2, env) && Holding(w2, rule, e, i + 1) && |w2.threads| == |w.threads|
    ensures InWindow(w2, rule, e) == InWindow(w, rule, e) + (i + 2)
  {
    hide Exec, Applies, Within;
    var a := Finish(w, rule, i + 1, env);
    WithinNext(w.log, a.log, rule.name, e.timestamp + 1, rule.body.cooldown);
    var b := PassAgain(a, rule, e, i + 2, i + 1, env);
    w2 := FireAgain(b, rule, e, i + 2, i + 1, env);
    Onward(w, a, b, env);
    Onward(w, b, w2, env);
  }

  /** All threads have passed the check; those from `k` on have read their alert's time. */
  lemma {:induction false} ReadEarly(rule: Rule, threads: nat, k: nat, e: Event, env: Env) returns (w: World)
    requires Eager(rule, e, env) && 1 <= k <= threads
    ensures Reaches(Begin([rule], threads, e.timestamp), w, env) && w.now == e.timestamp
    ensures w.log == [] && w.shared.rules == [rule] && |w.threads| == threads
    ensures forall t :: 0 <= t < threads ==>
              if t < k then w.threads[t].Passed? && w.threads[t].i == 0
              else w.threads[t].Stamped? && w.threads[t].i == 0 && w.threads[t].at == e.timestamp
    decreases threads - k
  {
    if k == threads {
      w := AllPass(rule, threads, threads, e, env);
    } else {
      hide Exec, Applies;
      var a := ReadEarly(rule, threads, k + 1, e, env);
      w := StampOnly(a, rule, k, e.timestamp, env);
      Onward(Begin([rule], threads, e.timestamp), a, w, env);
    }
  }

  lemma {:induction false} Rounds(rule: Rule, threads: nat, i: nat, e: Event, env: Env) returns (w: World)
    requires Eager(rule, e, env) && i < threads
    ensures Reaches(Begin([rule], threads, e.timestamp), w, env) && Holding(w, rule, e, i) && |w.threads| == threads
    ensures 2 * InWindow(w, rule, e) == (i + 1) * (i + 2)
  {
    hide Exec, Applies, Within;
    var b := Begin([rule], threads, e.timestamp);
    if i == 0 {
      var a := ReadEarly(rule, threads, 1, e, env);
      w := Shoot(a, rule, 0, e.timestamp + 1, env);
      WithinNext(a.log, w.log, rule.name, e.timestamp + 1, rule.body.cooldown);
      NoneWithin(rule.name, e.timestamp + 1, rule.body.cooldown);
      Onward(b, a, w, env);
    } else {
      var a := Rounds(rule, threads, i - 1, e, env);
      w := Round(a, rule, e, i - 1, env);
      Onward(b, a, w, env);
      assert i * (i + 1) + 2 * (i + 1) == (i + 1) * (i + 2);
    }
  }

  lemma NoneWithin(name: string, from: int, length: int)
    ensures Within([], name, from, length) == {}
  {
  }

  /** No smaller bound holds: for any number of threads some schedule puts T (T + 1) / 2 alerts
      of a rule into one cooldown. */
  lemma StaleBoundIsReached(rule: Rule, threads: nat, e: Event, env: Env) returns (w: World)
    requires Eager(rule, e, env) && threads > 0
    ensures Reaches(Begin([rule], threads, e.timestamp), w, env)
    ensures 2 * |Within(w.log, rule.name, e.timestamp + 1, rule.body.cooldown)| == threads * (threads + 1)
  {
    w := Rounds(rule, threads, threads - 1, e, env);
  }
}
