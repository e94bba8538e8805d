/** Particular schedules of the alert manager: the sequential caller is one of them, the
    window bound is reached, and it fails once an alert's time goes stale before its commit. */
module AlertSchedules {
  import opened AlertHistory
  import opened AlertManager
  import opened AlertThreads
  import opened Collections
  import opened Events
  import opened Rules
  import opened Strings

  lemma {:induction false} ExecAppend(w: World, a: seq<Label>, b: seq<Label>, env: Env)
    requires Exec(w, a, env).Some?
    ensures Exec(w, a + b, env) == Exec(Exec(w, a, env).value, b, env)
    decreases |a|
  {
    hide Next, Enabled;
    if a == [] {
      assert a + b == b;
    } else {
      assert (a + b)[1..] == a[1..] + b;
      ExecAppend(Next(w, a[0], env), a[1..], b, env);
    }
  }

  ghost predicate Reaches(w: World, w2: World, env: Env) { exists ls :: Exec(w, ls, env) == Some(w2) }

  lemma Onward(w: World, w2: World, w3: World, env: Env)
    requires Reaches(w, w2, env) && Reaches(w2, w3, env)
    ensures Reaches(w, w3, env)
  {
    hide Exec;
    var a :| Exec(w, a, env) == Some(w2);
    var b :| Exec(w2, b, env) == Some(w3);
    ExecAppend(w, a, b, env);
  }

  lemma OneStep(w: World, l: Label, env: Env)
    requires Enabled(w, l, env)
    ensures Reaches(w, Next(w, l, env), env)
  {
    hide Next, Enabled;
    assert Exec(w, [l], env) == Exec(Next(w, l, env), [], env);
  }

  // ------------------------------------------------------------ the sequential caller

  /** A lone caller at rule `i`: the world it reaches by its steps is what OnRule computes. */
  lemma AloneOnRule(w: World, e: Event, i: nat, env: Env, clock: nat -> int, r: nat) returns (w2: World)
    requires w.threads == [Scanning(e, i)] && i < |w.shared.rules| && w.now <= clock(r) && Monotone(clock)
    ensures Reaches(w, w2, env)
    ensures var o := OnRule(w.shared, w.shared.rules[i], e, env, clock, r);
            && w2.shared == o.s && w2.log == w.log + o.raised && w2.shared.rules == w.shared.rules
            && w2.threads == [Scanning(e, i + 1)] && w2.now <= clock(o.ticks)
  {
    hide Exec, Recent, Reached, Cooling, LooksAtClock, Fired;
    var rule := w.shared.rules[i];
    if !Applies(rule, e, env) {
      OneStep(w, Skip(0), env);
      w2 := Next(w, Skip(0), env);
      assert w2.log == w.log + [];
    } else {
      var a := Next(w, Track(0), env);
      var b := Next(a, Check(0, clock(r)), env);
      OneStep(w, Track(0), env);
      OneStep(a, Check(0, clock(r)), env);
      Onward(w, a, b, env);
      assert b.log + [] == b.log;
      if !Reached(b.shared, rule) {
        w2 := b;
      } else {
        var c := AloneAtClock(b, e, i, env, clock, r);
        Onward(w, b, c, env);
        w2 := c;
      }
    }
  }

  /** The rest of such a call once the threshold is reached. */
  lemma AloneAtClock(b: World, e: Event, i: nat, env: Env, clock: nat -> int, r: nat) returns (d: World)
    requires b.threads == [Reaching(e, i)] && i < |b.shared.rules| && b.now == clock(r) && Monotone(clock)
    ensures Reaches(b, d, env)
    ensures var rule := b.shared.rules[i];
            var r2 := if LooksAtClock(b.shared, rule.name) then r + 2 else r + 1;
            var a := NewAlert(b.shared, rule, e, clock(r2), env);
            && d.threads == [Scanning(e, i + 1)] && d.shared.rules == b.shared.rules && d.now <= clock(r2)
            && (if Cooling(b.shared, rule.name, clock(r + 1)) then d.shared == b.shared && d.log == b.log
                else d.shared == Fired(b.shared, a) && d.log == b.log + [a])
  {
    hide Exec, Recent, Reached;
    var rule := b.shared.rules[i];
    var c := Next(b, Cool(0, clock(r + 1)), env);
    OneStep(b, Cool(0, clock(r + 1)), env);
    if Cooling(b.shared, rule.name, clock(r + 1)) {
      d := c;
    } else {
      var r2 := if LooksAtClock(b.shared, rule.name) then r + 2 else r + 1;
      var f := Next(c, Stamp(0, clock(r2)), env);
      OneStep(c, Stamp(0, clock(r2)), env);
      d := Next(f, Commit(0), env);
      OneStep(f, Commit(0), env);
      Onward(b, c, f, env);
      Onward(b, f, d, env);
    }
  }

  lemma {:induction false} AloneOnRules(w: World, e: Event, n: nat, env: Env, clock: nat -> int, r: nat) returns (w2: World)
    requires w.threads == [Scanning(e, 0)] && n <= |w.shared.rules| && w.now <= clock(r) && Monotone(clock)
    ensures Reaches(w, w2, env)
    ensures var o := OnRules(w.shared, w.shared.rules[..n], e, env, clock, r);
            && w2.shared == o.s && w2.log == w.log + o.raised && w2.shared.rules == w.shared.rules
            && w2.threads == [Scanning(e, n)] && w2.now <= clock(o.ticks)
  {
    hide OnRule;
    if n == 0 {
      w2 := w;
      assert Exec(w, [], env) == Some(w);
      assert w.log + [] == w.log;
    } else {
      hide Exec;
      var a := AloneOnRules(w, e, n - 1, env, clock, r);
      assert w.shared.rules[..n][..n - 1] == w.shared.rules[..n - 1];
      w2 := AloneOnRule(a, e, n - 1, env, clock, OnRules(w.shared, w.shared.rules[..n - 1], e, env, clock, r).ticks);
      Onward(w, a, w2, env);
    }
  }

  /** Any run of one caller, as the manager's methods compute it, is a schedule of one thread. */
  lemma {:induction false} SequentialIsASchedule(rules: seq<Rule>, es: seq<Event>, env: Env, clock: nat -> int) returns (w: World)
    requires Monotone(clock)
    ensures Reaches(Begin(rules, 1, clock(0)), w, env)
    ensures var o := OnEvents(Start(rules), es, env, clock, 0);
            w.shared == o.s && w.log == o.raised && w.threads == [Idle] && w.now <= clock(o.ticks)
  {
    hide OnRules;
    if es == [] {
      w := Begin(rules, 1, clock(0));
      assert Exec(w, [], env) == Some(w);
    } else {
      hide Exec;
      var n := |es| - 1;
      var a := SequentialIsASchedule(rules, es[..n], env, clock);
      var before := OnEvents(Start(rules), es[..n], env, clock, 0);
      var b := Next(a, Call(0, es[n]), env);
      OneStep(a, Call(0, es[n]), env);
      var c := AloneOnRules(b, es[n], |b.shared.rules|, env, clock, before.ticks);
      assert b.shared.rules[..|b.shared.rules|] == b.shared.rules;
      w := Next(c, Return(0), env);
      OneStep(c, Return(0), env);
      Onward(Begin(rules, 1, clock(0)), a, b, env);
      Onward(Begin(rules, 1, clock(0)), b, c, env);
      Onward(Begin(rules, 1, clock(0)), c, w, env);
    }
  }

  // ------------------------------------------------------------ one rule, many threads

  lemma EnoughSeen(s: Shared, rule: Rule, t: int, time: int)
    requires rule.body.threshold <= 1 && t >= time - rule.body.window
    ensures Reached(Checked(Tracked(s, rule.name, t), rule, time), rule)
  {
  }

  /** An idle thread works its way up to the cooldown check of the only rule ... */
  lemma Arrive(w: World, rule: Rule, t: nat, e: Event, time: int, env: Env) returns (w2: World)
    requires w.shared.rules == [rule] && Applies(rule, e, env) && rule.body.threshold <= 1 && e.timestamp >= time - rule.body.window
    requires t < |w.threads| && w.threads[t].Idle? && w.now <= time
    ensures Reaches(w, w2, env) && w2.now == time
    ensures w2.log == w.log && w2.who == w.who && w2.shared.rules == [rule] && w2.shared.last == w.shared.last
    ensures w2.threads == w.threads[t := Reaching(e, 0)]
  {
    hide Exec, Applies, Reached, Recent, SeenOf;
    var a := Next(w, Call(t, e), env);
    OneStep(w, Call(t, e), env);
    var b := Next(a, Track(t), env);
    OneStep(a, Track(t), env);
    EnoughSeen(a.shared, rule, e.timestamp, time);
    Onward(w, a, b, env);
    OneStep(b, Check(t, time), env);
    w2 := Next(b, Check(t, time), env);
    Onward(w, b, w2, env);
  }

  /** ... and past it. */
  lemma Approach(w: World, rule: Rule, t: nat, e: Event, time: int, env: Env) returns (w2: World)
    requires w.shared.rules == [rule] && Applies(rule, e, env) && rule.body.threshold <= 1 && e.timestamp >= time - rule.body.window
    requires t < |w.threads| && w.threads[t].Idle? && w.now <= time
    requires rule.name in w.shared.last ==> time - w.shared.last[rule.name] >= rule.body.cooldown
    ensures Reaches(w, w2, env) && w2.now == time
    ensures w2.log == w.log && w2.who == w.who && w2.shared.rules == [rule] && w2.shared.last == w.shared.last
    ensures w2.threads == w.threads[t := Passed(e, 0, |w.log|, time)]
  {
    hide Exec, Applies, Reached, Recent, SeenOf;
    var c := Arrive(w, rule, t, e, time, env);
    OneStep(c, Cool(t, time), env);
    w2 := Next(c, Cool(t, time), env);
    Onward(w, c, w2, env);
  }

  /** A thread past the check stamps, commits and returns at once. */
  lemma Shoot(w: World, rule: Rule, t: nat, time: int, env: Env) returns (w2: World)
    requires w.shared.rules == [rule] && t < |w.threads| && w.threads[t].Passed? && w.threads[t].i == 0 && w.now <= time
    ensures Reaches(w, w2, env) && w2.now == time && w2.shared.rules == [rule]
    ensures |w2.log| == |w.log| + 1 && w2.log[..|w.log|] == w.log
    ensures w2.log[|w.log|].rule == rule.name && w2.log[|w.log|].time == time
    ensures w2.shared.last == w.shared.last[rule.name := time] && w2.threads == w.threads[t := Idle]
  {
    hide Exec;
    var a := Next(w, Stamp(t, time), env);
    OneStep(w, Stamp(t, time), env);
    w2 := Finish(a, rule, t, env);
    Onward(w, a, w2, env);
  }

  lemma Finish(w: World, rule: Rule, t: nat, env: Env) returns (w2: World)
    requires w.shared.rules == [rule] && t < |w.threads| && w.threads[t].Stamped? && w.threads[t].i == 0
    ensures Reaches(w, w2, env) && w2.now == w.now && w2.shared.rules == [rule]
    ensures |w2.log| == |w.log| + 1 && w2.log[..|w.log|] == w.log
    ensures w2.log[|w.log|].rule == rule.name && w2.log[|w.log|].time == w.threads[t].at
    ensures w2.shared.last == w.shared.last[rule.name := w.threads[t].at] && w2.threads == w.threads[t := Idle]
  {
    hide Exec;
    var a := Next(w, Commit(t), env);
    OneStep(w, Commit(t), env);
    OneStep(a, Return(t), env);
    w2 := Next(a, Return(t), env);
    Onward(w, a, w2, env);
  }

  /** The first `k` of the threads pass the cooldown check together. */
  lemma {:induction false} AllPass(rule: Rule, threads: nat, k: nat, e: Event, env: Env) returns (w: World)
    requires Applies(rule, e, env) && rule.body.threshold <= 1 && rule.body.window >= 0 && k <= threads
    ensures Reaches(Begin([rule], threads, e.timestamp), w, env) && w.now == e.timestamp
    ensures w.log == [] && w.shared.rules == [rule] && w.shared.last == map[] && |w.threads| == threads
    ensures forall t :: 0 <= t < threads ==> if t < k then w.threads[t].Passed? && w.threads[t].i == 0 else w.threads[t].Idle?
  {
    if k == 0 {
      w := Begin([rule], threads, e.timestamp);
      assert Exec(w, [], env) == Some(w);
    } else {
      hide Exec, Applies;
      var a := AllPass(rule, threads, k - 1, e, env);
      w := Approach(a, rule, k - 1, e, e.timestamp, env);
      Onward(Begin([rule], threads, e.timestamp), a, w, env);
    }
  }

  /** ... and then all fire, each at the same time. */
  lemma {:induction false} AllFire(rule: Rule, threads: nat, k: nat, e: Event, env: Env) returns (w: World)
    requires Applies(rule, e, env) && rule.body.threshold <= 1 && rule.body.window >= 0 && k <= threads
    ensures Reaches(Begin([rule], threads, e.timestamp), w, env) && w.now == e.timestamp
    ensures |w.log| == k && w.shared.rules == [rule] && |w.threads| == threads
    ensures forall j :: 0 <= j < k ==> w.log[j].rule == rule.name && w.log[j].time == e.timestamp
    ensures forall t :: k <= t < threads ==> w.threads[t].Passed? && w.threads[t].i == 0
  {
    hide Exec, Applies;
    if k == 0 {
      w := AllPass(rule, threads, threads, e, env);
    } else {
      var a := AllFire(rule, threads, k - 1, e, env);
      w := Shoot(a, rule, k - 1, e.timestamp, env);
      Onward(Begin([rule], threads, e.timestamp), a, w, env);
      forall j | 0 <= j < k ensures w.log[j].rule == rule.name && w.log[j].time == e.timestamp {
        if j < k - 1 {
          assert w.log[j] == w.log[..k - 1][j];
        }
      }
    }
  }

  lemma {:induction false} AllOf(n: nat, s: set<nat>)
    requires forall k: nat :: k in s <==> k < n
    ensures |s| == n
  {
    if n > 0 {
      AllOf(n - 1, s - {n - 1});
    } else {
      assert s == {};
    }
  }

  /** No smaller bound holds: for any number of threads some schedule in time order puts that
      many alerts of a rule into one cooldown. */
  lemma WindowBoundIsReached(rule: Rule, threads: nat, e: Event, env: Env) returns (w: World)
    requires Applies(rule, e, env) && rule.body.threshold <= 1 && rule.body.window >= 0 && rule.body.cooldown > 0
    ensures Reaches(Begin([rule], threads, e.timestamp), w, env) && InTimeOrder(w.log)
    ensures |Within(w.log, rule.name, e.timestamp, rule.body.cooldown)| == threads
  {
    w := AllFire(rule, threads, threads, e, env);
    AllOf(threads, Within(w.log, rule.name, e.timestamp, rule.body.cooldown));
  }

  /** Between reading an alert's time and committing it the lock is free. A thread that stops
      there writes an old time over a newer one in the cooldown table, and two threads get
      three alerts of a rule into one cooldown. */
  lemma StaleTimeBreaksBound(e: Event, env: Env) returns (w: World)
    requires e.timestamp == 100 && Applies(Named("r", true, Limits(1, 60000, 10)), e, env)
    ensures Reaches(Begin([Named("r", true, Limits(1, 60000, 10))], 2, 100), w, env)
    ensures !InTimeOrder(w.log) && |Within(w.log, "r", 109, 10)| == 3
  {
    hide Exec, Applies, Next, Enabled;
    var rule := Named("r", true, Limits(1, 60000, 10));
    var b := Begin([rule], 2, 100);
    var a1 := Approach(b, rule, 0, e, 100, env);
    var a2 := Approach(a1, rule, 1, e, 100, env);
    Onward(b, a1, a2, env);
    var a3 := StampOnly(a2, rule, 0, 100, env);
    Onward(b, a2, a3, env);
    var a4 := Shoot(a3, rule, 1, 109, env);
    Onward(b, a3, a4, env);
    var a5 := Finish(a4, rule, 0, env);
    Onward(b, a4, a5, env);
    var a6 := Approach(a5, rule, 0, e, 110, env);
    Onward(b, a5, a6, env);
    var a7 := Approach(a6, rule, 1, e, 110, env);
    Onward(b, a6, a7, env);
    var a8 := Shoot(a7, rule, 0, 110, env);
    Onward(b, a7, a8, env);
    w := Shoot(a8, rule, 1, 110, env);
    Onward(b, a8, w, env);
    assert w.log[..3] == a8.log && a8.log[..2] == a7.log == a5.log && a5.log[..1] == a4.log;
    assert w.log[0] == a8.log[0] == a5.log[0] == a4.log[0] && w.log[1] == a8.log[1] == a5.log[1] && w.log[2] == a8.log[2];
    assert Within(w.log, "r", 109, 10) == {0, 2, 3};
  }

  lemma StampOnly(w: World, rule: Rule, t: nat, time: int, env: Env) returns (w2: World)
    requires w.shared.rules == [rule] && t < |w.threads| && w.threads[t].Passed? && w.threads[t].i == 0 && w.now <= time
    ensures Reaches(w, w2, env) && w2.now == time && w2.shared.rules == [rule]
    ensures w2.log == w.log && w2.shared.last == w.shared.last && |w2.threads| == |w.threads|
    ensures w2.threads[t].Stamped? && w2.threads[t].i == 0 && w2.threads[t].at == time
    ensures forall u :: 0 <= u < |w.threads| && u != t ==> w2.threads[u] == w.threads[u]
  {
    OneStep(w, Stamp(t, time), env);
    w2 := Next(w, Stamp(t, time), env);
  }
}
