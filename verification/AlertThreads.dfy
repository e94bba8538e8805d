/** Several callers of the alert manager at once. A step is one critical section, or one
    reading of the clock outside the lock; any thread may take the next step. The rules stay
    as they are. */
module AlertThreads {
  import opened AlertHistory
  import opened AlertManager
  import opened Collections
  import opened Events
  import opened Rules
  import opened Strings

  /** Where a thread stands in process_event: at rule `i` of its copy of the rules. `seen` is
      how many alerts had been committed when the cooldown check let the thread pass, `at`
      the time by then. */
  datatype Phase =
    | Idle
    | Scanning(e: Event, i: nat)
    | Tracking(e: Event, i: nat)
    | Reaching(e: Event, i: nat)
    | Passed(e: Event, i: nat, seen: nat, at: int)
    | Stamped(e: Event, i: nat, seen: nat, at: int)

  datatype Origin = Origin(thread: nat, seen: nat)

  /** `log` holds all alerts ever committed, `who` who committed them. */
  datatype World = World(shared: Shared, threads: seq<Phase>, now: int, log: seq<Alert>, who: seq<Origin>)

  datatype Label =
    | Call(thread: nat, e: Event)
    | Skip(thread: nat)
    | Track(thread: nat)
    | Check(thread: nat, time: int)
    | Cool(thread: nat, time: int)
    | Stamp(thread: nat, time: int)
    | Commit(thread: nat)
    | Return(thread: nat)

  predicate Ticks(l: Label) { l.Check? || l.Cool? || l.Stamp? }

  predicate Enabled(w: World, l: Label, env: Env) {
    && l.thread < |w.threads|
    && (Ticks(l) ==> w.now <= l.time)
    && var p := w.threads[l.thread];
       match l
       case Call(_, _) => p.Idle?
       case Skip(_) => p.Scanning? && p.i < |w.shared.rules| && !Applies(w.shared.rules[p.i], p.e, env)
       case Track(_) => p.Scanning? && p.i < |w.shared.rules| && Applies(w.shared.rules[p.i], p.e, env)
       case Check(_, _) => p.Tracking? && p.i < |w.shared.rules|
       case Cool(_, _) => p.Reaching? && p.i < |w.shared.rules|
       case Stamp(_, _) => p.Passed? && p.i < |w.shared.rules|
       case Commit(_) => p.Stamped? && p.i < |w.shared.rules|
       case Return(_) => p.Scanning? && p.i == |w.shared.rules|
  }

  function Next(w: World, l: Label, env: Env): World
    requires Enabled(w, l, env)
  {
    var s, p := w.shared, w.threads[l.thread];
    match l
    case Call(t, e) => w.(threads := w.threads[t := Scanning(e, 0)])
    case Skip(t) => w.(threads := w.threads[t := Scanning(p.e, p.i + 1)])
    case Track(t) => w.(shared := Tracked(s, s.rules[p.i].name, p.e.timestamp), threads := w.threads[t := Tracking(p.e, p.i)])
    case Check(t, time) =>
      var s2 := Checked(s, s.rules[p.i], time);
      var p2 := if Reached(s2, s.rules[p.i]) then Reaching(p.e, p.i) else Scanning(p.e, p.i + 1);
      w.(shared := s2, threads := w.threads[t := p2], now := time)
    case Cool(t, time) =>
      var name := s.rules[p.i].name;
      var now := if LooksAtClock(s, name) then time else w.now;
      var p2 := if Cooling(s, name, time) then Scanning(p.e, p.i + 1) else Passed(p.e, p.i, |w.log|, now);
      w.(threads := w.threads[t := p2], now := now)
    case Stamp(t, time) => w.(threads := w.threads[t := Stamped(p.e, p.i, p.seen, time)], now := time)
    case Commit(t) =>
      var a := NewAlert(s, s.rules[p.i], p.e, p.at, env);
      w.(shared := Fired(s, a), threads := w.threads[t := Scanning(p.e, p.i + 1)],
         log := w.log + [a], who := w.who + [Origin(t, p.seen)])
    case Return(t) => w.(threads := w.threads[t := Idle])
  }

  /** A schedule is any sequence of steps that are enabled when taken. */
  function Exec(w: World, ls: seq<Label>, env: Env): Option<World>
    decreases |ls|
  {
    if ls == [] then Some(w)
    else if !Enabled(w, ls[0], env) then None
    else Exec(Next(w, ls[0], env), ls[1..], env)
  }

  function Begin(rules: seq<Rule>, threads: nat, now: int): World {
    World(Start(rules), seq(threads, _ => Idle), now, [], [])
  }

  // ------------------------------------------------------------ the invariant

  /** An alert of rule `name` at `time` comes a cooldown after the last one of `log`. */
  ghost predicate Rested(rules: seq<Rule>, log: seq<Alert>, name: string, time: int) {
    var last, rule := LastTime(log, name), FindRule(rules, name);
    last.Some? && rule.Some? ==> last.value + rule.value.body.cooldown <= time
  }

  /** Thread `t` committed nothing after the first `seen` alerts. */
  ghost predicate NoneSince(who: seq<Origin>, t: nat, seen: nat) {
    forall k :: seen <= k < |who| ==> who[k].thread != t
  }

  /** None of the alerts is later than `time`. */
  ghost predicate AllBy(log: seq<Alert>, time: int) { forall j :: 0 <= j < |log| ==> log[j].time <= time }

  ghost predicate PhaseOk(w: World, t: nat)
    requires t < |w.threads|
  {
    var p := w.threads[t];
    p.Passed? || p.Stamped? ==>
      && p.i < |w.shared.rules|
      && p.seen <= |w.log| == |w.who| && p.at <= w.now
      && NoneSince(w.who, t, p.seen) && AllBy(w.log[..p.seen], p.at)
      && Rested(w.shared.rules, w.log[..p.seen], w.shared.rules[p.i].name, p.at)
  }

  ghost predicate EntryOk(w: World, k: nat)
    requires k < |w.log| == |w.who|
  {
    var o := w.who[k];
    && o.thread < |w.threads| && o.seen <= k && w.log[k].time <= w.now
    && NoneSince(w.who[..k], o.thread, o.seen) && AllBy(w.log[..o.seen], w.log[k].time)
    && Rested(w.shared.rules, w.log[..o.seen], w.log[k].rule, w.log[k].time)
  }

  ghost predicate PhasesOk(w: World) { forall t :: 0 <= t < |w.threads| ==> PhaseOk(w, t) }

  ghost predicate EntriesOk(w: World) { |w.who| == |w.log| && forall k :: 0 <= k < |w.log| ==> EntryOk(w, k) }

  ghost predicate Inv(w: World) { Agrees(w.shared, w.log) && EntriesOk(w) && PhasesOk(w) }

  lemma BeginInv(rules: seq<Rule>, threads: nat, now: int)
    ensures Inv(Begin(rules, threads, now))
  {
    hide Agrees, Rested, NoneSince, AllBy;
    BeginAgrees(rules);
    var w := Begin(rules, threads, now);
    forall t | 0 <= t < |w.threads| ensures PhaseOk(w, t) {
      assert w.threads[t] == Idle;
    }
  }

  lemma BeginAgrees(rules: seq<Rule>)
    ensures Agrees(Start(rules), [])
  {
  }

  lemma {:induction false} FindsName(rules: seq<Rule>, i: nat)
    requires i < |rules|
    ensures FindRule(rules, rules[i].name).Some?
  {
    if i > 0 {
      FindsName(rules[1..], i - 1);
    }
  }

  /** Steps that commit nothing: only the clock, the windows and one phase move. */
  lemma QuietPhases(w: World, w2: World, t: nat)
    requires EntriesOk(w) && PhasesOk(w) && t < |w.threads| == |w2.threads|
    requires w2.log == w.log && w2.who == w.who && w2.shared.rules == w.shared.rules && w.now <= w2.now
    requires forall u :: 0 <= u < |w.threads| && u != t ==> w2.threads[u] == w.threads[u]
    requires PhaseOk(w2, t)
    ensures PhasesOk(w2)
  {
    hide NoneSince, Rested, AllBy;
    forall u | 0 <= u < |w2.threads| ensures PhaseOk(w2, u) {
      if u != t {
        assert PhaseOk(w, u);
      }
    }
  }

  lemma CommitPhase(w: World, w2: World, t: nat, u: nat, a: Alert, seen: nat)
    requires t < |w.threads| == |w2.threads| && u < |w.threads| && u != t && PhaseOk(w, u)
    requires w2.log == w.log + [a] && w2.who == w.who + [Origin(t, seen)] && |w.log| == |w.who|
    requires w2.shared.rules == w.shared.rules && w2.now == w.now && w2.threads[u] == w.threads[u]
    ensures PhaseOk(w2, u)
  {
    hide Rested, AllBy;
    var p := w.threads[u];
    if p.Passed? || p.Stamped? {
      assert w2.log[..p.seen] == w.log[..p.seen];
    }
  }

  lemma CommitEntry(w: World, w2: World, k: nat, a: Alert, o: Origin)
    requires k < |w.log| == |w.who| && EntryOk(w, k) && |w.threads| == |w2.threads|
    requires w2.log == w.log + [a] && w2.who == w.who + [o]
    requires w2.shared.rules == w.shared.rules && w2.now == w.now
    ensures EntryOk(w2, k)
  {
    hide Rested, NoneSince, AllBy;
    assert w2.log[..w.who[k].seen] == w.log[..w.who[k].seen];
    assert w2.who[..k] == w.who[..k];
  }

  /** A thread that the cooldown check lets pass is rested. */
  lemma PassRested(s: Shared, log: seq<Alert>, i: nat, time: int, now: int)
    requires Agrees(s, log) && i < |s.rules| && !Cooling(s, s.rules[i].name, time)
    requires LooksAtClock(s, s.rules[i].name) ==> now == time
    ensures Rested(s.rules, log, s.rules[i].name, now)
  {
    FindsName(s.rules, i);
    var name := s.rules[i].name;
    assert (if name in s.last then Some(s.last[name]) else None) == LastTime(log, name);
  }

  lemma RestedLater(rules: seq<Rule>, log: seq<Alert>, name: string, time: int, later: int)
    requires Rested(rules, log, name, time) && time <= later
    ensures Rested(rules, log, name, later)
  {
  }

  lemma ByLater(log: seq<Alert>, time: int, later: int)
    requires AllBy(log, time) && time <= later
    ensures AllBy(log, later)
  {
  }

  lemma EntriesBy(w: World, time: int)
    requires EntriesOk(w) && w.now <= time
    ensures AllBy(w.log, time)
  {
    forall k | 0 <= k < |w.log| ensures w.log[k].time <= time {
      assert EntryOk(w, k);
    }
  }

  lemma StepAgrees(w: World, l: Label, env: Env)
    requires Agrees(w.shared, w.log) && Enabled(w, l, env)
    ensures var w2 := Next(w, l, env); Agrees(w2.shared, w2.log)
  {
    hide Agrees, Fired, Recent, Reached, Cooling, LooksAtClock, Applies;
    var w2 := Next(w, l, env);
    if l.Commit? {
      FiringAgrees(w.shared, w.log, w2.log[|w.log|]);
    } else {
      SameLog(w.shared, w2.shared, w.log);
    }
  }

  lemma StepEntries(w: World, l: Label, env: Env)
    requires EntriesOk(w) && PhasesOk(w) && Enabled(w, l, env)
    ensures EntriesOk(Next(w, l, env))
  {
    hide Rested, NoneSince, AllBy, Fired, Applies, Recent, Reached, Cooling, LooksAtClock;
    var w2, t := Next(w, l, env), l.thread;
    if l.Commit? {
      var p := w.threads[t];
      var a := w2.log[|w.log|];
      assert PhaseOk(w, t);
      FiringKeepsRules(w.shared, a);
      forall k | 0 <= k < |w2.log| ensures EntryOk(w2, k) {
        if k < |w.log| {
          assert EntryOk(w, k);
          CommitEntry(w, w2, k, a, Origin(t, p.seen));
        } else {
          assert w2.log[..p.seen] == w.log[..p.seen];
          assert w2.who[..k] == w.who;
        }
      }
    } else {
      forall k | 0 <= k < |w2.log| ensures EntryOk(w2, k) {
        assert EntryOk(w, k);
      }
    }
  }

  lemma StepPhases(w: World, l: Label, env: Env)
    requires Inv(w) && Enabled(w, l, env)
    ensures PhasesOk(Next(w, l, env))
  {
    hide Agrees, LastTime, Rested, AllBy, Fired, Applies, Recent, Reached, Cooling, LooksAtClock, EntryOk;
    var t, w2, p := l.thread, Next(w, l, env), w.threads[l.thread];
    assert PhaseOk(w, t);
    match l
    case Commit(_) =>
      var a := w2.log[|w.log|];
      FiringKeepsRules(w.shared, a);
      forall u | 0 <= u < |w2.threads| ensures PhaseOk(w2, u) {
        if u != t {
          assert PhaseOk(w, u);
          CommitPhase(w, w2, t, u, a, p.seen);
        }
      }
    case Cool(_, time) =>
      if w2.threads[t].Passed? {
        PassRested(w.shared, w.log, p.i, time, w2.now);
        EntriesBy(w, w2.now);
        assert w.log[..|w.log|] == w.log;
      }
      QuietPhases(w, w2, t);
    case Stamp(_, time) =>
      RestedLater(w.shared.rules, w.log[..p.seen], w.shared.rules[p.i].name, p.at, time);
      assert AllBy(w.log[..p.seen], time) by { ByLater(w.log[..p.seen], p.at, time); }
      QuietPhases(w, w2, t);
    case Call(_, _) => QuietPhases(w, w2, t);
    case Skip(_) => QuietPhases(w, w2, t);
    case Track(_) => QuietPhases(w, w2, t);
    case Check(_, _) => QuietPhases(w, w2, t);
    case Return(_) => QuietPhases(w, w2, t);
  }

  lemma StepKeeps(w: World, l: Label, env: Env)
    requires Enabled(w, l, env)
    ensures var w2 := Next(w, l, env); |w2.threads| == |w.threads| && w2.shared.rules == w.shared.rules
  {
  }

  lemma {:induction false} RunInv(w: World, ls: seq<Label>, env: Env)
    requires Inv(w) && Exec(w, ls, env).Some?
    ensures var w2 := Exec(w, ls, env).value;
            Inv(w2) && |w2.threads| == |w.threads| && w2.shared.rules == w.shared.rules
    decreases |ls|
  {
    hide Next, Enabled, Agrees, EntriesOk, PhasesOk;
    if ls != [] {
      StepAgrees(w, ls[0], env);
      StepEntries(w, ls[0], env);
      StepPhases(w, ls[0], env);
      StepKeeps(w, ls[0], env);
      RunInv(Next(w, ls[0], env), ls[1..], env);
    }
  }

  // ------------------------------------------------------------ what every schedule keeps

  /** Under every interleaving: alert ids count up from one without a gap, the history is the
      last at most 10000 alerts in commit order, and no alert has been passed by a cooldown
      check that saw an alert of the same rule less than the cooldown before it. */
  lemma EverySchedule(rules: seq<Rule>, threads: nat, now: int, ls: seq<Label>, env: Env)
    requires Exec(Begin(rules, threads, now), ls, env).Some?
    ensures var w := Exec(Begin(rules, threads, now), ls, env).value;
            && w.shared.alerts == Last(w.log, 10000)
            && (forall k :: 0 <= k < |w.log| ==> w.log[k].id == k + 1)
            && |w.who| == |w.log|
            && (forall k :: 0 <= k < |w.log| ==>
                  && w.who[k].thread < threads && w.who[k].seen <= k
                  && NoneSince(w.who[..k], w.who[k].thread, w.who[k].seen)
                  && Rested(rules, w.log[..w.who[k].seen], w.log[k].rule, w.log[k].time))
  {
    hide Rested, NoneSince;
    BeginInv(rules, threads, now);
    RunInv(Begin(rules, threads, now), ls, env);
    var w := Exec(Begin(rules, threads, now), ls, env).value;
    forall k | 0 <= k < |w.log|
      ensures w.who[k].thread < threads && w.who[k].seen <= k
      ensures NoneSince(w.who[..k], w.who[k].thread, w.who[k].seen)
      ensures Rested(rules, w.log[..w.who[k].seen], w.log[k].rule, w.log[k].time)
    {
      assert EntryOk(w, k);
    }
  }

  // ------------------------------------------------------------ the window bound

  /** Alerts were committed in the order of their times. */
  ghost predicate InTimeOrder(log: seq<Alert>) { forall j, k :: 0 <= j <= k < |log| ==> log[j].time <= log[k].time }

  /** The alerts of one rule were. */
  ghost predicate InTimeOrderOf(log: seq<Alert>, name: string) {
    forall j, k :: 0 <= j <= k < |log| && log[j].rule == name == log[k].rule ==> log[j].time <= log[k].time
  }

  lemma {:induction false} LastTimeAtLeast(log: seq<Alert>, j: nat)
    requires j < |log| && InTimeOrderOf(log, log[j].rule)
    ensures LastTime(log, log[j].rule).Some? && LastTime(log, log[j].rule).value >= log[j].time
  {
    if log[|log| - 1].rule != log[j].rule {
      LastTimeAtLeast(log[..|log| - 1], j);
    }
  }

  /** Two alerts of one rule by one thread are a cooldown apart. */
  lemma SameThreadApart(w: World, j: nat, k: nat)
    requires Inv(w) && j < k < |w.log| && InTimeOrderOf(w.log, w.log[k].rule)
    requires w.log[j].rule == w.log[k].rule && w.who[j].thread == w.who[k].thread
    requires FindRule(w.shared.rules, w.log[k].rule).Some?
    ensures w.log[j].time + FindRule(w.shared.rules, w.log[k].rule).value.body.cooldown <= w.log[k].time
  {
    hide Agrees, LastTime, FindRule;
    assert EntryOk(w, k);
    var seen := w.who[k].seen;
    assert w.who[..k][j] == w.who[j];
    LastTimeAtLeast(w.log[..seen], j);
  }

  /** The alerts of a rule with a time in [from, from + length). */
  ghost function Within(log: seq<Alert>, name: string, from: int, length: int): set<nat> {
    set k: nat | k < |log| && log[k].rule == name && from <= log[k].time < from + length
  }

  lemma Pigeons(s: set<nat>, who: seq<Origin>, threads: nat)
    requires forall k :: k in s ==> k < |who| && who[k].thread < threads
    requires forall j, k :: j in s && k in s && j != k ==> who[j].thread != who[k].thread
    ensures |s| <= threads
  {
    var names := set k | k in s :: who[k].thread;
    SameSize(s, names, who);
    UpTo(names, threads);
  }

  lemma {:induction false} SameSize(s: set<nat>, names: set<nat>, who: seq<Origin>)
    requires forall k :: k in s ==> k < |who|
    requires forall j, k :: j in s && k in s && j != k ==> who[j].thread != who[k].thread
    requires names == set k | k in s :: who[k].thread
    ensures |s| == |names|
  {
    if s != {} {
      var k :| k in s;
      var rest := set j | j in s - {k} :: who[j].thread;
      SameSize(s - {k}, rest, who);
      assert names == rest + {who[k].thread};
    }
  }

  lemma {:induction false} UpTo(names: set<nat>, n: nat)
    requires forall k :: k in names ==> k < n
    ensures |names| <= n
  {
    if names != {} && n > 0 {
      UpTo(names - {n - 1}, n - 1);
    }
  }

  /** With T threads, whenever the alerts of a rule come in time order, no window of the length of
      its cooldown, wherever it starts, holds more than T of them. */
  lemma WindowBound(rules: seq<Rule>, threads: nat, now: int, ls: seq<Label>, env: Env, rule: Rule, from: int)
    requires Exec(Begin(rules, threads, now), ls, env).Some?
    requires FindRule(rules, rule.name) == Some(rule)
    ensures var w := Exec(Begin(rules, threads, now), ls, env).value;
            InTimeOrderOf(w.log, rule.name) ==> |Within(w.log, rule.name, from, rule.body.cooldown)| <= threads
  {
    hide InTimeOrderOf, Agrees, FindRule, Exec;
    BeginInv(rules, threads, now);
    RunInv(Begin(rules, threads, now), ls, env);
    var w := Exec(Begin(rules, threads, now), ls, env).value;
    if InTimeOrderOf(w.log, rule.name) {
      var s := Within(w.log, rule.name, from, rule.body.cooldown);
      forall j, k | j in s && k in s && j != k ensures w.who[j].thread != w.who[k].thread {
        if w.who[j].thread == w.who[k].thread {
          SameThreadApart(w, if j < k then j else k, if j < k then k else j);
        }
      }
      forall k | k in s ensures w.who[k].thread < threads {
        assert EntryOk(w, k);
      }
      Pigeons(s, w.who, threads);
    }
  }

  // ------------------------------------------------------------ when alerts come in time order

  /** Nobody steps between reading an alert's time and committing it. */
  ghost predicate Atomic(ls: seq<Label>) {
    forall i :: 0 <= i < |ls| - 1 && ls[i].Stamp? ==> ls[i + 1] == Commit(ls[i].thread)
  }

  ghost predicate NobodyStamped(w: World) { forall t :: 0 <= t < |w.threads| ==> !w.threads[t].Stamped? }

  lemma {:induction false} AtomicInOrder(w: World, ls: seq<Label>, env: Env)
    requires Inv(w) && InTimeOrder(w.log) && NobodyStamped(w) && Atomic(ls) && Exec(w, ls, env).Some?
    ensures InTimeOrder(Exec(w, ls, env).value.log)
    decreases |ls|
  {
    hide Agrees, LastTime, Applies, Reached, Recent, Cooling, LooksAtClock, PhaseOk, Fired;
    if ls != [] {
      var w2 := Next(w, ls[0], env);
      StepAgrees(w, ls[0], env);
      StepEntries(w, ls[0], env);
      StepPhases(w, ls[0], env);
      if !ls[0].Stamp? {
        AtomicInOrder(w2, ls[1..], env);
      } else if |ls| == 1 {
        assert Exec(w2, [], env) == Some(w2);
      } else {
        var rest := ls[1..];
        assert rest[0] == ls[1] == Commit(ls[0].thread);
        var w3 := Next(w2, rest[0], env);
        StepAgrees(w2, rest[0], env);
        StepEntries(w2, rest[0], env);
        StepPhases(w2, rest[0], env);
        forall k | 0 <= k < |w.log| ensures w.log[k].time <= w.now {
          assert EntryOk(w, k);
        }
        assert w2.log == w.log && w3.log[..|w.log|] == w.log && |w3.log| == |w.log| + 1;
        assert w3.log[|w.log|].time == ls[0].time >= w.now;
        AtomicInOrder(w3, rest[1..], env);
      }
    }
  }

  /** If the time of an alert is read and committed in one go, the bound holds unconditionally. */
  lemma AtomicWindowBound(rules: seq<Rule>, threads: nat, now: int, ls: seq<Label>, env: Env, rule: Rule, from: int)
    requires Exec(Begin(rules, threads, now), ls, env).Some? && Atomic(ls)
    requires FindRule(rules, rule.name) == Some(rule)
    ensures var w := Exec(Begin(rules, threads, now), ls, env).value;
            InTimeOrder(w.log) && |Within(w.log, rule.name, from, rule.body.cooldown)| <= threads
  {
    BeginInv(rules, threads, now);
    AtomicInOrder(Begin(rules, threads, now), ls, env);
    WindowBound(rules, threads, now, ls, env, rule, from);
  }

  /** One thread alone always reads and commits in one go ... */
  lemma {:induction false} AloneIsAtomic(w: World, ls: seq<Label>, env: Env)
    requires |w.threads| == 1 && Exec(w, ls, env).Some?
    ensures Atomic(ls)
    decreases |ls|
  {
    hide Fired, Applies, Reached, Cooling, LooksAtClock, Checked, Tracked, NewAlert;
    if |ls| > 1 {
      var w2 := Next(w, ls[0], env);
      AloneIsAtomic(w2, ls[1..], env);
      assert Enabled(w2, ls[1..][0], env);
      forall i | 0 <= i < |ls| - 1 && ls[i].Stamp? ensures ls[i + 1] == Commit(ls[i].thread) {
        if i > 0 {
          assert ls[1..][i - 1] == ls[i] && ls[1..][i] == ls[i + 1];
        }
      }
    }
  }

  /** ... so for a single caller any two alerts of a rule are at least the cooldown apart. */
  lemma AloneApart(rules: seq<Rule>, now: int, ls: seq<Label>, env: Env, rule: Rule, j: nat, k: nat)
    requires Exec(Begin(rules, 1, now), ls, env).Some? && FindRule(rules, rule.name) == Some(rule)
    requires j < k < |Exec(Begin(rules, 1, now), ls, env).value.log|
    ensures var log := Exec(Begin(rules, 1, now), ls, env).value.log;
            log[j].rule == rule.name == log[k].rule ==> log[j].time + rule.body.cooldown <= log[k].time
  {
    hide Exec, Agrees, FindRule;
    var b := Begin(rules, 1, now);
    BeginInv(rules, 1, now);
    AloneIsAtomic(b, ls, env);
    AtomicInOrder(b, ls, env);
    RunInv(b, ls, env);
    var w := Exec(b, ls, env).value;
    assert EntryOk(w, j) && EntryOk(w, k);
    if w.log[j].rule == rule.name == w.log[k].rule {
      SameThreadApart(w, j, k);
    }
  }
}
