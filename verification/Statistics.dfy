/** The statistics collector: running counters and time buckets that stand in for the list of
    events recorded. Times are milliseconds since the epoch. */
module Statistics {
  import opened Collections
  import opened Events

  /** Division as the code does it, toward zero. */
  function Quotient(a: int, b: int): int
    requires b > 0
  {
    if a >= 0 then a / b else -((-a) / b)
  }

  const MINUTE := 60000
  const HOUR := 3600000

  function Minute(t: int): int { Quotient(t, MINUTE) }
  function Hour(t: int): int { Quotient(t, HOUR) }
  function MinuteCutoff(now: int): int { Quotient(now - 7200000, MINUTE) }
  function HourCutoff(now: int): int { Quotient(now - 2592000000, HOUR) }

  function Bumped<K>(m: map<K, nat>, k: K): map<K, nat> { m[k := if k in m then m[k] + 1 else 1] }

  lemma SomeKey(keys: set<int>)
    ensures keys == {} || exists k: int :: k in keys
  {
    if !(exists k: int :: k in keys) {
      assert forall k: int :: k !in keys;
    }
  }

  function From(m: map<int, nat>, cutoff: int): map<int, nat> { map k | k in m && k >= cutoff :: m[k] }

  function Between(m: map<int, nat>, lo: int, hi: int): map<int, nat> { map k | k in m && lo <= k <= hi :: m[k] }

  ghost function Sum<K(!new)>(m: map<K, nat>): nat {
    if m == map[] then 0 else var k :| k in m; m[k] + Sum(m - {k})
  }

  lemma {:induction false} SumWithout<K(!new)>(m: map<K, nat>, k: K)
    requires k in m
    ensures Sum(m) == m[k] + Sum(m - {k})
    decreases |m|
  {
    var c :| c in m && Sum(m) == m[c] + Sum(m - {c});
    if c != k {
      SumWithout(m - {c}, k);
      SumWithout(m - {k}, c);
      assert m - {c} - {k} == m - {k} - {c};
    }
  }

  lemma SumBumped<K(!new)>(m: map<K, nat>, k: K)
    ensures Sum(Bumped(m, k)) == Sum(m) + 1
  {
    var m2 := Bumped(m, k);
    SumWithout(m2, k);
    assert m2 - {k} == m - {k};
    if k in m {
      SumWithout(m, k);
    } else {
      assert m - {k} == m;
    }
  }

  const MINUTES_KEPT := 120

  datatype Tables = Tables(
    total: nat, categories: map<Category, nat>, types: map<EventType, nat>,
    sources: map<string, nat>, targets: map<string, nat>, minutes: map<int, nat>, hours: map<int, nat>)

  function Zero(): map<Category, nat> {
    map[Filesystem := 0, Process := 0, Network := 0, SystemConfig := 0, Unknown := 0]
  }

  function Fresh(): Tables { Tables(0, Zero(), map[], map[], map[], map[], map[]) }

  function Added(s: Tables, e: Event): Tables {
    Tables(s.total + 1, Bumped(s.categories, e.category), Bumped(s.types, e.kind), Bumped(s.sources, e.source),
           Bumped(s.targets, e.target), Bumped(s.minutes, Minute(e.timestamp)), Bumped(s.hours, Hour(e.timestamp)))
  }

  function Pruned(s: Tables, now: int): Tables {
    s.(minutes := From(s.minutes, MinuteCutoff(now)), hours := From(s.hours, HourCutoff(now)))
  }

  predicate Full(s: Tables) { |s.minutes| > MINUTES_KEPT }

  function Recorded(s: Tables, e: Event, now: int): Tables {
    var s2 := Added(s, e);
    if Full(s2) then Pruned(s2, now) else s2
  }

  function Cleared(s: Tables): Tables { Fresh().(categories := map k | k in s.categories :: 0) }

  class Collector {
    var total: nat
    var categories: map<Category, nat>
    var types: map<EventType, nat>
    var sources: map<string, nat>
    var targets: map<string, nat>
    var minutes: map<int, nat>
    var hours: map<int, nat>

    ghost function State(): Tables
      reads this
    {
      Tables(total, categories, types, sources, targets, minutes, hours)
    }

    constructor ()
      ensures State() == Fresh()
    {
      total, categories, types, sources, targets, minutes, hours := 0, Zero(), map[], map[], map[], map[], map[];
    }

    /** `now` is the clock as the pruning reads it. */
    method Record(e: Event, now: int)
      modifies this
      ensures State() == Recorded(old(State()), e, now)
    {
      hide Minute, Hour, Bumped, From, MinuteCutoff, HourCutoff;
      total := total + 1;
      categories := Bumped(categories, e.category);
      types := Bumped(types, e.kind);
      sources := Bumped(sources, e.source);
      targets := Bumped(targets, e.target);
      minutes := Bumped(minutes, Minute(e.timestamp));
      hours := Bumped(hours, Hour(e.timestamp));
      if |minutes| > MINUTES_KEPT { PruneTimeBuckets(now); }
    }

    method PruneTimeBuckets(now: int)
      modifies this`minutes, this`hours
      ensures State() == Pruned(old(State()), now)
    {
      minutes := EraseBelow(minutes, MinuteCutoff(now));
      hours := EraseBelow(hours, HourCutoff(now));
    }

    static method EraseBelow(m: map<int, nat>, cutoff: int) returns (kept: map<int, nat>)
      ensures kept == From(m, cutoff)
    {
      kept := m;
      var todo: set<int> := m.Keys;
      while |todo| > 0
        invariant todo <= m.Keys
        invariant kept == map k | k in m && (k in todo || k >= cutoff) :: m[k]
        decreases |todo|
      {
        SomeKey(todo);
        var k: int :| k in todo;
        if k < cutoff { kept := kept - {k}; }
        todo := todo - {k};
      }
    }

    method Reset()
      modifies this
      ensures State() == Cleared(old(State()))
    {
      total, categories := 0, map k | k in categories :: 0;
      types, sources, targets, minutes, hours := map[], map[], map[], map[], map[];
    }

    method CountInRange(from: int, to: int) returns (count: nat)
      ensures count == Sum(Between(minutes, Minute(from), Minute(to)))
    {
      var lo, hi := Minute(from), Minute(to);
      count := 0;
      var todo: set<int> := minutes.Keys;
      ghost var seen: map<int, nat> := map[];
      while |todo| > 0
        invariant todo <= minutes.Keys
        invariant seen == map k | k in minutes && k !in todo && lo <= k <= hi :: minutes[k]
        invariant count == Sum(seen)
        decreases |todo|
      {
        SomeKey(todo);
        var k: int :| k in todo;
        todo := todo - {k};
        if k >= lo && k <= hi {
          count := count + minutes[k];
          ghost var more := seen[k := minutes[k]];
          SumWithout(more, k);
          assert more - {k} == seen;
          seen := more;
        }
      }
      assert seen == Between(minutes, lo, hi);
    }
  }

  // ------------------------------------------------------------ whole runs

  datatype Op = Rec(e: Event, now: int) | Wipe

  function Apply(s: Tables, op: Op): Tables { if op.Rec? then Recorded(s, op.e, op.now) else Cleared(s) }

  function Run(ops: seq<Op>): Tables { if ops == [] then Fresh() else Apply(Run(ops[..|ops| - 1]), ops[|ops| - 1]) }

  /** The events recorded since the last reset. */
  function Since(ops: seq<Op>): seq<Event> {
    if ops == [] then []
    else
      var op := ops[|ops| - 1];
      if op.Rec? then Since(ops[..|ops| - 1]) + [op.e] else []
  }

  /** How many events fall into the buckets `lo` to `hi` of a table with buckets `unit` long. */
  function InRange(es: seq<Event>, unit: int, lo: int, hi: int): nat
    requires unit > 0
  {
    if es == [] then 0
    else InRange(es[..|es| - 1], unit, lo, hi) + (if lo <= Quotient(es[|es| - 1].timestamp, unit) <= hi then 1 else 0)
  }

  /** Every prune since the last reset cut the minutes at or before `lo`. */
  predicate NoPruneAbove(ops: seq<Op>, lo: int) {
    ops == [] || var front, op := ops[..|ops| - 1], ops[|ops| - 1];
                 op.Wipe? || (NoPruneAbove(front, lo) && (Full(Added(Run(front), op.e)) ==> MinuteCutoff(op.now) <= lo))
  }

  /** The same for the hours. */
  predicate NoHourPruneAbove(ops: seq<Op>, lo: int) {
    ops == [] || var front, op := ops[..|ops| - 1], ops[|ops| - 1];
                 op.Wipe? || (NoHourPruneAbove(front, lo) && (Full(Added(Run(front), op.e)) ==> HourCutoff(op.now) <= lo))
  }

  lemma {:induction false} SumZero<K(!new)>(m: map<K, nat>)
    requires forall k :: k in m ==> m[k] == 0
    ensures Sum(m) == 0
    decreases |m|
  {
    if m != map[] {
      var k :| k in m;
      SumWithout(m, k);
      SumZero(m - {k});
    }
  }

  /** After any records, prunes and resets each of the four tables sums to the total, which is
      the number of events since the last reset. */
  lemma {:induction false} TablesSumToTotal(ops: seq<Op>)
    ensures var s := Run(ops);
            s.total == |Since(ops)| == Sum(s.categories) == Sum(s.types) == Sum(s.sources) == Sum(s.targets)
  {
    hide Full, Bumped, Minute, Hour;
    if ops == [] {
      SumZero(Zero());
    } else {
      var front, op := ops[..|ops| - 1], ops[|ops| - 1];
      TablesSumToTotal(front);
      var s := Run(front);
      if op.Rec? {
        SumBumped(s.categories, op.e.category);
        SumBumped(s.types, op.e.kind);
        SumBumped(s.sources, op.e.source);
        SumBumped(s.targets, op.e.target);
      } else {
        SumZero(Cleared(s).categories);
      }
    }
  }

  function At<K>(m: map<K, nat>, k: K): nat { if k in m then m[k] else 0 }

  function CountIf(es: seq<Event>, p: Event -> bool): nat {
    if es == [] then 0 else CountIf(es[..|es| - 1], p) + (if p(es[|es| - 1]) then 1 else 0)
  }

  function OfCategory(c: Category): Event -> bool { (e: Event) => e.category == c }
  function OfType(t: EventType): Event -> bool { (e: Event) => e.kind == t }
  function FromSource(source: string): Event -> bool { (e: Event) => e.source == source }
  function OnTarget(target: string): Event -> bool { (e: Event) => e.target == target }

  lemma BumpCounts<K>(m: map<K, nat>, bumped: K, k: K, es: seq<Event>, e: Event, p: Event -> bool)
    requires At(m, k) == CountIf(es, p) && (p(e) <==> bumped == k)
    ensures At(Bumped(m, bumped), k) == CountIf(es + [e], p)
  {
    assert (es + [e])[..|es|] == es;
  }

  ghost predicate EntriesAre(s: Tables, es: seq<Event>, c: Category, t: EventType, source: string, target: string) {
    && At(s.categories, c) == CountIf(es, OfCategory(c)) && At(s.types, t) == CountIf(es, OfType(t))
    && At(s.sources, source) == CountIf(es, FromSource(source)) && At(s.targets, target) == CountIf(es, OnTarget(target))
  }

  lemma RecordedEntries(s: Tables, es: seq<Event>, e: Event, now: int, c: Category, t: EventType, source: string, target: string)
    requires EntriesAre(s, es, c, t, source, target)
    ensures EntriesAre(Recorded(s, e, now), es + [e], c, t, source, target)
  {
    hide At, Bumped, CountIf, Full, From, Minute, Hour;
    BumpCounts(s.categories, e.category, c, es, e, OfCategory(c));
    BumpCounts(s.types, e.kind, t, es, e, OfType(t));
    BumpCounts(s.sources, e.source, source, es, e, FromSource(source));
    BumpCounts(s.targets, e.target, target, es, e, OnTarget(target));
  }

  lemma ClearedEntries(s: Tables, c: Category, t: EventType, source: string, target: string)
    ensures EntriesAre(Cleared(s), [], c, t, source, target) && EntriesAre(Fresh(), [], c, t, source, target)
  {
    hide OfCategory, OfType, FromSource, OnTarget;
  }

  /** Each entry of each table is the number of events since the last reset with that key. */
  lemma {:induction false} EntriesCount(ops: seq<Op>, c: Category, t: EventType, source: string, target: string)
    ensures EntriesAre(Run(ops), Since(ops), c, t, source, target)
  {
    hide EntriesAre, Recorded, Cleared;
    if ops == [] {
      ClearedEntries(Fresh(), c, t, source, target);
    } else {
      var front, op := ops[..|ops| - 1], ops[|ops| - 1];
      if op.Rec? {
        EntriesCount(front, c, t, source, target);
        RecordedEntries(Run(front), Since(front), op.e, op.now, c, t, source, target);
      } else {
        ClearedEntries(Run(front), c, t, source, target);
      }
    }
  }

  lemma BetweenBumped(m: map<int, nat>, k: int, lo: int, hi: int)
    ensures Sum(Between(Bumped(m, k), lo, hi)) == Sum(Between(m, lo, hi)) + (if lo <= k <= hi then 1 else 0)
  {
    if lo <= k <= hi {
      assert Between(Bumped(m, k), lo, hi) == Bumped(Between(m, lo, hi), k);
      SumBumped(Between(m, lo, hi), k);
    } else {
      assert Between(Bumped(m, k), lo, hi) == Between(m, lo, hi);
    }
  }

  lemma RecordedBetween(s: Tables, e: Event, now: int, lo: int, hi: int)
    requires Full(Added(s, e)) ==> MinuteCutoff(now) <= lo
    ensures Sum(Between(Recorded(s, e, now).minutes, lo, hi))
            == Sum(Between(s.minutes, lo, hi)) + (if lo <= Minute(e.timestamp) <= hi then 1 else 0)
  {
    hide Full, Minute, Bumped, MinuteCutoff, HourCutoff, Sum;
    BetweenBumped(s.minutes, Minute(e.timestamp), lo, hi);
    var m := Added(s, e).minutes;
    if Full(Added(s, e)) {
      assert Between(From(m, MinuteCutoff(now)), lo, hi) == Between(m, lo, hi);
    }
  }

  /** The range count is the number of events recorded with a minute in the range, for every
      range that starts at or above all cutoffs pruned at. */
  lemma {:induction false} CountsInRange(ops: seq<Op>, lo: int, hi: int)
    requires NoPruneAbove(ops, lo)
    ensures Sum(Between(Run(ops).minutes, lo, hi)) == InRange(Since(ops), MINUTE, lo, hi)
  {
    hide Full, Added, Recorded, Quotient;
    if ops == [] || ops[|ops| - 1].Wipe? {
      assert Between(map[], lo, hi) == map[];
    } else {
      var front, op := ops[..|ops| - 1], ops[|ops| - 1];
      CountsInRange(front, lo, hi);
      RecordedBetween(Run(front), op.e, op.now, lo, hi);
    }
  }

  lemma RecordedHours(s: Tables, e: Event, now: int, lo: int, hi: int)
    requires Full(Added(s, e)) ==> HourCutoff(now) <= lo
    ensures Sum(Between(Recorded(s, e, now).hours, lo, hi))
            == Sum(Between(s.hours, lo, hi)) + (if lo <= Hour(e.timestamp) <= hi then 1 else 0)
  {
    hide Full, Hour, Minute, Bumped, MinuteCutoff, HourCutoff, Sum;
    BetweenBumped(s.hours, Hour(e.timestamp), lo, hi);
    var h := Added(s, e).hours;
    if Full(Added(s, e)) {
      assert Between(From(h, HourCutoff(now)), lo, hi) == Between(h, lo, hi);
    }
  }

  /** So do the hour buckets, from the last hour cutoff on. */
  lemma {:induction false} CountsHours(ops: seq<Op>, lo: int, hi: int)
    requires NoHourPruneAbove(ops, lo)
    ensures Sum(Between(Run(ops).hours, lo, hi)) == InRange(Since(ops), HOUR, lo, hi)
  {
    hide Full, Added, Recorded;
    if ops == [] || ops[|ops| - 1].Wipe? {
      assert Between(map[], lo, hi) == map[];
    } else {
      var front, op := ops[..|ops| - 1], ops[|ops| - 1];
      CountsHours(front, lo, hi);
      RecordedHours(Run(front), op.e, op.now, lo, hi);
    }
  }

  function Younger(es: seq<Event>, cutoff: int): seq<Event> {
    if es == [] then []
    else
      var n := |es| - 1;
      Younger(es[..n], cutoff) + (if Minute(es[n].timestamp) >= cutoff then [es[n]] else [])
  }

  /** The events a collector that keeps the whole list, and prunes it when the code prunes its
      buckets, would still hold. */
  function Survivors(ops: seq<Op>): seq<Event> {
    if ops == [] then []
    else
      var front, op := ops[..|ops| - 1], ops[|ops| - 1];
      if op.Wipe? then []
      else
        var es := Survivors(front) + [op.e];
        if Full(Added(Run(front), op.e)) then Younger(es, MinuteCutoff(op.now)) else es
  }

  lemma InRangeAppend(es: seq<Event>, e: Event, lo: int, hi: int)
    ensures InRange(es + [e], MINUTE, lo, hi) == InRange(es, MINUTE, lo, hi) + (if lo <= Minute(e.timestamp) <= hi then 1 else 0)
  {
    assert (es + [e])[..|es|] == es;
  }

  lemma {:induction false} InRangeYounger(es: seq<Event>, cutoff: int, lo: int, hi: int)
    ensures InRange(Younger(es, cutoff), MINUTE, lo, hi) == InRange(es, MINUTE, if cutoff > lo then cutoff else lo, hi)
  {
    if es != [] {
      hide Quotient;
      var n := |es| - 1;
      InRangeYounger(es[..n], cutoff, lo, hi);
      if Minute(es[n].timestamp) >= cutoff {
        InRangeAppend(Younger(es[..n], cutoff), es[n], lo, hi);
      } else {
        assert Younger(es[..n], cutoff) + [] == Younger(es[..n], cutoff);
      }
    }
  }

  /** Where a range of minutes starts once a record may have pruned. */
  function CutFrom(s: Tables, op: Op, lo: int): int
    requires op.Rec?
  {
    if Full(Added(s, op.e)) && MinuteCutoff(op.now) > lo then MinuteCutoff(op.now) else lo
  }

  lemma BucketsAfter(s: Tables, op: Op, lo: int, hi: int)
    requires op.Rec?
    ensures var from := CutFrom(s, op, lo);
            Sum(Between(Recorded(s, op.e, op.now).minutes, lo, hi))
            == Sum(Between(s.minutes, from, hi)) + (if from <= Minute(op.e.timestamp) <= hi then 1 else 0)
  {
    hide Full, Minute, Bumped, MinuteCutoff, HourCutoff, Sum;
    var m, from := Added(s, op.e).minutes, CutFrom(s, op, lo);
    BetweenBumped(s.minutes, Minute(op.e.timestamp), from, hi);
    if Full(Added(s, op.e)) {
      assert Between(From(m, MinuteCutoff(op.now)), lo, hi) == Between(m, from, hi);
    }
  }

  lemma SurvivorsAfter(front: seq<Op>, op: Op, lo: int, hi: int)
    requires op.Rec?
    ensures var from := CutFrom(Run(front), op, lo);
            InRange(Survivors(front + [op]), MINUTE, lo, hi)
            == InRange(Survivors(front), MINUTE, from, hi) + (if from <= Minute(op.e.timestamp) <= hi then 1 else 0)
  {
    hide Full, Minute, MinuteCutoff, InRange, Younger, Run, Added;
    var from := CutFrom(Run(front), op, lo);
    assert (front + [op])[..|front|] == front;
    InRangeAppend(Survivors(front), op.e, from, hi);
    if Full(Added(Run(front), op.e)) {
      InRangeYounger(Survivors(front) + [op.e], MinuteCutoff(op.now), lo, hi);
    }
  }

  lemma NothingCounted(ops: seq<Op>, lo: int, hi: int)
    requires ops == [] || ops[|ops| - 1].Wipe?
    ensures Sum(Between(Run(ops).minutes, lo, hi)) == 0 == InRange(Survivors(ops), MINUTE, lo, hi)
  {
    assert Between(map[], lo, hi) == map[];
  }

  /** For every range, pruned into or not, the buckets count what the pruned list counts. */
  lemma {:induction false} CountsSurvivors(ops: seq<Op>, lo: int, hi: int)
    ensures Sum(Between(Run(ops).minutes, lo, hi)) == InRange(Survivors(ops), MINUTE, lo, hi)
  {
    hide Recorded, Survivors, CutFrom, InRange, Minute, Sum, Between, Run;
    if ops == [] || ops[|ops| - 1].Wipe? {
      NothingCounted(ops, lo, hi);
    } else {
      var front, op := ops[..|ops| - 1], ops[|ops| - 1];
      assert ops == front + [op];
      LastOp(ops);
      CountsSurvivors(front, CutFrom(Run(front), op, lo), hi);
      BucketsAfter(Run(front), op, lo, hi);
      SurvivorsAfter(front, op, lo, hi);
    }
  }

  // ------------------------------------------------------------ the minute table stays small

  /** The clock does not go back and no event is stamped after it. */
  predicate Timely(ops: seq<Op>, now: int) {
    forall i :: 0 <= i < |ops| && ops[i].Rec? ==> ops[i].e.timestamp <= ops[i].now <= now
  }

  predicate ClockInOrder(ops: seq<Op>) {
    forall i, j :: 0 <= i < j < |ops| && ops[i].Rec? && ops[j].Rec? ==> ops[i].now <= ops[j].now
  }

  lemma MinuteOrder(a: int, b: int)
    requires a <= b
    ensures Minute(a) <= Minute(b)
  {
  }

  lemma TwoHours(now: int)
    ensures MinuteCutoff(now) <= Minute(now) <= MinuteCutoff(now) + 120
  {
  }

  lemma {:induction false} IntervalSize(keys: set<int>, lo: int, hi: int)
    requires forall k :: k in keys ==> lo <= k <= hi
    ensures |keys| <= if lo <= hi then hi - lo + 1 else 0
    decreases hi - lo
  {
    if lo <= hi {
      IntervalSize(keys - {hi}, lo, hi - 1);
    } else {
      SomeKey(keys);
    }
  }

  lemma {:induction false} MinutesNotAfter(ops: seq<Op>, now: int)
    requires Timely(ops, now)
    ensures forall k :: k in Run(ops).minutes ==> k <= Minute(now)
  {
    if ops != [] {
      hide Full, Minute;
      var front, op := ops[..|ops| - 1], ops[|ops| - 1];
      assert forall i :: 0 <= i < |front| ==> front[i] == ops[i];
      if op.Rec? {
        MinutesNotAfter(front, now);
        assert ops[|ops| - 1] == op;
        MinuteOrder(op.e.timestamp, now);
      }
    }
  }

  /** Then a record never leaves more than 121 minutes behind. */
  lemma MinutesBounded(ops: seq<Op>)
    requires ops != [] && ops[|ops| - 1].Rec? && ClockInOrder(ops) && Timely(ops, ops[|ops| - 1].now)
    ensures |Run(ops).minutes| <= 121
  {
    hide Run, Minute, MinuteCutoff;
    var op := ops[|ops| - 1];
    MinutesNotAfter(ops, op.now);
    TwoHours(op.now);
    assert Run(ops) == Recorded(Run(ops[..|ops| - 1]), op.e, op.now) by { LastOp(ops); }
    var m := Run(ops).minutes;
    if |m| > MINUTES_KEPT {
      IntervalSize(m.Keys, MinuteCutoff(op.now), Minute(op.now));
    }
  }

  lemma LastOp(ops: seq<Op>)
    requires ops != [] && ops[|ops| - 1].Rec?
    ensures Run(ops) == Recorded(Run(ops[..|ops| - 1]), ops[|ops| - 1].e, ops[|ops| - 1].now)
  {
  }

  // ------------------------------------------------------------ in milliseconds

  /** A prune keeps exactly the minutes that end within the last two hours, and the hours that end
      within the last thirty days. */
  lemma KeptBuckets(now: int, k: int)
    requires now >= 2592000000 && k >= 0
    ensures k >= MinuteCutoff(now) <==> (k + 1) * 60000 > now - 7200000
    ensures k >= HourCutoff(now) <==> (k + 1) * 3600000 > now - 2592000000
  {
  }

  /** Nothing is pruned up to 120 minutes; from then on the older minutes go. */
  lemma RecordPrunes(s: Tables, e: Event, now: int)
    requires now >= 2592000000 && forall k :: k in Added(s, e).minutes ==> k >= 0
    ensures var all, kept := Added(s, e).minutes, Recorded(s, e, now).minutes;
            kept == if |all| <= 120 then all else map k | k in all && (k + 1) * 60000 > now - 7200000 :: all[k]
  {
    hide Added, MinuteCutoff, HourCutoff;
    var all := Added(s, e).minutes;
    forall k | k in all ensures k >= MinuteCutoff(now) <==> (k + 1) * 60000 > now - 7200000 {
      KeptBuckets(now, k);
    }
  }

  /** The events of some minutes, by their time stamps. */
  ghost function InMinutes(es: seq<Event>, lo: int, hi: int): set<nat> {
    set i: nat | i < |es| && lo * 60000 <= es[i].timestamp < (hi + 1) * 60000
  }

  ghost function InHours(es: seq<Event>, lo: int, hi: int): set<nat> {
    set i: nat | i < |es| && lo * 3600000 <= es[i].timestamp < (hi + 1) * 3600000
  }

  lemma BucketFrom(t: int, unit: int, lo: int)
    requires t >= 0 && unit > 0
    ensures lo <= Quotient(t, unit) <==> lo * unit <= t
  {
    var q := t / unit;
    assert q * unit <= t < (q + 1) * unit by { Division(t, unit); }
    if lo <= q { Ordered(lo, q, unit); } else { Ordered(q + 1, lo, unit); }
  }

  lemma Division(t: int, unit: int)
    requires t >= 0 && unit > 0
    ensures var q := t / unit; q * unit <= t < (q + 1) * unit
  {
    assert t == unit * (t / unit) + t % unit;
  }

  lemma Ordered(a: int, b: int, unit: int)
    requires a <= b && unit > 0
    ensures a * unit <= b * unit
  {
    assert b * unit - a * unit == (b - a) * unit;
  }

  lemma BucketIs(t: int, unit: int, lo: int, hi: int)
    requires t >= 0 && lo >= 0 && unit > 0
    ensures lo <= Quotient(t, unit) <= hi <==> lo * unit <= t < (hi + 1) * unit
  {
    hide Quotient;
    BucketFrom(t, unit, lo);
    BucketFrom(t, unit, hi + 1);
  }

  lemma {:induction false} InRangeMinutes(es: seq<Event>, lo: int, hi: int)
    requires lo >= 0 && forall i :: 0 <= i < |es| ==> es[i].timestamp >= 0
    ensures InRange(es, 60000, lo, hi) == |InMinutes(es, lo, hi)|
    ensures InRange(es, 3600000, lo, hi) == |InHours(es, lo, hi)|
  {
    if es == [] {
      assert InMinutes(es, lo, hi) == {} && InHours(es, lo, hi) == {};
    } else {
      hide Quotient;
      var n := |es| - 1;
      InRangeMinutes(es[..n], lo, hi);
      BucketIs(es[n].timestamp, 60000, lo, hi);
      BucketIs(es[n].timestamp, 3600000, lo, hi);
      NextInRange(es, lo, hi);
    }
  }

  lemma NextInRange(es: seq<Event>, lo: int, hi: int)
    requires es != []
    ensures var n := |es| - 1;
            && |InMinutes(es, lo, hi)|
               == |InMinutes(es[..n], lo, hi)| + (if lo * 60000 <= es[n].timestamp < (hi + 1) * 60000 then 1 else 0)
            && |InHours(es, lo, hi)|
               == |InHours(es[..n], lo, hi)| + (if lo * 3600000 <= es[n].timestamp < (hi + 1) * 3600000 then 1 else 0)
  {
    var n := |es| - 1;
    OneMore(InMinutes(es[..n], lo, hi), InMinutes(es, lo, hi), n, lo * 60000 <= es[n].timestamp < (hi + 1) * 60000);
    OneMore(InHours(es[..n], lo, hi), InHours(es, lo, hi), n, lo * 3600000 <= es[n].timestamp < (hi + 1) * 3600000);
  }

  /** So a range of minutes counts exactly the events recorded between its ends, to the
      millisecond, and a range of hours likewise. */
  lemma CountsEvents(ops: seq<Op>, lo: int, hi: int)
    requires lo >= 0 && forall i :: 0 <= i < |Since(ops)| ==> Since(ops)[i].timestamp >= 0
    ensures NoPruneAbove(ops, lo) ==> Sum(Between(Run(ops).minutes, lo, hi)) == |InMinutes(Since(ops), lo, hi)|
    ensures NoHourPruneAbove(ops, lo) ==> Sum(Between(Run(ops).hours, lo, hi)) == |InHours(Since(ops), lo, hi)|
  {
    hide Run, Since, InRange, InMinutes, InHours;
    InRangeMinutes(Since(ops), lo, hi);
    if NoPruneAbove(ops, lo) { CountsInRange(ops, lo, hi); }
    if NoHourPruneAbove(ops, lo) { CountsHours(ops, lo, hi); }
  }

  /** A fresh collector has five categories at zero; clearing puts the entries it has back to zero
      and empties the rest. */
  lemma ClearedIs(s: Tables)
    ensures Fresh().categories.Keys == {Filesystem, Process, Network, SystemConfig, Unknown}
    ensures forall c :: c in Fresh().categories ==> Fresh().categories[c] == 0
    ensures Cleared(s).categories.Keys == s.categories.Keys
    ensures forall c :: c in s.categories ==> Cleared(s).categories[c] == 0
    ensures Cleared(s).(categories := map[]) == Tables(0, map[], map[], map[], map[], map[], map[])
    ensures Fresh().(categories := map[]) == Tables(0, map[], map[], map[], map[], map[], map[])
  {
  }
}
