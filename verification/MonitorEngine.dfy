/** The monitor engine: one event through filter, statistics, alerts, auditor, store, reporter
    and the list of recent events. The engine is modelled as it is once initialized. */
module MonitorEngine {
  import AlertHistory
  import AlertManager
  import AuditHistory
  import EventFilter
  import FileStorage
  import Reporter
  import SecurityAuditor
  import Statistics
  import StorageCodec
  import StorageHistory
  import opened Collections
  import opened Events
  import opened Rules
  import opened Strings

  const MAX_RECENT := 5000

  /** The parts of the engine's state, and what stays fixed while it runs. */
  datatype Engine = Engine(
    rules: seq<EventFilter.FilterRule>, processed: nat, allowed: nat, denied: nat, modified: nat,
    stats: Statistics.Tables, alerts: AlertManager.Shared, ticks: nat,
    audit: SecurityAuditor.Books, reports: nat, store: FileStorage.Store,
    enabled: bool, queue: seq<Event>, recent: seq<Event>)

  /** The auditor's analysis of an event: what it reports, given how many reports came before
      (they are stamped with the time), and the readings of the clock during each report. */
  datatype Analysis = Analysis(
    findings: (Event, nat) -> seq<SecurityAuditor.Incident>, readings: (nat, nat) -> int,
    matches: (Rule, SecurityAuditor.Incident) -> bool)

  datatype World = World(matches: EventFilter.Matcher, env: AlertManager.Env, clock: nat -> int, analysis: Analysis)

  /** The clock as the `k`-th report reads it. */
  function ReadingsOf(a: Analysis, k: nat): nat -> int { (r: nat) => a.readings(k, r) }

  /** The auditor after some findings are reported, `k` reports having come before. */
  function Audited(s: SecurityAuditor.Books, found: seq<SecurityAuditor.Incident>, k: nat, a: Analysis): SecurityAuditor.Books {
    if found == [] then s
    else
      var n := |found| - 1;
      SecurityAuditor.OnReport(Audited(s, found[..n], k, a), found[n], a.matches, ReadingsOf(a, k + n)).s
  }

  function Counted(s: Engine, v: EventFilter.Verdict): Engine {
    s.(processed := s.processed + 1, modified := s.modified + v.changes,
       allowed := s.allowed + (if v.allowed then 1 else 0), denied := s.denied + (if v.allowed then 0 else 1))
  }

  /** An event the filter let through, on its way through everything else. */
  function Spread(s: Engine, e: Event, now: int, w: World): Engine
    requires FileStorage.Valid(s.store)
  {
    var o := AlertManager.OnRules(s.alerts, s.alerts.rules, e, w.env, w.clock, s.ticks);
    var found := w.analysis.findings(e, s.reports);
    s.(stats := Statistics.Recorded(s.stats, e, now), alerts := o.s, ticks := o.ticks,
       audit := Audited(s.audit, found, s.reports, w.analysis), reports := s.reports + |found|,
       store := FileStorage.Inserted(s.store, StorageCodec.SerializedEvent(e)),
       queue := if s.enabled then s.queue + [e] else s.queue, recent := Last(s.recent + [e], MAX_RECENT))
  }

  function Routed(s: Engine, e: Event, now: int, w: World): Engine
    requires FileStorage.Valid(s.store)
  {
    var v := EventFilter.Decide(s.rules, e, w.matches);
    if v.allowed then Spread(Counted(s, v), v.e, now, w) else Counted(s, v)
  }

  class Monitor {
    const filter: EventFilter.Filter
    const statistics: Statistics.Collector
    const alerts: AlertManager.Manager
    const auditor: SecurityAuditor.Auditor
    const analysis: Analysis
    const storage: FileStorage.Storage
    const reporter: Reporter.Reporter
    var recent: seq<Event>
    var reports: nat

    ghost predicate Wired() { auditor.matches == analysis.matches }

    ghost function State(): Engine
      reads this, filter, statistics, alerts, auditor, storage, reporter
    {
      Engine(filter.rules, filter.processed, filter.allowed, filter.denied, filter.modified,
             statistics.State(), alerts.State(), alerts.ticks, auditor.State(), reports, storage.State(), reporter.enabled, reporter.queue, recent)
    }

    ghost function Fixed(): World { World(filter.matches, alerts.env, alerts.clock, analysis) }

    constructor (filter: EventFilter.Filter, statistics: Statistics.Collector, alerts: AlertManager.Manager,
                 auditor: SecurityAuditor.Auditor, analysis: Analysis, storage: FileStorage.Storage, reporter: Reporter.Reporter)
      requires auditor.matches == analysis.matches
      ensures this.filter == filter && this.statistics == statistics && this.alerts == alerts && this.auditor == auditor
      ensures this.storage == storage && this.reporter == reporter && recent == [] && reports == 0 && Wired()
    {
      this.filter, this.statistics, this.alerts, this.auditor, this.analysis := filter, statistics, alerts, auditor, analysis;
      this.storage, this.reporter := storage, reporter;
      recent, reports := [], 0;
    }

    /** `now` is the clock as the statistics read it. */
    method RouteEvent(event: Event, now: int)
      requires FileStorage.Valid(storage.State()) && Wired()
      modifies this, filter, statistics, alerts, auditor, storage, reporter
      ensures State() == Routed(old(State()), event, now, Fixed())
    {
      hide EventFilter.Decide, Spread;
      var ok, e := filter.Process(event);
      if !ok { return; }
      Deliver(e, now);
    }

    method Deliver(e: Event, now: int)
      requires FileStorage.Valid(storage.State()) && Wired()
      modifies this, statistics, alerts, auditor, storage, reporter
      ensures State() == Spread(old(State()), e, now, Fixed())
    {
      hide Statistics.Recorded, AlertManager.OnRules, FileStorage.Inserted, StorageCodec.SerializedEvent, Collections.Last, Audited;
      Watch(e, now);
      Keep(e);
    }

    /** The parts that look at the event. */
    method Watch(e: Event, now: int)
      requires Wired()
      modifies this`reports, statistics, alerts, auditor
      ensures statistics.State() == Statistics.Recorded(old(statistics.State()), e, now)
      ensures var o := AlertManager.OnRules(old(alerts.State()), old(alerts.rules), e, alerts.env, alerts.clock, old(alerts.ticks));
              alerts.State() == o.s && alerts.ticks == o.ticks
      ensures var found := analysis.findings(e, old(reports));
              && auditor.State() == Audited(old(auditor.State()), found, old(reports), analysis)
              && reports == old(reports) + |found|
    {
      hide Statistics.Recorded, AlertManager.OnRules, Audited;
      statistics.Record(e, now);
      ghost var raised := alerts.ProcessEvent(e);
      Audit(e);
    }

    /** The parts that keep it. */
    method Keep(e: Event)
      requires FileStorage.Valid(storage.State())
      modifies this`recent, storage, reporter
      ensures storage.State() == FileStorage.Inserted(old(storage.State()), StorageCodec.SerializedEvent(e))
      ensures reporter.enabled == old(reporter.enabled)
      ensures reporter.queue == if reporter.enabled then old(reporter.queue) + [e] else old(reporter.queue)
      ensures recent == Last(old(recent) + [e], MAX_RECENT)
    {
      hide FileStorage.Inserted, StorageCodec.SerializedEvent, Collections.Last;
      storage.Insert(e);
      if reporter.enabled { reporter.Enqueue(e); }
      PushRecent(e);
    }

    /** SecurityAuditor::process_event, one report after the other. */
    method Audit(e: Event)
      requires Wired()
      modifies this`reports, auditor
      ensures var found := analysis.findings(e, old(reports));
              && auditor.State() == Audited(old(auditor.State()), found, old(reports), analysis)
              && reports == old(reports) + |found|
    {
      hide SecurityAuditor.OnReport;
      var found, k := analysis.findings(e, reports), reports;
      for i := 0 to |found|
        invariant reports == k + i && auditor.State() == Audited(old(auditor.State()), found[..i], k, analysis)
      {
        assert found[..i + 1][..i] == found[..i];
        ghost var log := auditor.ReportSecurityEvent(found[i], ReadingsOf(analysis, k + i));
        reports := reports + 1;
      }
      assert found[..|found|] == found;
    }

    method PushRecent(e: Event)
      modifies this`recent
      ensures recent == Last(old(recent) + [e], MAX_RECENT)
    {
      ghost var all := recent + [e];
      recent := recent + [e];
      while |recent| > MAX_RECENT
        invariant |recent| <= |all| && recent == all[|all| - |recent|..]
        invariant |recent| >= MAX_RECENT || recent == all
      {
        recent := recent[1..];
      }
    }

    /** None where the range from the start to the end is no range: a negative limit starts
        past the end, which the code does not guard against. */
    method RecentEvents(limit: int) returns (es: Option<seq<Event>>)
      ensures es == if limit >= 0 then Some(Last(recent, limit)) else None
    {
      var start := |recent| - limit;
      if start < 0 { start := 0; }
      return if start <= |recent| then Some(recent[start..]) else None;
    }
  }

  // ------------------------------------------------------------ whole runs

  datatype Arrival = Arrival(e: Event, now: int)

  function Run(s: Engine, arrivals: seq<Arrival>, w: World): (r: Engine)
    requires FileStorage.Valid(s.store)
    ensures FileStorage.Valid(r.store)
  {
    if arrivals == [] then s
    else
      var n := |arrivals| - 1;
      var before := Run(s, arrivals[..n], w);
      Routed(before, arrivals[n].e, arrivals[n].now, w)
  }

  /** The arrivals the rules let through, as the rules changed them. */
  function Passed(arrivals: seq<Arrival>, rules: seq<EventFilter.FilterRule>, matches: EventFilter.Matcher): seq<Arrival> {
    if arrivals == [] then []
    else
      var n := |arrivals| - 1;
      var v := EventFilter.Decide(rules, arrivals[n].e, matches);
      Passed(arrivals[..n], rules, matches) + (if v.allowed then [Arrival(v.e, arrivals[n].now)] else [])
  }

  function EventsOf(arrivals: seq<Arrival>): seq<Event> { seq(|arrivals|, i requires 0 <= i < |arrivals| => arrivals[i].e) }

  function Records(arrivals: seq<Arrival>): seq<Statistics.Op> {
    seq(|arrivals|, i requires 0 <= i < |arrivals| => Statistics.Rec(arrivals[i].e, arrivals[i].now))
  }

  /** An engine that has seen no event: no history anywhere, an opened store, and a reporter
      switched on or off. */
  predicate Begun(s: Engine) {
    && s.processed == s.allowed == s.denied == s.modified == 0 && s.ticks == 0
    && s.stats == Statistics.Fresh() && s.alerts == AlertHistory.Start(s.alerts.rules)
    && s.audit == AuditHistory.Start(s.audit.rules) && s.reports == 0
    && s.store.open && FileStorage.Valid(s.store) && s.queue == [] && s.recent == []
  }

  /** The reports that the analysis of some events makes, in order. */
  function Reports(es: seq<Event>, a: Analysis): seq<AuditHistory.Op> {
    if es == [] then []
    else
      var n := |es| - 1;
      var before := Reports(es[..n], a);
      before + OpsOf(a.findings(es[n], |before|), |before|, a)
  }

  function OpsOf(found: seq<SecurityAuditor.Incident>, k: nat, a: Analysis): seq<AuditHistory.Op> {
    seq(|found|, i requires 0 <= i < |found| => AuditHistory.Report(found[i], ReadingsOf(a, k + i)))
  }

  /** What every part of the engine holds after the passed arrivals `ps`. */
  ghost predicate InStep(r: Engine, s: Engine, ps: seq<Arrival>, w: World)
    requires FileStorage.Valid(s.store)
  {
    var es, o := EventsOf(ps), AlertManager.OnEvents(s.alerts, EventsOf(ps), w.env, w.clock, 0);
    && r.rules == s.rules && r.enabled == s.enabled
    && r.allowed == |ps|
    && r.stats == Statistics.Run(Records(ps))
    && r.alerts == o.s && r.ticks == o.ticks
    && r.audit == AuditHistory.Run(s.audit.rules, Reports(es, w.analysis), w.analysis.matches).s
    && r.reports == |Reports(es, w.analysis)|
    && r.store == StorageHistory.Run(s.store, StorageHistory.Inserts(es))
    && r.queue == (if s.enabled then es else [])
    && r.recent == Last(es, MAX_RECENT)
  }

  lemma AlertsStep(s: AlertManager.Shared, es: seq<Event>, e: Event, w: World)
    ensures var before := AlertManager.OnEvents(s, es, w.env, w.clock, 0);
            var o := AlertManager.OnRules(before.s, before.s.rules, e, w.env, w.clock, before.ticks);
            var after := AlertManager.OnEvents(s, es + [e], w.env, w.clock, 0);
            after.s == o.s && after.ticks == o.ticks
  {
    hide AlertManager.OnRules;
    assert (es + [e])[..|es|] == es;
  }

  lemma {:induction false} AuditStep(rules: seq<Rule>, ops: seq<AuditHistory.Op>, found: seq<SecurityAuditor.Incident>, a: Analysis)
    ensures AuditHistory.Run(rules, ops + OpsOf(found, |ops|, a), a.matches).s
            == Audited(AuditHistory.Run(rules, ops, a.matches).s, found, |ops|, a)
  {
    hide SecurityAuditor.OnReport;
    if found == [] {
      assert ops + OpsOf(found, |ops|, a) == ops;
    } else {
      var n := |found| - 1;
      AuditStep(rules, ops, found[..n], a);
      var all := ops + OpsOf(found, |ops|, a);
      assert all[..|all| - 1] == ops + OpsOf(found[..n], |ops|, a);
      assert all[|all| - 1] == AuditHistory.Report(found[n], ReadingsOf(a, |ops| + n));
    }
  }

  lemma ReportsStep(es: seq<Event>, e: Event, a: Analysis)
    ensures var before := Reports(es, a);
            Reports(es + [e], a) == before + OpsOf(a.findings(e, |before|), |before|, a)
  {
    hide OpsOf;
    assert (es + [e])[..|es|] == es;
  }

  lemma StatisticsStep(ops: seq<Statistics.Op>, e: Event, now: int)
    ensures Statistics.Run(ops + [Statistics.Rec(e, now)]) == Statistics.Recorded(Statistics.Run(ops), e, now)
  {
    hide Statistics.Recorded;
    assert (ops + [Statistics.Rec(e, now)])[..|ops|] == ops;
  }

  lemma StorageStep(s: FileStorage.Store, es: seq<Event>, e: Event)
    requires FileStorage.Valid(s)
    ensures StorageHistory.Run(s, StorageHistory.Inserts(es + [e]))
            == FileStorage.Inserted(StorageHistory.Run(s, StorageHistory.Inserts(es)), StorageCodec.SerializedEvent(e))
  {
    hide FileStorage.Inserted, StorageCodec.SerializedEvent;
    var ops := StorageHistory.Inserts(es + [e]);
    assert ops[..|es|] == StorageHistory.Inserts(es);
  }

  /** One arrival the filter lets through moves every part on by the same event. */
  lemma DeliverInStep(r: Engine, s: Engine, ps: seq<Arrival>, v: EventFilter.Verdict, now: int, w: World)
    requires Begun(s) && FileStorage.Valid(r.store) && InStep(r, s, ps, w) && v.allowed
    ensures InStep(Spread(Counted(r, v), v.e, now, w), s, ps + [Arrival(v.e, now)], w)
  {
    hide Statistics.Recorded, Statistics.Run, AlertManager.OnRules, AlertManager.OnEvents, FileStorage.Inserted;
    hide StorageCodec.SerializedEvent, StorageHistory.Run, StorageHistory.Inserts, Collections.Last;
    hide AuditHistory.Run, Reports, OpsOf, Audited;
    var es, e, next := EventsOf(ps), v.e, ps + [Arrival(v.e, now)];
    assert EventsOf(next) == es + [e];
    assert Records(next) == Records(ps) + [Statistics.Rec(e, now)];
    AlertsStep(s.alerts, es, e, w);
    ReportsStep(es, e, w.analysis);
    var before := Reports(es, w.analysis);
    AuditStep(s.audit.rules, before, w.analysis.findings(e, |before|), w.analysis);
    OpsLength(w.analysis.findings(e, |before|), |before|, w.analysis);
    StatisticsStep(Records(ps), e, now);
    StorageStep(s.store, es, e);
  }

  lemma OpsLength(found: seq<SecurityAuditor.Incident>, k: nat, a: Analysis)
    ensures |OpsOf(found, k, a)| == |found|
  {
  }

  lemma StartsInStep(s: Engine, w: World)
    requires Begun(s)
    ensures InStep(s, s, [], w)
  {
    assert EventsOf([]) == [] && Records([]) == [] && StorageHistory.Inserts([]) == [];
  }

  lemma CountingKeepsStep(r: Engine, s: Engine, ps: seq<Arrival>, v: EventFilter.Verdict, w: World)
    requires FileStorage.Valid(s.store) && InStep(r, s, ps, w) && !v.allowed
    ensures InStep(Counted(r, v), s, ps, w)
  {
    hide Statistics.Run, AlertManager.OnEvents, AuditHistory.Run, StorageHistory.Run, Collections.Last;
  }

  lemma Tallies(r: Engine, a: Arrival, w: World)
    requires FileStorage.Valid(r.store)
    ensures var r2, v := Routed(r, a.e, a.now, w), EventFilter.Decide(r.rules, a.e, w.matches);
            r2.processed == r.processed + 1 && r2.allowed + r2.denied == r.allowed + r.denied + 1
  {
    hide Statistics.Recorded, AlertManager.OnRules, Audited, FileStorage.Inserted, EventFilter.Decide, StorageCodec.SerializedEvent;
  }

  /** After any run of arrivals: every arrival was counted as processed and as either allowed or
      denied; and statistics, alerts, auditor, store, report queue and the recent list have all seen the
      same events, the allowed ones as the filter changed them, in arrival order. */
  lemma {:induction false} EverythingInStep(s: Engine, arrivals: seq<Arrival>, w: World)
    requires Begun(s)
    ensures var r := Run(s, arrivals, w);
            && r.processed == |arrivals| == r.allowed + r.denied
            && InStep(r, s, Passed(arrivals, s.rules, w.matches), w)
  {
    hide InStep, Routed, EventFilter.Decide;
    if arrivals == [] {
      StartsInStep(s, w);
    } else {
      var n := |arrivals| - 1;
      EverythingInStep(s, arrivals[..n], w);
      var before, a := Run(s, arrivals[..n], w), arrivals[n];
      RouteInStep(before, s, Passed(arrivals[..n], s.rules, w.matches), a, w);
      Tallies(before, a, w);
    }
  }

  lemma RouteInStep(r: Engine, s: Engine, ps: seq<Arrival>, a: Arrival, w: World)
    requires Begun(s) && FileStorage.Valid(r.store) && InStep(r, s, ps, w)
    ensures var v := EventFilter.Decide(s.rules, a.e, w.matches);
            InStep(Routed(r, a.e, a.now, w), s, ps + (if v.allowed then [Arrival(v.e, a.now)] else []), w)
  {
    hide Spread, Counted, EventFilter.Decide, Statistics.Run, AlertManager.OnEvents, AuditHistory.Run, StorageHistory.Run, Collections.Last;
    var v := EventFilter.Decide(s.rules, a.e, w.matches);
    assert r.rules == s.rules;
    if v.allowed {
      DeliverInStep(r, s, ps, v, a.now, w);
    } else {
      CountingKeepsStep(r, s, ps, v, w);
      assert ps + [] == ps;
    }
  }

  /** So processed = allowed + denied, allowed = events in the statistics = inserts in the
      store, and any request for recent events is a suffix of the allowed ones. */
  lemma CountsAgree(s: Engine, arrivals: seq<Arrival>, w: World, limit: nat)
    requires Begun(s)
    ensures var r, es := Run(s, arrivals, w), EventsOf(Passed(arrivals, s.rules, w.matches));
            && r.processed == r.allowed + r.denied
            && r.allowed == r.stats.total == |es| == |StorageHistory.Log(StorageHistory.Inserts(es))|
            && r.recent == Last(es, 5000) && Last(r.recent, limit) == Last(es, if limit < 5000 then limit else 5000)
  {
    hide Run, Passed, StorageHistory.Run, AlertManager.OnEvents;
    EverythingInStep(s, arrivals, w);
    var ps := Passed(arrivals, s.rules, w.matches);
    Statistics.TablesSumToTotal(Records(ps));
    EveryRecordCounts(ps);
    EveryInsertLogs(EventsOf(ps));
  }

  lemma {:induction false} EveryRecordCounts(ps: seq<Arrival>)
    ensures |Statistics.Since(Records(ps))| == |ps|
  {
    if ps != [] {
      EveryRecordCounts(ps[..|ps| - 1]);
      assert Records(ps)[..|ps| - 1] == Records(ps[..|ps| - 1]);
    }
  }

  lemma {:induction false} EveryInsertLogs(es: seq<Event>)
    ensures |StorageHistory.Log(StorageHistory.Inserts(es))| == |es|
  {
    hide StorageCodec.SerializedEvent;
    if es != [] {
      EveryInsertLogs(es[..|es| - 1]);
      assert StorageHistory.Inserts(es)[..|es| - 1] == StorageHistory.Inserts(es[..|es| - 1]);
    }
  }
}
