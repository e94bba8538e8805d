/** The remote reporter: a queue that any thread may append to and one flusher cuts batches
    from, sends without the lock, and puts back at the front when a send fails. */
module Reporter {
  import opened Collections
  import opened Events

  /** How many of `n` queued events a flush takes. The code compares as unsigned numbers, so a
      negative batch size takes everything. */
  function Taken(batchSize: int, n: nat): (k: nat)
    ensures k <= n
    ensures batchSize >= 1 ==> k <= batchSize && (n > 0 ==> k >= 1)
  {
    if batchSize < 0 || n <= batchSize then n else batchSize
  }

  class Reporter {
    var enabled: bool
    var batchSize: int
    var queue: seq<Event>

    constructor (batchSize: int)
      ensures queue == [] && !enabled && this.batchSize == batchSize
    {
      enabled, this.batchSize, queue := false, batchSize, [];
    }

    method SetEnabled(on: bool)
      modifies this`enabled
      ensures enabled == on
    {
      enabled := on;
    }

    method Enqueue(e: Event)
      modifies this`queue
      ensures queue == if enabled then old(queue) + [e] else old(queue)
    {
      if !enabled { return; }
      queue := queue + [e];
    }

    method EnqueueBatch(es: seq<Event>)
      modifies this`queue
      ensures queue == if enabled then old(queue) + es else old(queue)
    {
      if !enabled { return; }
      queue := queue + es;
    }

    /** The first critical section of a flush. */
    method TakeBatch() returns (batch: seq<Event>)
      modifies this`queue
      ensures batch + queue == old(queue) && |batch| == Taken(batchSize, |old(queue)|)
    {
      if queue == [] { return []; }
      var end := if batchSize >= 0 && |queue| > batchSize then batchSize else |queue|;
      batch := queue[..end];
      queue := queue[end..];
    }

    /** The second one, after a failed send. */
    method Requeue(batch: seq<Event>)
      modifies this`queue
      ensures queue == batch + old(queue)
    {
      queue := batch + queue;
    }

    /** A whole flush with nobody enqueueing meanwhile; `ok` is the outcome of the send. */
    method FlushBatch(ok: bool) returns (sent: seq<Event>)
      modifies this`queue
      ensures sent + queue == old(queue)
      ensures |sent| == if ok then Taken(batchSize, |old(queue)|) else 0
    {
      var batch := TakeBatch();
      if batch == [] { return []; }
      if !ok {
        Requeue(batch);
        return [];
      }
      return batch;
    }
  }

  // ------------------------------------------------------------ interleavings

  /** The queue, the batch the flusher holds, and the events delivered and accepted so far. */
  datatype Pipe = Pipe(queue: seq<Event>, inFlight: seq<Event>, delivered: seq<Event>, accepted: seq<Event>)

  datatype Op =
    | Accept(es: seq<Event>, enabled: bool)
    | Take(batchSize: int)
    | Settle(ok: bool)

  /** One step. The flusher takes no new batch while it holds one. */
  function Apply(p: Pipe, op: Op): Pipe {
    match op
    case Accept(es, enabled) => if enabled then p.(queue := p.queue + es, accepted := p.accepted + es) else p
    case Take(b) =>
      if p.inFlight != [] then p
      else
        var k := Taken(b, |p.queue|);
        p.(inFlight := p.queue[..k], queue := p.queue[k..])
    case Settle(ok) =>
      if ok then p.(inFlight := [], delivered := p.delivered + p.inFlight)
      else p.(inFlight := [], queue := p.inFlight + p.queue)
  }

  function Run(p: Pipe, ops: seq<Op>): Pipe {
    if ops == [] then p else Apply(Run(p, ops[..|ops| - 1]), ops[|ops| - 1])
  }

  function Empty(): Pipe { Pipe([], [], [], []) }

  ghost predicate Conserved(p: Pipe) { p.delivered + p.inFlight + p.queue == p.accepted }

  lemma StepConserves(p: Pipe, op: Op)
    requires Conserved(p)
    ensures Conserved(Apply(p, op))
  {
    var p2 := Apply(p, op);
    match op
    case Accept(es, _) =>
      assert p.delivered + p.inFlight + (p.queue + es) == (p.delivered + p.inFlight + p.queue) + es;
    case Take(b) =>
      if p.inFlight == [] {
        assert p2.inFlight + p2.queue == p.queue;
        assert p.delivered + p2.inFlight + p2.queue == p.delivered + (p2.inFlight + p2.queue);
        assert p.delivered + [] + p.queue == p.delivered + p.queue;
      }
    case Settle(ok) =>
      assert (p.delivered + p.inFlight) + [] + p.queue == p.delivered + p.inFlight + p.queue;
      assert p.delivered + [] + (p.inFlight + p.queue) == p.delivered + p.inFlight + p.queue;
  }

  /** Whatever the interleaving of enqueues, takes and good or failed sends: delivered, then in
      flight, then queued events are the accepted ones, each once and in order. */
  lemma {:induction false} NothingLostOrRepeated(ops: seq<Op>)
    ensures Conserved(Run(Empty(), ops))
    ensures Run(Empty(), ops).delivered <= Run(Empty(), ops).accepted
  {
    hide Apply;
    if ops != [] {
      NothingLostOrRepeated(ops[..|ops| - 1]);
      StepConserves(Run(Empty(), ops[..|ops| - 1]), ops[|ops| - 1]);
    }
  }

  lemma {:induction false} RunAppend(p: Pipe, a: seq<Op>, b: seq<Op>)
    ensures Run(p, a + b) == Run(Run(p, a), b)
    decreases |b|
  {
    if b == [] {
      assert a + b == a;
    } else {
      assert (a + b)[..|a + b| - 1] == a + b[..|b| - 1];
      RunAppend(p, a, b[..|b| - 1]);
    }
  }

  function Flushes(b: int, k: nat): seq<Op> { if k == 0 then [] else Flushes(b, k - 1) + [Take(b), Settle(true)] }

  lemma OneFlush(p: Pipe, b: int)
    requires b >= 1 && p.inFlight == []
    ensures var k := Min(b, |p.queue|);
            Run(p, [Take(b), Settle(true)]) == Pipe(p.queue[k..], [], p.delivered + p.queue[..k], p.accepted)
  {
    var ops := [Take(b), Settle(true)];
    assert ops[..1] == [Take(b)] && [Take(b)][..0] == [];
    assert Run(p, [Take(b)]) == Apply(p, Take(b));
  }

  lemma Bite(queue: seq<Event>, m: nat, b: nat)
    requires m <= |queue|
    ensures var n := Min(m + b, |queue|);
            var k := Min(b, |queue[m..]|);
            queue[m..][k..] == queue[n..] && queue[..m] + queue[m..][..k] == queue[..n]
  {
  }

  /** How many of `n` events `k` full flushes take. */
  function Fed(n: nat, b: nat, k: nat): (m: nat)
    ensures m <= n
  {
    if k == 0 then 0 else Min(Fed(n, b, k - 1) + b, n)
  }

  lemma {:induction false} FedIs(n: nat, b: nat, k: nat)
    ensures Fed(n, b, k) == Min(k * b, n)
  {
    if k > 0 {
      FedIs(n, b, k - 1);
      assert (k - 1) * b + b == k * b;
    }
  }

  /** `k` flushes that succeed, nobody enqueueing: each takes `b` more events off the front. */
  lemma {:induction false} FlushesDeliver(p: Pipe, b: int, k: nat)
    requires b >= 1 && p.inFlight == []
    ensures var m := Fed(|p.queue|, b, k);
            Run(p, Flushes(b, k)) == Pipe(p.queue[m..], [], p.delivered + p.queue[..m], p.accepted)
  {
    if k == 0 {
      assert p.queue[..0] == [] && p.delivered + [] == p.delivered;
    } else {
      hide Run;
      FlushesDeliver(p, b, k - 1);
      var m := Fed(|p.queue|, b, k - 1);
      RunAppend(p, Flushes(b, k - 1), [Take(b), Settle(true)]);
      OneFlush(Run(p, Flushes(b, k - 1)), b);
      Bite(p.queue, m, b);
      Delivered(p.delivered, p.queue[..m], p.queue[m..][..Min(b, |p.queue[m..]|)]);
    }
  }

  lemma Delivered(a: seq<Event>, b: seq<Event>, c: seq<Event>)
    ensures (a + b) + c == a + (b + c)
  {
  }

  /** After any history, `k` flushes that succeed deliver everything accepted, in order,
      exactly when `k` batches of `b` cover what was queued. */
  lemma DrainsExactly(ops: seq<Op>, b: int, k: nat)
    requires b >= 1 && Run(Empty(), ops).inFlight == []
    ensures var p := Run(Empty(), ops);
            var q := Run(Empty(), ops + Flushes(b, k));
            q.delivered == q.accepted <==> k * b >= |p.queue|
  {
    var p := Run(Empty(), ops);
    NothingLostOrRepeated(ops + Flushes(b, k));
    RunAppend(Empty(), ops, Flushes(b, k));
    FlushesDeliver(p, b, k);
    FedIs(|p.queue|, b, k);
    var q := Run(Empty(), ops + Flushes(b, k));
    assert |q.delivered| + |q.inFlight| + |q.queue| == |q.accepted|;
  }

  /** A negative batch size takes everything at once. */
  lemma NegativeTakesAll(p: Pipe, b: int)
    requires b < 0 && p.inFlight == []
    ensures Run(p, [Take(b), Settle(true)]) == Pipe([], [], p.delivered + p.queue, p.accepted)
  {
    var ops := [Take(b), Settle(true)];
    assert ops[..1] == [Take(b)] && [Take(b)][..0] == [];
    assert Run(p, [Take(b)]) == Apply(p, Take(b));
  }

  /** A batch size of zero sends nothing, ever. */
  lemma {:induction false} ZeroNeverSends(p: Pipe, k: nat)
    requires p.inFlight == []
    ensures Run(p, Flushes(0, k)) == p
  {
    if k > 0 {
      ZeroNeverSends(p, k - 1);
      RunAppend(p, Flushes(0, k - 1), [Take(0), Settle(true)]);
      var ops := [Take(0), Settle(true)];
      assert ops[..1] == [Take(0)] && [Take(0)][..0] == [];
      assert Run(p, [Take(0)]) == Apply(p, Take(0));
      assert p.delivered + [] == p.delivered;
    }
  }
}
