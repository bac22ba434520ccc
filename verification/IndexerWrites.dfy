/** How many durable writes a tick makes, when it is cut short, and for which webhooks its rows are enqueued. */
module IndexerWrites {
  import opened Base
  import opened EventIndexer
  import opened IndexerRuns

  // ---------------------------------------------------------------- when a tick is cut short

  /** With `n` writes or more the work ends at `u`; with fewer it is cut short when they are used up. */
  ghost predicate Exact(p: Progress, n: nat, u: Tables, left: nat) {
    if n <= left then p == Progress(u, left - n, true) else !p.alive && p.left == 0
  }

  /** What the rows and the deliveries have grown by. */
  ghost function Growth(t: Tables, u: Tables): int {
    |u.rows| - |t.rows| + |u.deliveries| - |t.deliveries|
  }

  function DeliveriesFor(row: nat, hooks: seq<string>): (r: seq<Delivery>)
    ensures |r| == |hooks|
  {
    seq(|hooks|, i requires 0 <= i < |hooks| => Delivery(hooks[i], row))
  }

  // One delivery a webhook, in their order.
  lemma {:induction false} EnqueueCost(t: Tables, row: nat, hooks: seq<string>, left: nat)
    ensures Exact(Enqueue(t, row, hooks, left), |hooks|, t.(deliveries := t.deliveries + DeliveriesFor(row, hooks)),
                  left)
    decreases |hooks|
  {
    if hooks == [] {
      assert t.deliveries + [] == t.deliveries;
    } else if left > 0 {
      var more := t.deliveries + [Delivery(hooks[0], row)];
      EnqueueCost(t.(deliveries := more), row, hooks[1..], left - 1);
      assert more + DeliveriesFor(row, hooks[1..]) == t.deliveries + DeliveriesFor(row, hooks);
    }
  }

  // A known event costs nothing; a new one its row and its deliveries.
  lemma EventCost(t: Tables, e: RpcEvent, hooks: seq<string>) returns (n: nat, u: Tables)
    ensures forall left: nat :: Exact(IndexEvent(t, e, hooks, left), n, u, left)
    ensures n == Growth(t, u) && n == if Known(t.rows, e) then 0 else 1 + |hooks|
  {
    if Known(t.rows, e) {
      n, u := 0, t;
    } else {
      var added := t.(rows := t.rows + [e]);
      n, u := 1 + |hooks|, added.(deliveries := t.deliveries + DeliveriesFor(|t.rows|, hooks));
      forall left: nat ensures Exact(IndexEvent(t, e, hooks, left), n, u, left) {
        if left > 0 {
          EnqueueCost(added, |t.rows|, hooks, left - 1);
        }
      }
    }
  }

  lemma {:induction false} PageCost(t: Tables, events: seq<RpcEvent>, hooks: seq<string>) returns (n: nat, u: Tables)
    ensures forall left: nat :: Exact(IndexPage(t, events, hooks, left), n, u, left)
    ensures n == Growth(t, u)
    decreases |events|
  {
    if events == [] {
      n, u := 0, t;
    } else {
      var first, v := EventCost(t, events[0], hooks);
      var rest, w := PageCost(v, events[1..], hooks);
      n, u := first + rest, w;
      forall left: nat ensures Exact(IndexPage(t, events, hooks, left), n, u, left) {
        assert Exact(IndexEvent(t, events[0], hooks, left), first, v, left);
        if first <= left {
          assert Exact(IndexPage(v, events[1..], hooks, left - first), rest, w, left - first);
        }
      }
    }
  }

  // A cursor move is one write, and only a later ledger than the tick began with moves it.
  lemma AdvanceCost(t: Tables, eventType: string, start: nat, high: nat) returns (n: nat, u: Tables)
    ensures forall left: nat :: Exact(Advance(t, eventType, start, high, left), n, u, left)
    ensures u.rows == t.rows && u.deliveries == t.deliveries
    ensures if high > start then n == 1 && u.cursors == t.cursors[eventType := high] else n == 0 && u == t
  {
    n, u := if high > start then 1 else 0, if high > start then t.(cursors := t.cursors[eventType := high]) else t;
  }

  lemma {:induction false} PagesCost(t: Tables, rpc: Rpc, target: Target, hooks: seq<string>, start: nat, high: nat,
                                     from: nat) returns (n: nat, u: Tables, moves: nat)
    requires Progressing(rpc)
    ensures forall left: nat :: Exact(IndexFrom(t, rpc, target, hooks, start, high, from, left), n, u, left)
    ensures n == Growth(t, u) + moves
    decreases if from <= rpc.latest then rpc.latest + 1 - from else 0
  {
    var page := rpc.fetch(target, from);
    var first, v := PageCost(t, page.events, hooks);
    var reached, w := HighWater(page.events, high), v;
    moves := 0;
    if page.events != [] {
      moves, w := AdvanceCost(v, target.eventType, start, reached);
    }
    n, u := first + moves, w;
    forall left: nat | left < n
      ensures !IndexFrom(t, rpc, target, hooks, start, high, from, left).alive
      ensures IndexFrom(t, rpc, target, hooks, start, high, from, left).left == 0
    {
      assert Exact(IndexPage(t, page.events, hooks, left), first, v, left);
      if first <= left {
        assert Exact(Advance(v, target.eventType, start, reached, left - first), moves, w, left - first);
      }
    }
    if page.nextLedger.Some? {
      var here, rest, more := n, 0, 0;
      rest, u, more := PagesCost(w, rpc, target, hooks, start, reached, page.nextLedger.value);
      n, moves := n + rest, moves + more;
      forall left: nat ensures Exact(IndexFrom(t, rpc, target, hooks, start, high, from, left), n, u, left) {
        if here <= left {
          PageStep(t, rpc, target, hooks, start, high, from, left, first, v, here - first, w);
          assert Exact(IndexFrom(w, rpc, target, hooks, start, reached, page.nextLedger.value, left - here), rest, u,
                       left - here);
        }
      }
    } else {
      forall left: nat ensures Exact(IndexFrom(t, rpc, target, hooks, start, high, from, left), n, u, left) {
        if n <= left {
          PageStep(t, rpc, target, hooks, start, high, from, left, first, v, n - first, w);
        }
      }
    }
  }

  // With enough writes for one page and its cursor move, the rest is left for the next one.
  lemma PageStep(t: Tables, rpc: Rpc, target: Target, hooks: seq<string>, start: nat, high: nat, from: nat, left: nat,
                 first: nat, v: Tables, moves: nat, w: Tables)
    requires Progressing(rpc) && first + moves <= left
    requires var page := rpc.fetch(target, from);
             && Exact(IndexPage(t, page.events, hooks, left), first, v, left)
             && if page.events == [] then moves == 0 && w == v
                else Exact(Advance(v, target.eventType, start, HighWater(page.events, high), left - first), moves, w,
                           left - first)
    ensures var page, rest := rpc.fetch(target, from), left - first - moves;
            IndexFrom(t, rpc, target, hooks, start, high, from, left)
            == if page.nextLedger.None? then Progress(w, rest, true)
               else IndexFrom(w, rpc, target, hooks, start, HighWater(page.events, high), page.nextLedger.value, rest)
  {
  }

  // A tick is cut short exactly when the process does not live to make all its writes: one for every new row, one for
  // every delivery, one for every cursor move. Where it is not, it always ends in the same tables.
  lemma {:induction false} CutShortExactly(t: Tables, rpc: Rpc, targets: seq<Target>, hooks: map<string, seq<string>>)
    returns (n: nat, u: Tables, moves: nat)
    requires Progressing(rpc)
    ensures forall left: nat :: Exact(AfterTick(t, rpc, targets, hooks, left), n, u, left)
    ensures n == Growth(t, u) + moves
    decreases |targets|
  {
    if targets == [] {
      n, u, moves := 0, t, 0;
    } else {
      var target, own := targets[0], Hooks(hooks, targets[0].eventType);
      var start := Cursor(t, target.eventType);
      var first, v, some := PagesCost(t, rpc, target, own, start, start, FirstLedger(t, target.eventType));
      var rest, w, more := CutShortExactly(v, rpc, targets[1..], hooks);
      n, u, moves := first + rest, w, some + more;
      forall left: nat ensures Exact(AfterTick(t, rpc, targets, hooks, left), n, u, left) {
        assert Exact(AfterTarget(t, rpc, target, own, left), first, v, left);
        if first <= left {
          assert Exact(AfterTick(v, rpc, targets[1..], hooks, left - first), rest, w, left - first);
        }
      }
    }
  }

  // ---------------------------------------------------------------- for which webhooks rows are enqueued

  /** The webhooks registered for an event type. */
  function Registered(hooks: map<string, seq<string>>, eventType: string): seq<string> {
    if eventType in hooks then hooks[eventType] else []
  }

  /** No delivery names a row that is not there. */
  ghost predicate Sound(t: Tables) {
    forall row: nat :: row >= |t.rows| ==> DeliveriesOf(t.deliveries, row) == []
  }

  /**
   * Old rows keep their deliveries; every new one is enqueued for the webhooks of its type, in order, all of them
   * unless it is the last row of work that was cut short.
   */
  ghost predicate Enqueued(t: Tables, u: Tables, hooks: map<string, seq<string>>, alive: bool) {
    && Sound(u) && t.rows <= u.rows
    && (forall row: nat :: row < |t.rows| ==> DeliveriesOf(u.deliveries, row) == DeliveriesOf(t.deliveries, row))
    && forall row: nat :: |t.rows| <= row < |u.rows| ==>
         && DeliveriesOf(u.deliveries, row) <= Registered(hooks, u.rows[row].topic)
         && (alive || row < |u.rows| - 1 ==>
               DeliveriesOf(u.deliveries, row) == Registered(hooks, u.rows[row].topic))
  }

  lemma EnqueuedTransitive(t: Tables, u: Tables, v: Tables, hooks: map<string, seq<string>>, alive: bool)
    requires Enqueued(t, u, hooks, true) && Enqueued(u, v, hooks, alive)
    ensures Enqueued(t, v, hooks, alive)
  {
    forall row: nat | |t.rows| <= row < |v.rows|
      ensures DeliveriesOf(v.deliveries, row) <= Registered(hooks, v.rows[row].topic)
      ensures alive || row < |v.rows| - 1 ==>
                DeliveriesOf(v.deliveries, row) == Registered(hooks, v.rows[row].topic)
    {
      if row < |u.rows| {
        assert v.rows[row] == u.rows[row];
      }
    }
  }

  lemma EventEnqueues(t: Tables, e: RpcEvent, hooks: map<string, seq<string>>, left: nat)
    requires Sound(t)
    ensures var p := IndexEvent(t, e, Registered(hooks, e.topic), left);
            Enqueued(t, p.tables, hooks, p.alive)
  {
    if !Known(t.rows, e) && left > 0 {
      var own, added := Registered(hooks, e.topic), t.(rows := t.rows + [e]);
      var p := IndexEvent(t, e, own, left);
      forall row: nat
        ensures DeliveriesOf(p.tables.deliveries, row)
                == DeliveriesOf(t.deliveries, row) + if row == |t.rows| then own[..Min(left - 1, |own|)] else []
      {
        EnqueueExactly(added, |t.rows|, own, left - 1, row);
      }
      assert p.tables.rows == t.rows + [e] && (p.alive <==> |own| <= left - 1) by {
        EnqueueExactly(added, |t.rows|, own, left - 1, 0);
      }
    }
  }

  lemma {:induction false} PageEnqueues(t: Tables, events: seq<RpcEvent>, eventType: string,
                                        hooks: map<string, seq<string>>, left: nat)
    requires Sound(t) && forall e :: e in events ==> e.topic == eventType
    ensures var p := IndexPage(t, events, Registered(hooks, eventType), left);
            Enqueued(t, p.tables, hooks, p.alive)
    decreases |events|
  {
    if events != [] {
      assert events[0] in events;
      EventEnqueues(t, events[0], hooks, left);
      var first := IndexEvent(t, events[0], Registered(hooks, eventType), left);
      if first.alive {
        PageEnqueues(first.tables, events[1..], eventType, hooks, first.left);
        var p := IndexPage(first.tables, events[1..], Registered(hooks, eventType), first.left);
        EnqueuedTransitive(t, first.tables, p.tables, hooks, p.alive);
      }
    }
  }

  /** A server answers a query with nothing but events of the type asked for. */
  ghost predicate Selective(rpc: Rpc) {
    forall target: Target, n: nat, e :: e in rpc.fetch(target, n).events ==> e.topic == target.eventType
  }

  lemma {:induction false} PagesEnqueue(t: Tables, rpc: Rpc, target: Target, hooks: map<string, seq<string>>,
                                        start: nat, high: nat, from: nat, left: nat)
    requires Sound(t) && Progressing(rpc) && Selective(rpc)
    ensures var p := IndexFrom(t, rpc, target, Registered(hooks, target.eventType), start, high, from, left);
            Enqueued(t, p.tables, hooks, p.alive)
    decreases if from <= rpc.latest then rpc.latest + 1 - from else 0
  {
    var page, own := rpc.fetch(target, from), Registered(hooks, target.eventType);
    PageEnqueues(t, page.events, target.eventType, hooks, left);
    var p := IndexPage(t, page.events, own, left);
    if p.alive {
      var reached := HighWater(page.events, high);
      var q := if page.events == [] then p else Advance(p.tables, target.eventType, start, reached, p.left);
      assert Enqueued(t, q.tables, hooks, true);
      if q.alive && page.nextLedger.Some? {
        PagesEnqueue(q.tables, rpc, target, hooks, start, reached, page.nextLedger.value, q.left);
        var r := IndexFrom(q.tables, rpc, target, own, start, reached, page.nextLedger.value, q.left);
        EnqueuedTransitive(t, q.tables, r.tables, hooks, r.alive);
      }
    }
  }

  // Over a whole tick: each new row is enqueued for exactly the webhooks of its own type, in order and once each, but
  // for the last row of a tick that is cut short, which may miss the later ones.
  lemma {:induction false} TickEnqueuesExactly(t: Tables, rpc: Rpc, targets: seq<Target>,
                                               hooks: map<string, seq<string>>, left: nat)
    requires Sound(t) && Progressing(rpc) && Selective(rpc)
    ensures var p := AfterTick(t, rpc, targets, hooks, left);
            Enqueued(t, p.tables, hooks, p.alive)
    decreases |targets|
  {
    if targets != [] {
      var target, own := targets[0], Registered(hooks, targets[0].eventType);
      var start := Cursor(t, target.eventType);
      PagesEnqueue(t, rpc, target, hooks, start, start, FirstLedger(t, target.eventType), left);
      var first := AfterTarget(t, rpc, target, own, left);
      assert Hooks(hooks, target.eventType) == own;
      if first.alive {
        TickEnqueuesExactly(first.tables, rpc, targets[1..], hooks, first.left);
        var p := AfterTick(first.tables, rpc, targets[1..], hooks, first.left);
        EnqueuedTransitive(t, first.tables, p.tables, hooks, p.alive);
      }
    }
  }
}
