/** What the indexer keeps over every run of ticks, wherever each of them is cut short. */
module IndexerRuns {
  import opened Base
  import opened EventIndexer

  // ---------------------------------------------------------------- deliveries

  /** The webhooks a row was enqueued for, in order. */
  function DeliveriesOf(deliveries: seq<Delivery>, row: nat): seq<string> {
    if deliveries == [] then []
    else
      var last := deliveries[|deliveries| - 1];
      DeliveriesOf(deliveries[..|deliveries| - 1], row) + if last.row == row then [last.webhookId] else []
  }

  predicate Distinct<T(==)>(s: seq<T>) {
    forall i, j :: 0 <= i < j < |s| ==> s[i] != s[j]
  }

  function Min(a: nat, b: nat): nat {
    if a <= b then a else b
  }

  lemma {:induction false} EnqueueExactly(t: Tables, row: nat, hooks: seq<string>, left: nat, other: nat)
    ensures var p := Enqueue(t, row, hooks, left);
            && p.tables == t.(deliveries := p.tables.deliveries)
            && p.left <= left && (p.alive <==> |hooks| <= left)
            && DeliveriesOf(p.tables.deliveries, other)
               == DeliveriesOf(t.deliveries, other) + if other == row then hooks[..Min(left, |hooks|)] else []
    decreases |hooks|
  {
    if hooks != [] && left > 0 {
      var more := t.deliveries + [Delivery(hooks[0], row)];
      assert more[..|t.deliveries|] == t.deliveries;
      EnqueueExactly(t.(deliveries := more), row, hooks[1..], left - 1, other);
      assert hooks[..Min(left, |hooks|)] == [hooks[0]] + hooks[1..][..Min(left - 1, |hooks| - 1)];
    }
  }

  /** Every row has a key of its own; no webhook is enqueued twice for a row, nor for a row that does not exist. */
  ghost predicate Tidy(t: Tables) {
    && (forall i, j :: 0 <= i < j < |t.rows| ==> !SameKey(t.rows[i], t.rows[j]))
    && (forall row: nat :: Distinct(DeliveriesOf(t.deliveries, row)))
    && (forall row: nat :: row >= |t.rows| ==> DeliveriesOf(t.deliveries, row) == [])
  }

  /** What no tick undoes: rows stay, with the deliveries they have, and cursors never move back. */
  ghost predicate Keeps(t: Tables, u: Tables) {
    && t.rows <= u.rows
    && (forall row: nat :: row < |t.rows| ==> DeliveriesOf(u.deliveries, row) == DeliveriesOf(t.deliveries, row))
    && (forall eventType :: eventType in t.cursors ==>
        eventType in u.cursors && t.cursors[eventType] <= u.cursors[eventType])
  }

  lemma KeepsTransitive(t: Tables, u: Tables, v: Tables)
    requires Keeps(t, u) && Keeps(u, v)
    ensures Keeps(t, v)
  {
  }

  // A new event is enqueued for as many of its webhooks as the process lives to write, and never for the others.
  lemma IndexEventExactly(t: Tables, e: RpcEvent, hooks: seq<string>, left: nat)
    requires Tidy(t) && Distinct(hooks)
    ensures var p := IndexEvent(t, e, hooks, left);
            && Tidy(p.tables) && Keeps(t, p.tables) && p.tables.cursors == t.cursors
            && (p.alive ==> Known(p.tables.rows, e))
            && (p.tables.rows == t.rows || p.tables.rows == t.rows + [e])
            && (!Known(t.rows, e) && left > 0 ==>
                  DeliveriesOf(p.tables.deliveries, |t.rows|) == hooks[..Min(left - 1, |hooks|)])
  {
    if !Known(t.rows, e) && left > 0 {
      var p := IndexEvent(t, e, hooks, left);
      forall row: nat
        ensures DeliveriesOf(p.tables.deliveries, row)
                == DeliveriesOf(t.deliveries, row) + if row == |t.rows| then hooks[..Min(left - 1, |hooks|)] else []
      {
        EnqueueExactly(t.(rows := t.rows + [e]), |t.rows|, hooks, left - 1, row);
      }
      assert p.tables.rows == t.rows + [e] && p.tables.cursors == t.cursors by {
        EnqueueExactly(t.(rows := t.rows + [e]), |t.rows|, hooks, left - 1, 0);
      }
      assert p.tables.rows[|t.rows|] == e;
    }
  }

  // ---------------------------------------------------------------- pages and cursors

  /** The target's events below a ledger are indexed, except those given up for lost. */
  ghost predicate IndexedBelow(rows: seq<RpcEvent>, log: seq<RpcEvent>, target: Target, ledger: nat,
                               lost: set<RpcEvent>) {
    forall e :: e in log && e !in lost && Of(e, target) && e.ledger < ledger ==> Known(rows, e)
  }

  /** Every event at or below a target's cursor is indexed, up to its key. */
  ghost predicate Covers(t: Tables, log: seq<RpcEvent>, latest: nat, target: Target, lost: set<RpcEvent>) {
    FirstLedger(t, target.eventType) <= latest + 1
        && IndexedBelow(t.rows, log, target, FirstLedger(t, target.eventType), lost)
  }

  /** What indexing part of a target's events does. */
  ghost predicate Extends(t: Tables, u: Tables, log: seq<RpcEvent>, target: Target) {
    && Keeps(t, u)
    && (Tidy(t) ==> Tidy(u))
    && (forall i :: |t.rows| <= i < |u.rows| ==> u.rows[i] in log && Of(u.rows[i], target))
    && (forall eventType :: eventType != target.eventType ==>
          (eventType in t.cursors <==> eventType in u.cursors)
          && (eventType in t.cursors ==> t.cursors[eventType] == u.cursors[eventType]))
  }

  lemma ExtendsTransitive(t: Tables, u: Tables, v: Tables, log: seq<RpcEvent>, target: Target)
    requires Extends(t, u, log, target) && Extends(u, v, log, target)
    ensures Extends(t, v, log, target)
  {
  }

  lemma KnownStays(rows: seq<RpcEvent>, more: seq<RpcEvent>, e: RpcEvent)
    requires rows <= more && Known(rows, e)
    ensures Known(more, e)
  {
    var i :| 0 <= i < |rows| && SameKey(rows[i], e);
    assert more[i] == rows[i];
  }

  lemma IndexedStays(rows: seq<RpcEvent>, more: seq<RpcEvent>, log: seq<RpcEvent>, target: Target, ledger: nat,
                     lost: set<RpcEvent>)
    requires rows <= more && IndexedBelow(rows, log, target, ledger, lost)
    ensures IndexedBelow(more, log, target, ledger, lost)
  {
    forall e | e in log && e !in lost && Of(e, target) && e.ledger < ledger ensures Known(more, e) {
      KnownStays(rows, more, e);
    }
  }

  lemma {:induction false} IndexPageExtends(t: Tables, events: seq<RpcEvent>, hooks: seq<string>, left: nat,
                                            log: seq<RpcEvent>, target: Target)
    requires Tidy(t) && Distinct(hooks)
    requires forall e :: e in events ==> e in log && Of(e, target)
    ensures var p := IndexPage(t, events, hooks, left);
            && Extends(t, p.tables, log, target) && p.tables.cursors == t.cursors
            && (p.alive ==> forall e :: e in events ==> Known(p.tables.rows, e))
    decreases |events|
  {
    if events != [] {
      IndexEventExactly(t, events[0], hooks, left);
      var first := IndexEvent(t, events[0], hooks, left);
      assert events[0] in events;
      if first.alive {
        var p := IndexPage(first.tables, events[1..], hooks, first.left);
        IndexPageExtends(first.tables, events[1..], hooks, first.left, log, target);
        ExtendsTransitive(t, first.tables, p.tables, log, target);
        if p.alive {
          KnownStays(first.tables.rows, p.tables.rows, events[0]);
        }
      }
    }
  }

  lemma {:induction false} HighWaterIsMaximum(events: seq<RpcEvent>, high: nat)
    ensures HighWater(events, high) >= high
    ensures forall e :: e in events ==> e.ledger <= HighWater(events, high)
    ensures HighWater(events, high) == high || exists e :: e in events && e.ledger == HighWater(events, high)
    decreases |events|
  {
    if events != [] {
      var next := if events[0].ledger > high then events[0].ledger else high;
      HighWaterIsMaximum(events[1..], next);
      assert events[0] in events;
      if HighWater(events, high) != high && HighWater(events, high) != next {
        var e :| e in events[1..] && e.ledger == HighWater(events, high);
        assert e in events;
      }
    }
  }

  /** Where a tick stands before it asks for the page at `from`. */
  ghost predicate Underway(t: Tables, log: seq<RpcEvent>, latest: nat, target: Target, start: nat, high: nat,
                           from: nat, lost: set<RpcEvent>) {
    && from <= latest + 1
    && IndexedBelow(t.rows, log, target, from, lost)
    && (high < from || high == start)
    && Cursor(t, target.eventType) <= high
    && start <= high
    && Covers(t, log, latest, target, lost)
  }

  lemma AdvanceCovers(t: Tables, log: seq<RpcEvent>, latest: nat, target: Target, start: nat, high: nat, end: nat,
                      left: nat, lost: set<RpcEvent>)
    requires Tidy(t) && Covers(t, log, latest, target, lost) && end <= latest + 1
    requires IndexedBelow(t.rows, log, target, end, lost)
    requires high > start ==> high < end
    requires Cursor(t, target.eventType) <= high
    ensures var q := Advance(t, target.eventType, start, high, left);
            Extends(t, q.tables, log, target) && Covers(q.tables, log, latest, target, lost)
            && q.tables.rows == t.rows && Cursor(q.tables, target.eventType) <= high
  {
  }

  // One page: its events are indexed before the cursor moves past them.
  lemma PageIsIndexed(t: Tables, rpc: Rpc, log: seq<RpcEvent>, target: Target, hooks: seq<string>, start: nat,
                      high: nat, from: nat, left: nat, lost: set<RpcEvent>)
    requires Tidy(t) && Distinct(hooks) && Aligned(rpc, log)
             && Underway(t, log, rpc.latest, target, start, high, from, lost)
    ensures var page := rpc.fetch(target, from);
            var p := IndexPage(t, page.events, hooks, left);
            var reached := HighWater(page.events, high);
            && Extends(t, p.tables, log, target) && Covers(p.tables, log, rpc.latest, target, lost)
            && p.tables.cursors == t.cursors
            && (p.alive ==> IndexedBelow(p.tables.rows, log, target, End(rpc, target, from), lost))
            && start <= high <= reached && (reached < End(rpc, target, from) || reached == start)
  {
    var page := rpc.fetch(target, from);
    assert Serves(rpc, log, target, from);
    var p := IndexPage(t, page.events, hooks, left);
    IndexPageExtends(t, page.events, hooks, left, log, target);
    HighWaterIsMaximum(page.events, high);
    IndexedStays(t.rows, p.tables.rows, log, target, from, lost);
    IndexedStays(t.rows, p.tables.rows, log, target, FirstLedger(t, target.eventType), lost);
  }

  lemma {:induction false} IndexFromCovers(t: Tables, rpc: Rpc, log: seq<RpcEvent>, target: Target,
                                           hooks: seq<string>, start: nat, high: nat, from: nat, left: nat,
                                               lost: set<RpcEvent>)
    requires Tidy(t) && Distinct(hooks) && Aligned(rpc, log)
             && Underway(t, log, rpc.latest, target, start, high, from, lost)
    ensures var p := IndexFrom(t, rpc, target, hooks, start, high, from, left);
            && Extends(t, p.tables, log, target) && Covers(p.tables, log, rpc.latest, target, lost)
            && (p.alive ==> IndexedBelow(p.tables.rows, log, target, rpc.latest + 1, lost))
    decreases rpc.latest + 1 - from
  {
    var page := rpc.fetch(target, from);
    var p := IndexPage(t, page.events, hooks, left);
    var reached := HighWater(page.events, high);
    var end := End(rpc, target, from);
    PageIsIndexed(t, rpc, log, target, hooks, start, high, from, left, lost);
    if p.alive {
      var q := if page.events == [] then p else Advance(p.tables, target.eventType, start, reached, p.left);
      AdvanceCovers(p.tables, log, rpc.latest, target, start, reached, end, p.left, lost);
      ExtendsTransitive(t, p.tables, q.tables, log, target);
      if q.alive && page.nextLedger.Some? {
        IndexFromCovers(q.tables, rpc, log, target, hooks, start, reached, end, q.left, lost);
        ExtendsTransitive(t, q.tables, IndexFrom(q.tables, rpc, target, hooks, start, reached, end, q.left).tables,
            log, target);
      }
    }
  }

  // ---------------------------------------------------------------- ticks and restarts

  /** Cursors are kept per event type, so a type must have one target. */
  ghost predicate OnePerType(targets: seq<Target>) {
    forall i, j :: 0 <= i < j < |targets| ==> targets[i].eventType != targets[j].eventType
  }

  ghost predicate CoversAll(t: Tables, log: seq<RpcEvent>, latest: nat, targets: seq<Target>, lost: set<RpcEvent>) {
    forall i :: 0 <= i < |targets| ==> Covers(t, log, latest, targets[i], lost)
  }

  ghost predicate DistinctHooks(hooks: map<string, seq<string>>) {
    forall eventType :: eventType in hooks ==> Distinct(hooks[eventType])
  }

  /** Rows are log events some target asked for. */
  ghost predicate FromLog(t: Tables, u: Tables, log: seq<RpcEvent>, targets: seq<Target>) {
    forall i :: |t.rows| <= i < |u.rows| ==>
      u.rows[i] in log && exists j :: 0 <= j < |targets| && Of(u.rows[i], targets[j])
  }

  lemma TargetCoversAll(t: Tables, rpc: Rpc, log: seq<RpcEvent>, targets: seq<Target>, i: nat, hooks: seq<string>,
                        left: nat, lost: set<RpcEvent>)
    requires Tidy(t) && Distinct(hooks) && Aligned(rpc, log) && OnePerType(targets) && i < |targets|
    requires CoversAll(t, log, rpc.latest, targets, lost)
    ensures var p := AfterTarget(t, rpc, targets[i], hooks, left);
            && Extends(t, p.tables, log, targets[i]) && CoversAll(p.tables, log, rpc.latest, targets, lost)
            && (p.alive ==> IndexedBelow(p.tables.rows, log, targets[i], rpc.latest + 1, lost))
  {
    var start := Cursor(t, targets[i].eventType);
    IndexFromCovers(t, rpc, log, targets[i], hooks, start, start, FirstLedger(t, targets[i].eventType), left, lost);
    var p := AfterTarget(t, rpc, targets[i], hooks, left);
    forall j | 0 <= j < |targets| ensures Covers(p.tables, log, rpc.latest, targets[j], lost) {
      if j != i {
        assert targets[j].eventType != targets[i].eventType;
        assert FirstLedger(p.tables, targets[j].eventType) == FirstLedger(t, targets[j].eventType);
        IndexedStays(t.rows, p.tables.rows, log, targets[j], FirstLedger(t, targets[j].eventType), lost);
      }
    }
  }

  lemma {:induction false} TickCovers(t: Tables, rpc: Rpc, log: seq<RpcEvent>, targets: seq<Target>, i: nat,
                                      hooks: map<string, seq<string>>, left: nat, lost: set<RpcEvent>)
    requires Tidy(t) && DistinctHooks(hooks) && Aligned(rpc, log) && OnePerType(targets) && i <= |targets|
    requires CoversAll(t, log, rpc.latest, targets, lost)
    ensures var p := AfterTick(t, rpc, targets[i..], hooks, left);
            && Tidy(p.tables) && Keeps(t, p.tables) && FromLog(t, p.tables, log, targets)
            && CoversAll(p.tables, log, rpc.latest, targets, lost)
            && (p.alive ==> forall j :: i <= j < |targets| ==>
                IndexedBelow(p.tables.rows, log, targets[j], rpc.latest + 1, lost))
    decreases |targets| - i
  {
    if i < |targets| {
      var own := Hooks(hooks, targets[i].eventType);
      TargetCoversAll(t, rpc, log, targets, i, own, left, lost);
      var first := AfterTarget(t, rpc, targets[i], own, left);
      assert targets[i..][1..] == targets[i + 1..];
      if first.alive {
        TickCovers(first.tables, rpc, log, targets, i + 1, hooks, first.left, lost);
        var p := AfterTick(first.tables, rpc, targets[i + 1..], hooks, first.left);
        KeepsTransitive(t, first.tables, p.tables);
        IndexedStays(first.tables.rows, p.tables.rows, log, targets[i], rpc.latest + 1, lost);
      }
    }
  }

  /** One tick of a run: the server and its log at that time, the registered webhooks, and where the process stops. */
  datatype Step = Step(rpc: Rpc, log: seq<RpcEvent>, hooks: map<string, seq<string>>, left: nat)

  ghost predicate Faithful(s: Step) {
    Aligned(s.rpc, s.log) && DistinctHooks(s.hooks)
  }

  /** The log is append-only and closed ledgers stay as they are. */
  ghost predicate Grows(log: seq<RpcEvent>, latest: nat, longer: seq<RpcEvent>, later: nat) {
    log <= longer && latest <= later && forall i :: |log| <= i < |longer| ==> longer[i].ledger > latest
  }

  ghost predicate History(steps: seq<Step>, log: seq<RpcEvent>, latest: nat)
    decreases |steps|
  {
    steps == [] ||
    (Faithful(steps[0]) && Grows(log, latest, steps[0].log, steps[0].rpc.latest)
     && History(steps[1..], steps[0].log, steps[0].rpc.latest))
  }

  ghost function Run(t: Tables, targets: seq<Target>, steps: seq<Step>): Tables
    requires forall s :: s in steps ==> Progressing(s.rpc)
    decreases |steps|
  {
    if steps == [] then t
    else
      var s := steps[0];
      assert s in steps;
      Run(AfterTick(t, s.rpc, targets, s.hooks, s.left).tables, targets, steps[1..])
  }

  lemma {:induction false} HistoryProgresses(steps: seq<Step>, log: seq<RpcEvent>, latest: nat)
    requires History(steps, log, latest)
    ensures forall s :: s in steps ==> Progressing(s.rpc)
    decreases |steps|
  {
    if steps != [] {
      HistoryProgresses(steps[1..], steps[0].log, steps[0].rpc.latest);
    }
  }

  lemma GrownLogIsCovered(t: Tables, log: seq<RpcEvent>, latest: nat, longer: seq<RpcEvent>, later: nat,
                          targets: seq<Target>, lost: set<RpcEvent>)
    requires CoversAll(t, log, latest, targets, lost) && Grows(log, latest, longer, later)
    ensures CoversAll(t, longer, later, targets, lost)
  {
    forall i, e | 0 <= i < |targets| && e in longer && e !in lost && Of(e, targets[i])
        && e.ledger < FirstLedger(t, targets[i].eventType)
      ensures Known(t.rows, e)
    {
      assert Covers(t, log, latest, targets[i], lost);
      assert e in log;
    }
    forall i | 0 <= i < |targets| ensures Covers(t, longer, later, targets[i], lost) {
      assert Covers(t, log, latest, targets[i], lost);
    }
  }

  ghost function LastLog(steps: seq<Step>, log: seq<RpcEvent>): seq<RpcEvent> {
    if steps == [] then log else steps[|steps| - 1].log
  }

  ghost function LastLedger(steps: seq<Step>, latest: nat): nat {
    if steps == [] then latest else steps[|steps| - 1].rpc.latest
  }

  // Wherever every tick stops: no cursor moves back, every event up to a cursor is indexed, no webhook is enqueued
  // twice for an event, and a row that outlives its tick never gets another delivery.
  lemma {:induction false} EveryRunCovers(t: Tables, targets: seq<Target>, steps: seq<Step>, log: seq<RpcEvent>,
                                          latest: nat, lost: set<RpcEvent>)
    requires OnePerType(targets) && History(steps, log, latest)
    requires Tidy(t) && CoversAll(t, log, latest, targets, lost)
    ensures forall s :: s in steps ==> Progressing(s.rpc)
    ensures Tidy(Run(t, targets, steps)) && Keeps(t, Run(t, targets, steps))
    ensures CoversAll(Run(t, targets, steps), LastLog(steps, log), LastLedger(steps, latest), targets, lost)
    decreases |steps|
  {
    HistoryProgresses(steps, log, latest);
    if steps != [] {
      var s := steps[0];
      assert s in steps && targets[0..] == targets;
      GrownLogIsCovered(t, log, latest, s.log, s.rpc.latest, targets, lost);
      TickCovers(t, s.rpc, s.log, targets, 0, s.hooks, s.left, lost);
      var next := AfterTick(t, s.rpc, targets, s.hooks, s.left).tables;
      EveryRunCovers(next, targets, steps[1..], s.log, s.rpc.latest, lost);
      KeepsTransitive(t, next, Run(next, targets, steps[1..]));
    }
  }

  // A tick that is not cut short indexes every event of the log it saw.
  lemma CompleteTickCatchesUp(targets: seq<Target>, steps: seq<Step>, last: Step)
    requires OnePerType(targets) && History(steps + [last], [], 0)
    ensures forall s :: s in steps ==> Progressing(s.rpc)
    ensures Progressing(last.rpc)
    ensures var p := AfterTick(Run(Tables(map[], [], []), targets, steps), last.rpc, targets, last.hooks, last.left);
            p.alive ==> forall e, j :: e in last.log && 0 <= j < |targets| && Of(e, targets[j]) ==>
                Known(p.tables.rows, e)
  {
    var t := Tables(map[], [], []);
    HistorySplits(steps, last, [], 0);
    EveryRunCovers(t, targets, steps, [], 0, {});
    var u := Run(t, targets, steps);
    GrownLogIsCovered(u, LastLog(steps, []), LastLedger(steps, 0), last.log, last.rpc.latest, targets, {});
    TickCovers(u, last.rpc, last.log, targets, 0, last.hooks, last.left, {});
    assert targets[0..] == targets;
  }

  lemma {:induction false} HistorySplits(steps: seq<Step>, last: Step, log: seq<RpcEvent>, latest: nat)
    requires History(steps + [last], log, latest)
    ensures History(steps, log, latest) && Faithful(last)
    ensures Grows(LastLog(steps, log), LastLedger(steps, latest), last.log, last.rpc.latest)
    decreases |steps|
  {
    if steps != [] {
      assert (steps + [last])[1..] == steps[1..] + [last];
      HistorySplits(steps[1..], last, steps[0].log, steps[0].rpc.latest);
    }
  }

  // The webhooks an event is ever enqueued for are settled by how far its own tick got: all of them exactly when the
  // process lived through the last insert. No later run repairs the rest.
  lemma EnqueuedExactly(t: Tables, e: RpcEvent, hooks: seq<string>, left: nat, targets: seq<Target>, steps: seq<Step>,
                        log: seq<RpcEvent>, latest: nat, lost: set<RpcEvent>)
    requires Tidy(t) && Distinct(hooks) && !Known(t.rows, e) && left > 0
    requires OnePerType(targets) && History(steps, log, latest)
    requires CoversAll(IndexEvent(t, e, hooks, left).tables, log, latest, targets, lost)
    ensures forall s :: s in steps ==> Progressing(s.rpc)
    ensures var u := Run(IndexEvent(t, e, hooks, left).tables, targets, steps);
            && |t.rows| < |u.rows| && u.rows[|t.rows|] == e
            && DeliveriesOf(u.deliveries, |t.rows|) == hooks[..Min(left - 1, |hooks|)]
            && (DeliveriesOf(u.deliveries, |t.rows|) == hooks <==> left > |hooks|)
  {
    IndexEventExactly(t, e, hooks, left);
    EnqueueExactly(t.(rows := t.rows + [e]), |t.rows|, hooks, left - 1, |t.rows|);
    var p := IndexEvent(t, e, hooks, left).tables;
    assert p.rows[|t.rows|] == e;
    EveryRunCovers(p, targets, steps, log, latest, lost);
  }

  // ---------------------------------------------------------------- what is lost, exactly

  /** Not indexed, and below the ledger from which its type will be asked for next. */
  predicate Lost(t: Tables, e: RpcEvent) {
    !Known(t.rows, e) && e.ledger < FirstLedger(t, e.topic)
  }

  /** A transaction belongs to one ledger, so events with one key do too. */
  ghost predicate OneLedgerPerKey(log: seq<RpcEvent>) {
    forall e, f :: e in log && f in log && SameKey(e, f) ==> e.ledger == f.ledger
  }

  ghost predicate Within(t: Tables, latest: nat) {
    forall eventType :: FirstLedger(t, eventType) <= latest + 1
  }

  ghost predicate CursorsKept(t: Tables, u: Tables) {
    forall eventType :: FirstLedger(t, eventType) <= FirstLedger(u, eventType)
  }

  lemma {:induction false} PageLeavesUnknown(t: Tables, events: seq<RpcEvent>, hooks: seq<string>, left: nat,
                                             e: RpcEvent)
    requires !Known(t.rows, e) && forall f :: f in events ==> !SameKey(f, e)
    ensures var p := IndexPage(t, events, hooks, left);
            !Known(p.tables.rows, e) && p.tables.cursors == t.cursors
    decreases |events|
  {
    if events != [] {
      assert events[0] in events;
      var first := IndexEvent(t, events[0], hooks, left);
      if !Known(t.rows, events[0]) && left > 0 {
        EnqueueExactly(t.(rows := t.rows + [events[0]]), |t.rows|, hooks, left - 1, 0);
      }
      if first.alive {
        PageLeavesUnknown(first.tables, events[1..], hooks, first.left, e);
      }
    }
  }

  lemma {:induction false} PageKeepsCursors(t: Tables, events: seq<RpcEvent>, hooks: seq<string>, left: nat)
    ensures IndexPage(t, events, hooks, left).tables.cursors == t.cursors
    decreases |events|
  {
    if events != [] {
      var first := IndexEvent(t, events[0], hooks, left);
      if !Known(t.rows, events[0]) && left > 0 {
        EnqueueExactly(t.(rows := t.rows + [events[0]]), |t.rows|, hooks, left - 1, 0);
      }
      if first.alive {
        PageKeepsCursors(first.tables, events[1..], hooks, first.left);
      }
    }
  }

  lemma ReachedIsServed(rpc: Rpc, log: seq<RpcEvent>, target: Target, from: nat, high: nat)
    requires Aligned(rpc, log) && from <= rpc.latest + 1 && high <= rpc.latest
    ensures high <= HighWater(rpc.fetch(target, from).events, high) <= rpc.latest
  {
    assert Serves(rpc, log, target, from);
    HighWaterIsMaximum(rpc.fetch(target, from).events, high);
  }

  lemma AdvanceKeepsCursors(t: Tables, eventType: string, start: nat, high: nat, left: nat, latest: nat)
    requires Within(t, latest) && Cursor(t, eventType) <= high <= latest
    ensures var u := Advance(t, eventType, start, high, left).tables;
            CursorsKept(t, u) && Within(u, latest) && Cursor(u, eventType) <= high
  {
  }

  lemma SameCursors(t: Tables, u: Tables, latest: nat)
    requires t.cursors == u.cursors && Within(t, latest)
    ensures CursorsKept(t, u) && Within(u, latest)
  {
  }

  lemma CursorsKeptTransitive(t: Tables, u: Tables, v: Tables)
    requires CursorsKept(t, u) && CursorsKept(u, v)
    ensures CursorsKept(t, v)
  {
    forall eventType ensures FirstLedger(t, eventType) <= FirstLedger(v, eventType) {
      assert FirstLedger(t, eventType) <= FirstLedger(u, eventType);
    }
  }

  // The pages from ledger `from` on move no cursor back, and none past the last closed ledger.
  lemma {:induction false} IndexFromKeepsCursors(t: Tables, rpc: Rpc, log: seq<RpcEvent>, target: Target,
                                                 hooks: seq<string>, start: nat, high: nat, from: nat, left: nat)
    requires Aligned(rpc, log) && from <= rpc.latest + 1 && Within(t, rpc.latest)
    requires Cursor(t, target.eventType) <= high && start <= high <= rpc.latest
    ensures var u := IndexFrom(t, rpc, target, hooks, start, high, from, left).tables;
            CursorsKept(t, u) && Within(u, rpc.latest)
    decreases rpc.latest + 1 - from
  {
    var page := rpc.fetch(target, from);
    var p := IndexPage(t, page.events, hooks, left);
    var reached := HighWater(page.events, high);
    PageKeepsCursors(t, page.events, hooks, left);
    SameCursors(t, p.tables, rpc.latest);
    ReachedIsServed(rpc, log, target, from, high);
    if p.alive {
      var q := if page.events == [] then p else Advance(p.tables, target.eventType, start, reached, p.left);
      AdvanceKeepsCursors(p.tables, target.eventType, start, reached, p.left, rpc.latest);
      CursorsKeptTransitive(t, p.tables, q.tables);
      if q.alive && page.nextLedger.Some? {
        IndexFromKeepsCursors(q.tables, rpc, log, target, hooks, start, reached, page.nextLedger.value, q.left);
        CursorsKeptTransitive(t, q.tables,
                              IndexFrom(q.tables, rpc, target, hooks, start, reached, page.nextLedger.value,
                                  q.left).tables);
      }
    }
  }

  // And they never bring back an event below `from`.
  lemma {:induction false} IndexFromLeavesPast(t: Tables, rpc: Rpc, log: seq<RpcEvent>, target: Target,
                                               hooks: seq<string>, start: nat, high: nat, from: nat, left: nat,
                                               e: RpcEvent)
    requires Aligned(rpc, log) && OneLedgerPerKey(log) && from <= rpc.latest + 1
    requires e in log && !Known(t.rows, e) && (Of(e, target) ==> e.ledger < from)
    ensures !Known(IndexFrom(t, rpc, target, hooks, start, high, from, left).tables.rows, e)
    decreases rpc.latest + 1 - from
  {
    var page := rpc.fetch(target, from);
    assert Serves(rpc, log, target, from);
    PageLeavesUnknown(t, page.events, hooks, left, e);
    var p := IndexPage(t, page.events, hooks, left);
    var reached := HighWater(page.events, high);
    if p.alive {
      var q := if page.events == [] then p else Advance(p.tables, target.eventType, start, reached, p.left);
      if q.alive && page.nextLedger.Some? {
        IndexFromLeavesPast(q.tables, rpc, log, target, hooks, start, reached, page.nextLedger.value, q.left, e);
      }
    }
  }

  lemma TargetLeavesLost(t: Tables, rpc: Rpc, log: seq<RpcEvent>, target: Target, hooks: seq<string>, left: nat,
                         e: RpcEvent)
    requires Aligned(rpc, log) && OneLedgerPerKey(log) && Within(t, rpc.latest)
    requires e in log && Lost(t, e)
    ensures var u := AfterTarget(t, rpc, target, hooks, left).tables;
            Lost(u, e) && Within(u, rpc.latest)
  {
    var start, from := Cursor(t, target.eventType), FirstLedger(t, target.eventType);
    assert e.ledger <= rpc.latest;
    IndexFromKeepsCursors(t, rpc, log, target, hooks, start, start, from, left);
    IndexFromLeavesPast(t, rpc, log, target, hooks, start, start, from, left, e);
  }

  lemma {:induction false} TickLeavesLost(t: Tables, rpc: Rpc, log: seq<RpcEvent>, targets: seq<Target>,
                                          hooks: map<string, seq<string>>, left: nat, e: RpcEvent)
    requires Aligned(rpc, log) && OneLedgerPerKey(log) && Within(t, rpc.latest)
    requires e in log && Lost(t, e)
    ensures var u := AfterTick(t, rpc, targets, hooks, left).tables;
            Lost(u, e) && Within(u, rpc.latest)
    decreases |targets|
  {
    if targets != [] {
      var own := Hooks(hooks, targets[0].eventType);
      TargetLeavesLost(t, rpc, log, targets[0], own, left, e);
      var first := AfterTarget(t, rpc, targets[0], own, left);
      if first.alive {
        TickLeavesLost(first.tables, rpc, log, targets[1..], hooks, first.left, e);
      }
    }
  }

  ghost predicate KeysInOneLedger(steps: seq<Step>) {
    forall s :: s in steps ==> OneLedgerPerKey(s.log)
  }

  // What is lost stays lost: no later run indexes it, whatever the targets and wherever its ticks stop.
  lemma {:induction false} LostForever(t: Tables, targets: seq<Target>, steps: seq<Step>, log: seq<RpcEvent>,
                                       latest: nat,
                                       e: RpcEvent)
    requires History(steps, log, latest) && KeysInOneLedger(steps) && Within(t, latest)
    requires e in log && Lost(t, e)
    ensures forall s :: s in steps ==> Progressing(s.rpc)
    ensures Lost(Run(t, targets, steps), e) && Within(Run(t, targets, steps), LastLedger(steps, latest))
    decreases |steps|
  {
    HistoryProgresses(steps, log, latest);
    if steps != [] {
      var s := steps[0];
      assert s in steps && e in s.log;
      TickLeavesLost(t, s.rpc, s.log, targets, s.hooks, s.left, e);
      LostForever(AfterTick(t, s.rpc, targets, s.hooks, s.left).tables, targets, steps[1..], s.log, s.rpc.latest, e);
    }
  }

  function LostEvents(t: Tables, log: seq<RpcEvent>): set<RpcEvent> {
    set e | e in log && Lost(t, e)
  }

  // Against an honest server, a target that is not cut short indexes exactly the events that were not lost before.
  lemma TargetIndexesExactly(t: Tables, rpc: Rpc, log: seq<RpcEvent>, target: Target, hooks: seq<string>, left: nat,
                             e: RpcEvent)
    requires Tidy(t) && Distinct(hooks) && Aligned(rpc, log) && OneLedgerPerKey(log) && Within(t, rpc.latest)
    requires AfterTarget(t, rpc, target, hooks, left).alive && e in log && Of(e, target)
    ensures Known(AfterTarget(t, rpc, target, hooks, left).tables.rows, e) <==> !Lost(t, e)
  {
    var start, from := Cursor(t, target.eventType), FirstLedger(t, target.eventType);
    if Lost(t, e) {
      TargetLeavesLost(t, rpc, log, target, hooks, left, e);
    } else {
      IndexFromCovers(t, rpc, log, target, hooks, start, start, from, left, LostEvents(t, log));
    }
  }

  // So nothing is missing afterwards exactly when nothing was missing below the ledger it started from.
  lemma TargetCompletesExactly(t: Tables, rpc: Rpc, log: seq<RpcEvent>, target: Target, hooks: seq<string>, left: nat)
    requires Tidy(t) && Distinct(hooks) && Aligned(rpc, log) && OneLedgerPerKey(log) && Within(t, rpc.latest)
    requires AfterTarget(t, rpc, target, hooks, left).alive
    ensures IndexedBelow(AfterTarget(t, rpc, target, hooks, left).tables.rows, log, target, rpc.latest + 1, {})
            <==> IndexedBelow(t.rows, log, target, FirstLedger(t, target.eventType), {})
  {
    var rows := AfterTarget(t, rpc, target, hooks, left).tables.rows;
    forall e | e in log && Of(e, target) ensures Known(rows, e) <==> !Lost(t, e) {
      TargetIndexesExactly(t, rpc, log, target, hooks, left, e);
    }
    if IndexedBelow(rows, log, target, rpc.latest + 1, {}) {
      forall e | e in log && e !in {} && Of(e, target) && e.ledger < FirstLedger(t, target.eventType)
        ensures Known(t.rows, e)
      {
        assert Known(rows, e);
      }
    }
  }

  // Over any run of ticks cut short anywhere and a last one that is not: exactly the events lost at the start are
  // missing.
  lemma EveryRunIndexesExactly(t: Tables, targets: seq<Target>, steps: seq<Step>, last: Step, log: seq<RpcEvent>,
                               latest: nat, e: RpcEvent, j: nat)
    requires OnePerType(targets) && History(steps + [last], log, latest) && KeysInOneLedger(steps + [last])
    requires Tidy(t) && Within(t, latest) && (forall f :: f in log ==> f.ledger <= latest)
    requires j < |targets| && e in last.log && Of(e, targets[j])
    ensures (forall s :: s in steps ==> Progressing(s.rpc)) && Progressing(last.rpc)
    ensures var p := AfterTick(Run(t, targets, steps), last.rpc, targets, last.hooks, last.left);
            p.alive ==> (Known(p.tables.rows, e) <==> !(e in log && Lost(t, e)))
  {
    var lost := LostEvents(t, log);
    HistorySplits(steps, last, log, latest);
    EveryRunCovers(t, targets, steps, log, latest, lost);
    var u := Run(t, targets, steps);
    GrownLogIsCovered(u, LastLog(steps, log), LastLedger(steps, latest), last.log, last.rpc.latest, targets, lost);
    TickCovers(u, last.rpc, last.log, targets, 0, last.hooks, last.left, lost);
    assert targets[0..] == targets && last in steps + [last];
    if e in lost {
      forall s | s in steps ensures OneLedgerPerKey(s.log) {
        assert s in steps + [last];
      }
      LostForever(t, targets, steps, log, latest, e);
      LogOnlyGrows(steps, log, latest, e);
      TickLeavesLost(u, last.rpc, last.log, targets, last.hooks, last.left, e);
    }
  }

  lemma {:induction false} LogOnlyGrows(steps: seq<Step>, log: seq<RpcEvent>, latest: nat, e: RpcEvent)
    requires History(steps, log, latest) && e in log
    ensures e in LastLog(steps, log) && latest <= LastLedger(steps, latest)
    decreases |steps|
  {
    if steps != [] {
      LogOnlyGrows(steps[1..], steps[0].log, steps[0].rpc.latest, e);
    }
  }

  // ---------------------------------------------------------------- two contracts of one event type

  // Where the cursor stands after a target that is not cut short: at its last event from `from` on, if that is further.
  lemma {:induction false} IndexFromReaches(t: Tables, rpc: Rpc, log: seq<RpcEvent>, target: Target, hooks: seq<string>,
                                            start: nat, high: nat, from: nat, left: nat)
    requires Aligned(rpc, log) && from <= rpc.latest + 1 && start <= high == Cursor(t, target.eventType)
    requires high > start ==> target.eventType in t.cursors
    requires IndexFrom(t, rpc, target, hooks, start, high, from, left).alive
    ensures var u := IndexFrom(t, rpc, target, hooks, start, high, from, left).tables;
            var c := Cursor(u, target.eventType);
            && high <= c && (target.eventType in u.cursors <==> target.eventType in t.cursors || c > high)
            && (forall f :: f in log && Of(f, target) && from <= f.ledger ==> f.ledger <= c)
            && (c == high || exists f :: f in log && Of(f, target) && from <= f.ledger && f.ledger == c)
    decreases rpc.latest + 1 - from
  {
    var page := rpc.fetch(target, from);
    assert Serves(rpc, log, target, from);
    PageKeepsCursors(t, page.events, hooks, left);
    HighWaterIsMaximum(page.events, high);
    var p := IndexPage(t, page.events, hooks, left);
    var reached := HighWater(page.events, high);
    var q := if page.events == [] then p else Advance(p.tables, target.eventType, start, reached, p.left);
    if page.nextLedger.Some? {
      IndexFromReaches(q.tables, rpc, log, target, hooks, start, reached, page.nextLedger.value, q.left);
    }
  }

  /** The first target's cursor moves past `e` when it indexes `f`. */
  predicate OvertakenBy(t: Tables, first: Target, e: RpcEvent, f: RpcEvent) {
    && Of(f, first) && FirstLedger(t, first.eventType) <= f.ledger
    && Cursor(t, first.eventType) < f.ledger && e.ledger <= f.ledger
  }

  // Exactly when the event of a contract is skipped because another contract of its event type comes first.
  lemma SharedTypeHidesExactly(t: Tables, rpc: Rpc, log: seq<RpcEvent>, first: Target, second: Target,
                               hooks: seq<string>,
                               left: nat, e: RpcEvent)
    requires Tidy(t) && Distinct(hooks) && Aligned(rpc, log) && OneLedgerPerKey(log) && Within(t, rpc.latest)
    requires first.eventType == second.eventType && first.contractId != second.contractId
    requires e in log && Of(e, second)
    ensures var p := AfterTarget(t, rpc, first, hooks, left);
            var q := AfterTarget(p.tables, rpc, second, hooks, p.left);
            var from := FirstLedger(t, first.eventType);
            p.alive && q.alive ==>
              (Known(q.tables.rows, e) <==>
                 Known(t.rows, e)
                 || (from <= e.ledger
                     && !exists f :: f in log && OvertakenBy(t, first, e, f)))
  {
    var start, from := Cursor(t, first.eventType), FirstLedger(t, first.eventType);
    var p := AfterTarget(t, rpc, first, hooks, left);
    if p.alive && AfterTarget(p.tables, rpc, second, hooks, p.left).alive {
      IndexFromCovers(t, rpc, log, first, hooks, start, start, from, left, LostEvents(t, log));
      IndexFromKeepsCursors(t, rpc, log, first, hooks, start, start, from, left);
      IndexFromReaches(t, rpc, log, first, hooks, start, start, from, left);
      TargetIndexesExactly(p.tables, rpc, log, second, hooks, p.left, e);
      if Known(t.rows, e) {
        KnownStays(t.rows, p.tables.rows, e);
      } else {
        IndexFromLeavesPast(t, rpc, log, first, hooks, start, start, from, left, e);
      }
    }
  }

  // ---------------------------------------------------------------- two servers that lose events

  function Select(log: seq<RpcEvent>, target: Target, n: nat): seq<RpcEvent> {
    if log == [] then []
    else (if Of(log[0], target) && n <= log[0].ledger then [log[0]] else []) + Select(log[1..], target, n)
  }

  lemma {:induction false} SelectSelects(log: seq<RpcEvent>, target: Target, n: nat, e: RpcEvent)
    ensures e in Select(log, target, n) <==> e in log && Of(e, target) && n <= e.ledger
    decreases |log|
  {
    if log != [] {
      SelectSelects(log[1..], target, n, e);
    }
  }

  /** A server that answers every query with one page. */
  function WholeLog(log: seq<RpcEvent>, latest: nat): Rpc {
    Rpc((target: Target, n: nat) => Page(Select(log, target, n), None), latest)
  }

  lemma WholeLogIsAligned(log: seq<RpcEvent>, latest: nat)
    requires forall e :: e in log ==> e.ledger <= latest
    ensures Aligned(WholeLog(log, latest), log)
  {
    var rpc := WholeLog(log, latest);
    forall target: Target, n: nat | n <= rpc.latest + 1 ensures Serves(rpc, log, target, n) {
      forall e {
        SelectSelects(log, target, n, e);
      }
    }
  }

  // From empty tables, two contracts of one type with one event each: the second's is skipped exactly when the first's
  // is at its ledger or later, ledger 0 aside.
  lemma SharedTypeHidesEvents(x: RpcEvent, y: RpcEvent, latest: nat, left: nat)
    requires x.contractId != y.contractId && x.topic == y.topic && x.ledger <= latest && y.ledger <= latest
    ensures Aligned(WholeLog([x, y], latest), [x, y])
    ensures var first, second := Target(x.contractId, x.topic), Target(y.contractId, y.topic);
            var p := AfterTarget(Tables(map[], [], []), WholeLog([x, y], latest), first, [], left);
            var q := AfterTarget(p.tables, WholeLog([x, y], latest), second, [], p.left);
            p.alive && q.alive ==> (Known(q.tables.rows, y) <==> x.ledger == 0 || x.ledger < y.ledger)
  {
    WholeLogIsAligned([x, y], latest);
    var first, second := Target(x.contractId, x.topic), Target(y.contractId, y.topic);
    SharedTypeHidesExactly(Tables(map[], [], []), WholeLog([x, y], latest), [x, y], first, second, [], left, y);
    assert x in [x, y];
  }

  // A page with one new event and no webhooks.
  lemma OneEventPage(t: Tables, e: RpcEvent, left: nat, high: nat)
    requires !Known(t.rows, e) && left > 0
    ensures IndexPage(t, [e], [], left) == Progress(t.(rows := t.rows + [e]), left - 1, true)
    ensures HighWater([e], high) == if e.ledger > high then e.ledger else high
  {
    assert [e][1..] == [];
  }

  /** A server whose first page ends inside the ledger of `x` and `y`. */
  function SplitLedger(x: RpcEvent, y: RpcEvent): Rpc {
    Rpc((target: Target, n: nat) => if n == 0 then Page([x], Some(x.ledger))
                                    else Page(if n == x.ledger then [x, y] else [], None), x.ledger)
  }

  // A process that stops between the two halves of the ledger loses the second half: no honest server and no later run
  // brings it back.
  lemma SplitLedgerLosesEvents(x: RpcEvent, y: RpcEvent, targets: seq<Target>, steps: seq<Step>)
    requires x.contractId == y.contractId && x.topic == y.topic && x.transactionHash != y.transactionHash
    requires x.ledger == y.ledger > 0
    requires History(steps, [x, y], x.ledger) && KeysInOneLedger(steps)
    ensures Progressing(SplitLedger(x, y)) && forall s :: s in steps ==> Progressing(s.rpc)
    ensures var p := AfterTick(Tables(map[], [], []), SplitLedger(x, y), [Target(x.contractId, x.topic)], map[], 2);
            !Known(Run(p.tables, targets, steps).rows, y)
  {
    var target, rpc := Target(x.contractId, x.topic), SplitLedger(x, y);
    var genesis, paused := Tables(map[], [], []), Tables(map[x.topic := x.ledger], [x], []);
    assert [x][1..] == [] && [x, y][1..] == [y] && [target][1..] == [];
    assert Known(paused.rows, x) by {
      assert SameKey(paused.rows[0], x);
    }
    OneEventPage(genesis, x, 2, 0);
    assert IndexPage(paused, [x, y], [], 0) == Progress(paused, 0, false);
    assert IndexFrom(paused, rpc, target, [], 0, x.ledger, x.ledger, 0) == Progress(paused, 0, false);
    assert genesis.rows + [x] == [x] && genesis.cursors[x.topic := x.ledger] == paused.cursors;
    assert rpc.fetch(target, 0) == Page([x], Some(x.ledger));
    assert Advance(Tables(map[], [x], []), x.topic, 0, x.ledger, 1) == Progress(paused, 0, true);
    assert AfterTarget(genesis, rpc, target, [], 2) == IndexFrom(paused, rpc, target, [], 0, x.ledger, x.ledger, 0);
    assert y in [x, y] && Lost(paused, y);
    LostForever(paused, targets, steps, [x, y], x.ledger, y);
  }
}
