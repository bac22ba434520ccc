/** The event indexer (backend/src/indexer/eventIndexer.ts) over paged RPC (backend/src/chain/rpcClient.ts). */
module EventIndexer {
  import opened Base

  datatype RpcEvent = RpcEvent(contractId: string, topic: string, transactionHash: string, ledger: nat, payload: string)

  datatype Target = Target(contractId: string, eventType: string)

  datatype Page = Page(events: seq<RpcEvent>, nextLedger: Option<nat>)

  /** What the RPC server answers during one tick; `latest` bounds the ledgers it knows. */
  datatype Rpc = Rpc(fetch: (Target, nat) -> Page, latest: nat)

  /** A delivery names a webhook and the row of an indexed event. */
  datatype Delivery = Delivery(webhookId: string, row: nat)

  /** Row ids are given out in order of insertion. */
  datatype Tables = Tables(cursors: map<string, nat>, rows: seq<RpcEvent>, deliveries: seq<Delivery>)

  /** `left` is how many more durable writes the process lives to make; a failing RPC call ends a tick likewise. */
  datatype Progress = Progress(tables: Tables, left: nat, alive: bool)

  predicate SameKey(e: RpcEvent, f: RpcEvent) {
    e.contractId == f.contractId && e.topic == f.topic && e.transactionHash == f.transactionHash
  }

  predicate Known(rows: seq<RpcEvent>, e: RpcEvent) {
    exists i :: 0 <= i < |rows| && SameKey(rows[i], e)
  }

  predicate Of(e: RpcEvent, target: Target) {
    e.contractId == target.contractId && e.topic == target.eventType
  }

  ghost predicate Progressing(rpc: Rpc) {
    forall target: Target, n: nat :: rpc.fetch(target, n).nextLedger.Some? ==>
        n < rpc.fetch(target, n).nextLedger.value <= rpc.latest
  }

  /** One past the last ledger a page answers for. */
  function End(rpc: Rpc, target: Target, n: nat): nat {
    var next := rpc.fetch(target, n).nextLedger;
    if next.Some? then next.value else rpc.latest + 1
  }

  /** Every page holds all events of a whole range of closed ledgers. */
  ghost predicate Aligned(rpc: Rpc, log: seq<RpcEvent>) {
    && Progressing(rpc)
    && (forall e :: e in log ==> e.ledger <= rpc.latest)
    && (forall target: Target, n: nat :: n <= rpc.latest + 1 ==> Serves(rpc, log, target, n))
  }

  ghost predicate Serves(rpc: Rpc, log: seq<RpcEvent>, target: Target, n: nat) {
    forall e :: e in rpc.fetch(target, n).events <==> e in log && Of(e, target) && n <= e.ledger < End(rpc, target, n)
  }

  // ---------------------------------------------------------------- one tick, write by write

  function Enqueue(t: Tables, row: nat, hooks: seq<string>, left: nat): Progress
    decreases |hooks|
  {
    if hooks == [] then Progress(t, left, true)
    else if left == 0 then Progress(t, 0, false)
    else Enqueue(t.(deliveries := t.deliveries + [Delivery(hooks[0], row)]), row, hooks[1..], left - 1)
  }

  function IndexEvent(t: Tables, e: RpcEvent, hooks: seq<string>, left: nat): Progress {
    if Known(t.rows, e) then Progress(t, left, true)
    else if left == 0 then Progress(t, 0, false)
    else Enqueue(t.(rows := t.rows + [e]), |t.rows|, hooks, left - 1)
  }

  function IndexPage(t: Tables, events: seq<RpcEvent>, hooks: seq<string>, left: nat): Progress
    decreases |events|
  {
    if events == [] then Progress(t, left, true)
    else
      var p := IndexEvent(t, events[0], hooks, left);
      if p.alive then IndexPage(p.tables, events[1..], hooks, p.left) else p
  }

  function HighWater(events: seq<RpcEvent>, high: nat): nat
    decreases |events|
  {
    if events == [] then high
    else HighWater(events[1..], if events[0].ledger > high then events[0].ledger else high)
  }

  function Advance(t: Tables, eventType: string, start: nat, high: nat, left: nat): Progress {
    if high <= start then Progress(t, left, true)
    else if left == 0 then Progress(t, 0, false)
    else Progress(t.(cursors := t.cursors[eventType := high]), left - 1, true)
  }

  /** The pages from ledger `from` on; `start` is the cursor the tick began with. */
  function IndexFrom(t: Tables, rpc: Rpc, target: Target, hooks: seq<string>, start: nat, high: nat, from: nat,
                     left: nat): Progress
    requires Progressing(rpc)
    decreases if from <= rpc.latest then rpc.latest + 1 - from else 0
  {
    var page := rpc.fetch(target, from);
    var p := IndexPage(t, page.events, hooks, left);
    if !p.alive then p
    else
      var reached := HighWater(page.events, high);
      var q := if page.events == [] then p else Advance(p.tables, target.eventType, start, reached, p.left);
      if !q.alive || page.nextLedger.None? then q
      else IndexFrom(q.tables, rpc, target, hooks, start, reached, page.nextLedger.value, q.left)
  }

  function Cursor(t: Tables, eventType: string): nat {
    if eventType in t.cursors then t.cursors[eventType] else 0
  }

  function FirstLedger(t: Tables, eventType: string): nat {
    if eventType in t.cursors then t.cursors[eventType] + 1 else 0
  }

  function AfterTarget(t: Tables, rpc: Rpc, target: Target, hooks: seq<string>, left: nat): Progress
    requires Progressing(rpc)
  {
    var start := Cursor(t, target.eventType);
    IndexFrom(t, rpc, target, hooks, start, start, FirstLedger(t, target.eventType), left)
  }

  function AfterTick(t: Tables, rpc: Rpc, targets: seq<Target>, hooks: map<string, seq<string>>, left: nat): Progress
    requires Progressing(rpc)
    decreases |targets|
  {
    if targets == [] then Progress(t, left, true)
    else
      var p := AfterTarget(t, rpc, targets[0], Hooks(hooks, targets[0].eventType), left);
      if p.alive then AfterTick(p.tables, rpc, targets[1..], hooks, p.left) else p
  }

  function Hooks(hooks: map<string, seq<string>>, eventType: string): seq<string> {
    if eventType in hooks then hooks[eventType] else []
  }

  /** All batches of a query, as its consumer sees them. */
  method PaginateEvents(rpc: Rpc, target: Target, fromLedger: nat,
                        ghost log: seq<RpcEvent>) returns (batches: seq<seq<RpcEvent>>)
    requires Aligned(rpc, log) && fromLedger <= rpc.latest + 1
    ensures forall b :: b in batches ==> b != []
    ensures forall e :: (exists b :: b in batches && e in b) <==> e in log && Of(e, target) && fromLedger <= e.ledger
  {
    batches := [];
    var cursor := Some(fromLedger);
    ghost var covered: nat := fromLedger;
    while cursor.Some?
      invariant fromLedger <= covered <= rpc.latest + 1
      invariant cursor == if covered <= rpc.latest || cursor.Some? then Some(covered) else None
      invariant forall b :: b in batches ==> b != []
      invariant forall b, e :: b in batches && e in b ==> e in log && Of(e, target) && fromLedger <= e.ledger
      invariant forall e :: e in log && Of(e, target) && fromLedger <= e.ledger < covered ==>
                  exists b :: b in batches && e in b
      decreases cursor.Some?, rpc.latest + 1 - covered
    {
      var page := rpc.fetch(target, cursor.value);
      assert Serves(rpc, log, target, covered);
      ghost var before := batches;
      if |page.events| > 0 {
        batches := batches + [page.events];
        assert page.events in batches;
      }
      forall e | e in log && Of(e, target) && fromLedger <= e.ledger < End(rpc, target, covered)
        ensures exists b :: b in batches && e in b
      {
        if e.ledger < covered {
          var b :| b in before && e in b;
          assert b in batches;
        } else {
          assert e in page.events;
        }
      }
      covered := End(rpc, target, covered);
      cursor := page.nextLedger;
    }
  }

  class Indexer {
    var cursors: map<string, nat>
    var rows: seq<RpcEvent>
    var deliveries: seq<Delivery>
    var left: nat

    constructor ()
      ensures State() == Tables(map[], [], [])
    {
      cursors, rows, deliveries, left := map[], [], [], 0;
    }

    function State(): Tables
      reads this
    {
      Tables(cursors, rows, deliveries)
    }

    /** Insert a row unless its key is there; the row's id, or nothing for a duplicate. */
    method InsertIndexedEventIfAbsent(e: RpcEvent) returns (id: Option<nat>, alive: bool)
      modifies this`rows, this`left
      ensures Known(old(rows), e) ==> id == None && alive && rows == old(rows) && left == old(left)
      ensures !Known(old(rows), e) && old(left) == 0 ==> !alive && rows == old(rows) && left == 0
      ensures !Known(old(rows), e) && old(left) > 0 ==>
                id == Some(|old(rows)|) && alive && rows == old(rows) + [e] && left == old(left) - 1
    {
      for i := 0 to |rows|
        invariant forall j :: 0 <= j < i ==> !SameKey(rows[j], e)
      {
        if SameKey(rows[i], e) {
          return None, true;
        }
      }
      if left == 0 {
        return None, false;
      }
      id := Some(|rows|);
      rows := rows + [e];
      left := left - 1;
      alive := true;
    }

    method IndexBatch(events: seq<RpcEvent>, hooks: seq<string>, high: nat) returns (reached: nat, alive: bool)
      modifies this`rows, this`deliveries, this`left
      ensures Progress(State(), left, alive) == IndexPage(old(State()), events, hooks, old(left))
      ensures alive ==> reached == HighWater(events, high)
    {
      reached := high;
      for i := 0 to |events|
        invariant IndexPage(State(), events[i..], hooks, left) == IndexPage(old(State()), events, hooks, old(left))
        invariant HighWater(events[i..], reached) == HighWater(events, high)
      {
        ghost var before, budget := State(), left;
        var event := events[i];
        assert events[i..][1..] == events[i + 1..];
        var newId;
        newId, alive := InsertIndexedEventIfAbsent(event);
        if !alive {
          return;
        }
        if newId.Some? {
          for k := 0 to |hooks|
            invariant Enqueue(State(), newId.value, hooks[k..], left) == IndexEvent(before, event, hooks, budget)
          {
            if left == 0 {
              alive := false;
              return;
            }
            assert hooks[k..][1..] == hooks[k + 1..];
            deliveries := deliveries + [Delivery(hooks[k], newId.value)];
            left := left - 1;
          }
        }
        if event.ledger > reached {
          reached := event.ledger;
        }
      }
      alive := true;
    }

    method IndexTarget(rpc: Rpc, target: Target, hooks: seq<string>) returns (alive: bool)
      requires Progressing(rpc)
      modifies this
      ensures Progress(State(), left, alive) == AfterTarget(old(State()), rpc, target, hooks, old(left))
    {
      alive := true;
      var start, cursor := 0, Some(0);
      if target.eventType in cursors {
        start := cursors[target.eventType];
        cursor := Some(start + 1);
      }
      var high := start;
      while cursor.Some?
        invariant cursor.Some? ==>
                    IndexFrom(State(), rpc, target, hooks, start, high, cursor.value, left)
                    == AfterTarget(old(State()), rpc, target, hooks, old(left))
        invariant cursor.None? ==>
                    Progress(State(), left, true) == AfterTarget(old(State()), rpc, target, hooks, old(left))
        decreases cursor.Some?, if cursor.Some? && cursor.value <= rpc.latest then rpc.latest + 1 - cursor.value else 0
      {
        var page := rpc.fetch(target, cursor.value);
        if page.events != [] {
          high, alive := IndexBatch(page.events, hooks, high);
          if !alive {
            return;
          }
          if high > start {
            if left == 0 {
              alive := false;
              return;
            }
            cursors := cursors[target.eventType := high];
            left := left - 1;
          }
        }
        cursor := page.nextLedger;
      }
      alive := true;
    }

    method Tick(rpc: Rpc, targets: seq<Target>, hooks: map<string, seq<string>>) returns (alive: bool)
      requires Progressing(rpc)
      modifies this
      ensures Progress(State(), left, alive) == AfterTick(old(State()), rpc, targets, hooks, old(left))
    {
      for i := 0 to |targets|
        invariant AfterTick(State(), rpc, targets[i..], hooks, left)
                  == AfterTick(old(State()), rpc, targets, hooks, old(left))
      {
        assert targets[i..][1..] == targets[i + 1..];
        alive := IndexTarget(rpc, targets[i], Hooks(hooks, targets[i].eventType));
        if !alive {
          return;
        }
      }
      alive := true;
    }
  }
}
