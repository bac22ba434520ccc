/** The idempotency protocol (backend/src/middleware/idempotency.ts) around the three financial endpoints. */
module Idempotency {
  import opened Base
  import opened MarketplaceService

  datatype Endpoint = Listings | Purchases | Retirements

  datatype Field<T> = Absent | Present(value: T) | Mistyped(text: string)

  /** A parsed JSON body up to the order of its keys; `rest` is whatever no endpoint reads. */
  datatype Body =
    | NotAnObject(text: string)
    | Body(sellerId: Field<string>, buyerId: Field<string>, ownerId: Field<string>, creditBatchId: Field<string>,
           listingId: Field<EntityId>, quantity: Field<int>, priceStroops: Field<int>, reason: Field<string>,
               rest: string)

  /** A missing header is the empty key. */
  datatype Request = Request(key: string, endpoint: Endpoint, body: Body)

  /** The digest of method, path and canonical body, taken injective. */
  datatype Fingerprint = Fingerprint(endpoint: Endpoint, body: Body)

  /** The response body an endpoint builds from a payload; only listings report what remains. */
  datatype Reply = Reply(endpoint: Endpoint, payload: Payload, remaining: Option<int>)

  datatype Record = Record(fingerprint: Fingerprint, reply: Option<Reply>, createdAt: int, expiresAt: int)

  datatype Event = Event(dedupId: string, payload: Payload, createdAt: int)

  datatype Response =
    | Refused(status: int)
    | Executed(reply: Reply)
    | Replayed(reply: Reply)
    | Reconciled(reply: Reply)
    | Crashed
  {
    predicate Success() {
      Executed? || Replayed? || Reconciled?
    }
  }

  /** The clock as the handler, the service and the chain read it while one request is handled. */
  datatype Clock = Clock(handler: int, service: int, chain: int)

  /** What goes wrong: the domain transaction is made to fail, or the process dies after so many durable writes. */
  datatype Fault = Fault(txFails: bool, writes: nat)

  const NO_FAULT := Fault(false, 5)

  /** The durable state after a request, its response and the payload whose transaction committed. */
  datatype Outcome = Outcome(after: Backend, response: Response, committed: Option<Payload>)

  predicate ValidKey(key: string) {
    1 <= |key| <= 255 && forall c :: c in key ==> '\U{21}' <= c <= '\U{7e}'
  }

  predicate NonEmpty(f: Field<string>) {
    f.Present? && f.value != ""
  }

  predicate Positive(f: Field<int>) {
    f.Present? && f.value > 0
  }

  predicate Valid(endpoint: Endpoint, body: Body) {
    && body.Body?
    && Positive(body.quantity)
    && match endpoint
       case Listings => NonEmpty(body.sellerId) && NonEmpty(body.creditBatchId) && Positive(body.priceStroops)
       case Purchases => NonEmpty(body.buyerId) && body.listingId.Present? && body.listingId.value != Foreign("")
       case Retirements => NonEmpty(body.ownerId) && NonEmpty(body.creditBatchId) && !body.reason.Mistyped?
  }

  function LatestEvent(chain: seq<Event>, key: string): (r: Option<Event>)
    ensures r.Some? ==> r.value in chain && r.value.dedupId == key
  {
    if chain == [] then None
    else if chain[|chain| - 1].dedupId == key then Some(chain[|chain| - 1])
    else LatestEvent(chain[..|chain| - 1], key)
  }

  predicate Matches(endpoint: Endpoint, p: Payload) {
    match endpoint
    case Listings => p.ListingCreated?
    case Purchases => p.PurchaseSettled?
    case Retirements => p.CreditsRetired?
  }

  function Render(endpoint: Endpoint, p: Payload, d: Domain): Reply {
    Reply(endpoint, p,
          if endpoint != Listings then None
          else if p.id in d.listings then Some(d.listings[p.id].remaining)
          else if p.ListingCreated? then Some(p.quantity) else None)
  }

  datatype Backend = Backend(records: map<string, Record>, chain: seq<Event>, domain: Domain) {

    function Forget(key: string): Backend {
      this.(records := records - {key})
    }

    /** On conflict the stored fingerprint and times stay; only the response is written. */
    function Complete(key: string, fingerprint: Fingerprint, reply: Reply, now: int, ttl: int): Backend {
      var record := if key in records then records[key].(reply := Some(reply))
                    else Record(fingerprint, Some(reply), now, now + ttl);
      this.(records := records[key := record])
    }

    function Begin(key: string, fingerprint: Fingerprint, now: int, ttl: int): Backend {
      this.(records := records[key := Record(fingerprint, None, now, now + ttl)])
    }

    function Submit(key: string, p: Payload, now: int): Backend {
      this.(chain := chain + [Event(key, p, now)])
    }

    function Handle(r: Request, at: Clock, fault: Fault, ttl: int): Outcome {
      if !ValidKey(r.key) then Outcome(this, Refused(400), None)
      else if r.key in records && records[r.key].expiresAt <= at.handler then
        if fault.writes == 0 then Outcome(this, Crashed, None)
        else Forget(r.key).Proceed(r, at, Fault(fault.txFails, fault.writes - 1), ttl)
      else Proceed(r, at, fault, ttl)
    }

    /** The protocol once an expired record is out of the way. */
    function Proceed(r: Request, at: Clock, fault: Fault, ttl: int): Outcome {
      var fingerprint := Fingerprint(r.endpoint, r.body);
      var event := LatestEvent(chain, r.key);
      if r.key in records && records[r.key].fingerprint != fingerprint then Outcome(this, Refused(422), None)
      else if r.key in records && records[r.key].reply.Some? then
        Outcome(this, Replayed(records[r.key].reply.value), None)
      else if r.key in records && event.None? then Outcome(this, Refused(409), None)
      else if event.Some? && at.handler - event.value.createdAt < ttl then
        Reconcile(r, event.value, at.handler, fault, ttl)
      else if !Valid(r.endpoint, r.body) then Outcome(this, Refused(400), None)
      else Execute(r, at, fault, ttl)
    }

    /**
     * The rows a reconciling endpoint rebuilds. A payload of another endpoint lacks columns that must not be
     * null: that aborts the transaction, except that retirements are inserted with "or ignore".
     */
    function Rebuild(endpoint: Endpoint, p: Payload): Result<Domain, RowError> {
      if Matches(endpoint, p) then Apply(domain, p)
      else if endpoint == Retirements then Ok(domain)
      else Err(MissingColumn)
    }

    function Reconcile(r: Request, event: Event, now: int, fault: Fault, ttl: int): Outcome {
      var rebuilt := Rebuild(r.endpoint, event.payload);
      if fault.txFails then Outcome(this, Refused(500), None)
      else if fault.writes == 0 then Outcome(this, Crashed, None)
      else if rebuilt.Err? then Outcome(this, Refused(500), None)
      else
        var committed := if Matches(r.endpoint, event.payload) then Some(event.payload) else None;
        var next := this.(domain := rebuilt.value);
        var reply := Render(r.endpoint, event.payload, next.domain);
        if fault.writes == 1 then Outcome(next, Crashed, committed)
        else Outcome(next.Complete(r.key, Fingerprint(r.endpoint, r.body), reply, now, ttl), Reconciled(reply),
            committed)
    }

    /** What the service submits, or the status of its refusal. */
    function Prepare(r: Request, createdAt: int): Result<Payload, int>
      requires Valid(r.endpoint, r.body)
    {
      var q := r.body.quantity.value;
      match r.endpoint
      case Listings =>
        Ok(ListingCreated(Derived("lst", r.key), r.body.sellerId.value, r.body.creditBatchId.value, q,
                          r.body.priceStroops.value, createdAt))
      case Purchases =>
        var lid := r.body.listingId.value;
        if lid !in domain.listings then Err(404)
        else if q > domain.listings[lid].remaining then Err(409)
        else Ok(PurchaseSettled(Derived("pur", r.key), lid, r.body.buyerId.value, q, q * domain.listings[lid].price,
            createdAt))
      case Retirements =>
        Ok(CreditsRetired(Derived("ret", r.key), r.body.ownerId.value, r.body.creditBatchId.value, q,
                          if r.body.reason.Present? then Some(r.body.reason.value) else None, createdAt))
    }

    /** The record of a failed execution is deleted before the refusal is sent. */
    function GiveUp(key: string, status: int, writes: nat): Outcome {
      if writes == 0 then Outcome(this, Crashed, None) else Outcome(Forget(key), Refused(status), None)
    }

    function Execute(r: Request, at: Clock, fault: Fault, ttl: int): Outcome
      requires Valid(r.endpoint, r.body)
    {
      var fingerprint := Fingerprint(r.endpoint, r.body);
      if r.key !in records then
        if fault.writes == 0 then Outcome(this, Crashed, None)
        else Begin(r.key, fingerprint, at.handler, ttl).Perform(r, at, Fault(fault.txFails, fault.writes - 1), ttl)
      else Perform(r, at, fault, ttl)
    }

    /** Submit on chain. */
    function Perform(r: Request, at: Clock, fault: Fault, ttl: int): Outcome
      requires Valid(r.endpoint, r.body)
    {
      var prepared := Prepare(r, at.service);
      if prepared.Err? then GiveUp(r.key, prepared.error, fault.writes)
      else if fault.writes == 0 then Outcome(this, Crashed, None)
      else
        Submit(r.key, prepared.value, at.chain)
          .Settle(r, prepared.value, at.handler, Fault(fault.txFails, fault.writes - 1), ttl)
    }

    /** Write the rows of a submission, then cache the response. */
    function Settle(r: Request, p: Payload, now: int, fault: Fault, ttl: int): Outcome {
      var applied := Apply(domain, p);
      if fault.txFails || applied.Err? then GiveUp(r.key, 500, fault.writes)
      else if fault.writes == 0 then Outcome(this, Crashed, None)
      else
        var next := this.(domain := applied.value);
        var reply := Render(r.endpoint, p, next.domain);
        if fault.writes == 1 then Outcome(next, Crashed, Some(p))
        else Outcome(next.Complete(r.key, Fingerprint(r.endpoint, r.body), reply, now, ttl), Executed(reply), Some(p))
    }
  }

  /**
   * The middleware and the services it wraps, over one database. `left` is how many more durable writes
   * the process lives to make.
   */
  class IdempotentBackend {
    const ttl: int
    const store: DomainStore
    var records: map<string, Record>
    var chain: seq<Event>
    var left: nat

    constructor (ttl: int)
      ensures this.ttl == ttl && fresh(store)
      ensures State() == Backend(map[], [], Domain(map[], map[], map[]))
    {
      this.ttl := ttl;
      store := new DomainStore();
      records, chain, left := map[], [], 0;
    }

    function State(): Backend
      reads this, store
    {
      Backend(records, chain, store.Rows())
    }

    /** Spend one durable write; the process dies instead when none is left. */
    method Survives() returns (alive: bool)
      modifies this`left
      ensures alive == (old(left) > 0) && left == if alive then old(left) - 1 else 0
    {
      alive := left > 0;
      if alive {
        left := left - 1;
      }
    }

    method CompleteRecord(key: string, fingerprint: Fingerprint, reply: Reply, now: int)
      modifies this`records
      ensures State() == old(State()).Complete(key, fingerprint, reply, now, ttl)
    {
      var record := Record(fingerprint, Some(reply), now, now + ttl);
      if key in records {
        record := records[key].(reply := Some(reply));
      }
      records := records[key := record];
    }

    method GiveUp(key: string, status: int) returns (response: Response)
      modifies this`records, this`left
      ensures Outcome(State(), response, None) == old(State()).GiveUp(key, status, old(left))
    {
      var alive := Survives();
      if !alive {
        return Crashed;
      }
      records := records - {key};
      response := Refused(status);
    }

    method Reconcile(r: Request, event: Event, now: int, txFails: bool) returns (response: Response,
                     ghost committed: Option<Payload>)
      modifies this`records, this`left, store
      ensures Outcome(State(), response, committed)
              == old(State()).Reconcile(r, event, now, Fault(txFails, old(left)), ttl)
    {
      committed := None;
      if txFails {
        return Refused(500), None;
      }
      var alive := Survives();
      if !alive {
        return Crashed, None;
      }
      if Matches(r.endpoint, event.payload) {
        var ok := store.Transact(event.payload);
        if !ok {
          return Refused(500), None;
        }
        committed := Some(event.payload);
      } else if r.endpoint != Retirements {
        return Refused(500), None;
      }
      var reply := Render(r.endpoint, event.payload, store.Rows());
      alive := Survives();
      if !alive {
        return Crashed, committed;
      }
      CompleteRecord(r.key, Fingerprint(r.endpoint, r.body), reply, now);
      response := Reconciled(reply);
    }

    method Perform(r: Request, at: Clock, txFails: bool) returns (response: Response, ghost committed: Option<Payload>)
      requires Valid(r.endpoint, r.body)
      modifies this, store
      ensures Outcome(State(), response, committed) == old(State()).Perform(r, at, Fault(txFails, old(left)), ttl)
    {
      committed := None;
      var prepared := State().Prepare(r, at.service);
      if prepared.Err? {
        response := GiveUp(r.key, prepared.error);
        return;
      }
      var p := prepared.value;
      var alive := Survives();
      if !alive {
        return Crashed, None;
      }
      chain := chain + [Event(r.key, p, at.chain)];
      if txFails {
        response := GiveUp(r.key, 500);
        return;
      }
      assert Apply(store.Rows(), p).Ok?;
      alive := Survives();
      if !alive {
        return Crashed, None;
      }
      var ok := store.Transact(p);
      committed := Some(p);
      var reply := Render(r.endpoint, p, store.Rows());
      alive := Survives();
      if !alive {
        return Crashed, committed;
      }
      CompleteRecord(r.key, Fingerprint(r.endpoint, r.body), reply, at.handler);
      response := Executed(reply);
    }

    method Execute(r: Request, at: Clock, txFails: bool) returns (response: Response, ghost committed: Option<Payload>)
      requires Valid(r.endpoint, r.body)
      modifies this, store
      ensures Outcome(State(), response, committed) == old(State()).Execute(r, at, Fault(txFails, old(left)), ttl)
    {
      if r.key !in records {
        var alive := Survives();
        if !alive {
          return Crashed, None;
        }
        records := records[r.key := Record(Fingerprint(r.endpoint, r.body), None, at.handler, at.handler + ttl)];
      }
      response, committed := Perform(r, at, txFails);
    }

    method Proceed(r: Request, at: Clock, txFails: bool) returns (response: Response, ghost committed: Option<Payload>)
      modifies this, store
      ensures Outcome(State(), response, committed) == old(State()).Proceed(r, at, Fault(txFails, old(left)), ttl)
    {
      var event := LatestEvent(chain, r.key);
      if r.key in records {
        var record := records[r.key];
        if record.fingerprint != Fingerprint(r.endpoint, r.body) {
          return Refused(422), None;
        }
        if record.reply.Some? {
          return Replayed(record.reply.value), None;
        }
        if event.None? {
          return Refused(409), None;
        }
      }
      if event.Some? && at.handler - event.value.createdAt < ttl {
        response, committed := Reconcile(r, event.value, at.handler, txFails);
        return;
      }
      if !Valid(r.endpoint, r.body) {
        return Refused(400), None;
      }
      response, committed := Execute(r, at, txFails);
    }

    method Handle(r: Request, at: Clock, txFails: bool) returns (response: Response, ghost committed: Option<Payload>)
      modifies this, store
      ensures Outcome(State(), response, committed) == old(State()).Handle(r, at, Fault(txFails, old(left)), ttl)
    {
      if !ValidKey(r.key) {
        return Refused(400), None;
      }
      if r.key in records && records[r.key].expiresAt <= at.handler {
        var alive := Survives();
        if !alive {
          return Crashed, None;
        }
        records := records - {r.key};
      }
      response, committed := Proceed(r, at, txFails);
    }
  }
}
