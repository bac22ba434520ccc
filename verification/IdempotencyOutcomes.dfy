/** What one request to a financial endpoint does, case by case, and when a listing can be oversold. */
module IdempotencyOutcomes {
  import opened Base
  import opened MapSums
  import opened MarketplaceService
  import opened Idempotency
  import opened IdempotencyRuns

  // ---------------------------------------------------------------- the rows a payload leaves

  // Each payload writes its own row and nothing else, except that a purchase's first row takes its quantity from the
  // listing, and a listing stated again keeps what is left of it.
  lemma RowsExactly(d: Domain, p: Payload)
    ensures var r := Apply(d, p);
            match p
            case ListingCreated(id, seller, batch, quantity, price, at) =>
              var left := if id in d.listings then d.listings[id].remaining else quantity;
              r == Ok(Domain(d.listings[id := Listing(seller, batch, quantity, left, price, at)], d.purchases,
                             d.retirements))
            case PurchaseSettled(id, lid, buyer, quantity, price, at) =>
              if id in d.purchases then r == Ok(d)
              else if lid !in d.listings then r == Err(ForeignKey)
              else
                var l := d.listings[lid];
                r == Ok(Domain(d.listings[lid := Listing(l.sellerId, l.creditBatchId, l.total, l.remaining - quantity,
                                                         l.price, l.createdAt)],
                               d.purchases[id := Purchase(lid, buyer, quantity, price, at)], d.retirements))
            case CreditsRetired(id, owner, batch, quantity, reason, at) =>
              r == Ok(Domain(d.listings, d.purchases,
                             if id in d.retirements then d.retirements
                             else d.retirements[id := Retirement(owner, batch, quantity, reason, at)]))
  {
  }

  // ---------------------------------------------------------------- which keys and bodies are accepted

  // A key is 1 to 255 visible ASCII characters.
  lemma KeysExactly(key: string)
    ensures ValidKey(key) <==> 0 < |key| < 256 && forall i :: 0 <= i < |key| ==> 33 <= key[i] as int < 127
  {
    if ValidKey(key) {
      forall i | 0 <= i < |key| ensures 33 <= key[i] as int < 127 {
        assert key[i] in key;
      }
    }
  }

  predicate Text(f: Field<string>) {
    f.Present? && |f.value| >= 1
  }

  predicate Amount(f: Field<int>) {
    f.Present? && f.value >= 1
  }

  // Amounts and prices are positive, names are not empty, and only a retirement's reason may be missing.
  lemma BodiesExactly(endpoint: Endpoint, body: Body)
    ensures Valid(endpoint, body) <==>
              && body.Body? && Amount(body.quantity)
              && (endpoint == Listings ==> Text(body.sellerId) && Text(body.creditBatchId) && Amount(body.priceStroops))
              && (endpoint == Purchases ==>
                    Text(body.buyerId) && body.listingId.Present? && body.listingId.value != Foreign(""))
              && (endpoint == Retirements ==>
                    && Text(body.ownerId) && Text(body.creditBatchId)
                    && (body.reason == Absent || body.reason.Present?))
  {
  }

  // ---------------------------------------------------------------- which way a request goes

  /** A record of the key that has not expired. */
  predicate Held(b: Backend, key: string, now: int) {
    key in b.records && now < b.records[key].expiresAt
  }

  /** The chain holds a submission under the key younger than the time to live. */
  predicate Recent(b: Backend, key: string, now: int, ttl: int) {
    var event := LatestEvent(b.chain, key);
    event.Some? && now < event.value.createdAt + ttl
  }

  function Minus(b: Backend, key: string): Backend {
    Backend(b.records - {key}, b.chain, b.domain)
  }

  /** The state once an expired record of the key has been deleted. */
  function Cleared(b: Backend, key: string, now: int): Backend {
    if Held(b, key, now) then b else Minus(b, key)
  }

  /** The request owns the held record of its key, which has no response yet; or there is none. */
  predicate Open(b: Backend, r: Request, now: int) {
    Held(b, r.key, now) ==>
      && b.records[r.key].fingerprint == Fingerprint(r.endpoint, r.body) && b.records[r.key].reply.None?
      && LatestEvent(b.chain, r.key).Some?
  }

  /** Nothing stands in the way of executing the request. */
  predicate Executable(b: Backend, r: Request, at: Clock, ttl: int) {
    ValidKey(r.key) && Open(b, r, at.handler) && !Recent(b, r.key, at.handler, ttl) && Valid(r.endpoint, r.body)
  }

  /** The process lives to make one durable write, after the one that deletes an expired record. */
  predicate Lives(b: Backend, key: string, now: int, fault: Fault) {
    fault.writes >= if key in b.records && !Held(b, key, now) then 2 else 1
  }

  // What is decided before anything is executed or rebuilt, and that it changes nothing but to delete an expired
  // record.
  lemma GateExactly(b: Backend, r: Request, at: Clock, fault: Fault, ttl: int)
    requires Lives(b, r.key, at.handler, fault)
    ensures var o, now, same := b.Handle(r, at, fault, ttl), at.handler, Fingerprint(r.endpoint, r.body);
            && (!ValidKey(r.key) ==> o == Outcome(b, Refused(400), None))
            && (ValidKey(r.key) && Held(b, r.key, now) ==>
                  var record := b.records[r.key];
                  && (record.fingerprint != same ==> o == Outcome(b, Refused(422), None))
                  && (record.fingerprint == same && record.reply.Some? ==>
                        o == Outcome(b, Replayed(record.reply.value), None))
                  && (record.fingerprint == same && record.reply.None? && LatestEvent(b.chain, r.key).None? ==>
                        o == Outcome(b, Refused(409), None)))
            && (ValidKey(r.key) && Open(b, r, now) && !Recent(b, r.key, now, ttl) && !Valid(r.endpoint, r.body) ==>
                  o == Outcome(Cleared(b, r.key, now), Refused(400), None))
  {
    if !Held(b, r.key, at.handler) && r.key !in b.records {
      assert b.records - {r.key} == b.records;
    }
  }

  // ---------------------------------------------------------------- a clean execution

  /** What the endpoint submits for a valid request. */
  function Intended(b: Backend, r: Request, createdAt: int): Payload
    requires Valid(r.endpoint, r.body)
    requires r.endpoint == Purchases ==> r.body.listingId.value in b.domain.listings
  {
    var quantity := r.body.quantity.value;
    match r.endpoint
    case Listings =>
      ListingCreated(Derived("lst", r.key), r.body.sellerId.value, r.body.creditBatchId.value, quantity,
                     r.body.priceStroops.value, createdAt)
    case Purchases =>
      var listing := b.domain.listings[r.body.listingId.value];
      PurchaseSettled(Derived("pur", r.key), r.body.listingId.value, r.body.buyerId.value, quantity,
                      listing.price * quantity, createdAt)
    case Retirements =>
      CreditsRetired(Derived("ret", r.key), r.body.ownerId.value, r.body.creditBatchId.value, quantity,
                     if r.body.reason.Present? then Some(r.body.reason.value) else None, createdAt)
  }

  /** Why the service refuses before it submits; only purchases can be refused. */
  function BusinessRefusal(b: Backend, r: Request): Option<int>
    requires Valid(r.endpoint, r.body)
  {
    if r.endpoint != Purchases then None
    else if r.body.listingId.value !in b.domain.listings then Some(404)
    else if b.domain.listings[r.body.listingId.value].remaining < r.body.quantity.value then Some(409)
    else None
  }

  /** The record of a completed request: the held one, or a new one from now on. */
  function Completed(b: Backend, r: Request, now: int, ttl: int, reply: Reply): Record {
    if Held(b, r.key, now) then
      Record(b.records[r.key].fingerprint, Some(reply), b.records[r.key].createdAt, b.records[r.key].expiresAt)
    else Record(Fingerprint(r.endpoint, r.body), Some(reply), now, now + ttl)
  }

  /** The submission is on chain, its rows are written, and the response is cached and sent. */
  ghost predicate CarriedOut(b: Backend, r: Request, at: Clock, ttl: int, p: Payload, o: Outcome) {
    && o.committed == Some(p)
    && o.after.chain == b.chain + [Event(r.key, p, at.chain)]
    && Apply(b.domain, p) == Ok(o.after.domain)
    && o.response.Executed?
    && o.response.reply == Reply(r.endpoint, p, o.response.reply.remaining)
    && (r.endpoint != Listings ==> o.response.reply.remaining == None)
    && (r.endpoint == Listings ==>
          p.id in o.after.domain.listings
          && o.response.reply.remaining == Some(o.after.domain.listings[p.id].remaining))
    && o.after.records == b.records[r.key := Completed(b, r, at.handler, ttl, o.response.reply)]
  }

  // Preparing decides the refusals, and what is prepared can be applied.
  lemma PreparesExactly(b: Backend, r: Request, createdAt: int)
    requires Valid(r.endpoint, r.body)
    ensures var prepared, refusal := b.Prepare(r, createdAt), BusinessRefusal(b, r);
            && (refusal.Some? ==> prepared == Err(refusal.value))
            && (refusal.None? ==> prepared == Ok(Intended(b, r, createdAt)) && Apply(b.domain, prepared.value).Ok?)
  {
  }

  // From submission to the cached response, when nothing goes wrong.
  lemma SettlesCleanly(b: Backend, r: Request, p: Payload, now: int, writes: nat, ttl: int)
    requires Apply(b.domain, p).Ok? && r.key in b.records && writes >= 2
    requires Matches(r.endpoint, p)
    ensures var o := b.Settle(r, p, now, Fault(false, writes), ttl);
            && o.committed == Some(p) && o.after.chain == b.chain && Apply(b.domain, p) == Ok(o.after.domain)
            && o.response.Executed?
            && o.response.reply == Reply(r.endpoint, p, o.response.reply.remaining)
            && (r.endpoint != Listings ==> o.response.reply.remaining == None)
            && (r.endpoint == Listings ==>
                  p.id in o.after.domain.listings
                  && o.response.reply.remaining == Some(o.after.domain.listings[p.id].remaining))
            && o.after.records
               == b.records[r.key := Record(b.records[r.key].fingerprint, Some(o.response.reply),
                                            b.records[r.key].createdAt, b.records[r.key].expiresAt)]
  {
  }

  lemma PerformsCleanly(b: Backend, begun: Backend, r: Request, at: Clock, writes: nat, ttl: int)
    requires Valid(r.endpoint, r.body) && r.key in begun.records && writes >= 3
    requires begun.chain == b.chain && begun.domain == b.domain
    requires begun.records == b.records[r.key := begun.records[r.key]]
    requires forall reply :: Completed(b, r, at.handler, ttl, reply) == begun.records[r.key].(reply := Some(reply))
    ensures var o, refusal := begun.Perform(r, at, Fault(false, writes), ttl), BusinessRefusal(b, r);
            && (refusal.Some? ==> o == Outcome(Minus(b, r.key), Refused(refusal.value), None))
            && (refusal.None? ==> CarriedOut(b, r, at, ttl, Intended(b, r, at.service), o))
  {
    PreparesExactly(begun, r, at.service);
    if BusinessRefusal(b, r).None? {
      var p := Intended(b, r, at.service);
      var sent := begun.Submit(r.key, p, at.chain);
      SettlesCleanly(sent, r, p, at.handler, writes - 1, ttl);
      var o := sent.Settle(r, p, at.handler, Fault(false, writes - 1), ttl);
      assert begun.Perform(r, at, Fault(false, writes), ttl) == o;
      assert Completed(b, r, at.handler, ttl, o.response.reply)
             == begun.records[r.key].(reply := Some(o.response.reply));
    } else {
      assert begun.records - {r.key} == b.records - {r.key};
    }
  }

  // Without a fault, an executable request is refused exactly when it buys from a missing listing (404) or more than is
  // left (409), and then leaves chain and rows alone and no record behind; otherwise it is carried out.
  lemma CleanExecutionExactly(b: Backend, r: Request, at: Clock, ttl: int)
    requires Executable(b, r, at, ttl)
    ensures var o, refusal := b.Handle(r, at, NO_FAULT, ttl), BusinessRefusal(b, r);
            && (refusal.Some? ==> o == Outcome(Minus(b, r.key), Refused(refusal.value), None))
            && (refusal.None? ==> CarriedOut(b, r, at, ttl, Intended(b, r, at.service), o))
  {
    if Held(b, r.key, at.handler) {
      assert b.Handle(r, at, NO_FAULT, ttl) == b.Perform(r, at, NO_FAULT, ttl);
      PerformsCleanly(b, b, r, at, 5, ttl);
    } else {
      var writes := if r.key in b.records then 3 else 4;
      var cleared := if r.key in b.records then b.Forget(r.key) else b;
      var begun := cleared.Begin(r.key, Fingerprint(r.endpoint, r.body), at.handler, ttl);
      assert b.Handle(r, at, NO_FAULT, ttl) == begun.Perform(r, at, Fault(false, writes), ttl);
      PerformsCleanly(b, begun, r, at, writes, ttl);
    }
  }

  // ---------------------------------------------------------------- a clean reconciliation

  /** The response rebuilt from an event and the rows it leaves. */
  ghost predicate RebuiltFrom(b: Backend, r: Request, e: Event, now: int, ttl: int, rows: Domain, o: Outcome) {
    && o.response.Reconciled?
    && o.response.reply.endpoint == r.endpoint && o.response.reply.payload == e.payload
    && o.after.chain == b.chain && o.after.domain == rows
    && o.after.records == b.records[r.key := Completed(b, r, now, ttl, o.response.reply)]
  }

  // Without a fault, a recent submission is never made again: its rows are rebuilt and the response is cached. Rows
  // that cannot be written leave everything as it was: a purchase without its listing, or a payload that lacks the
  // columns of a listing or a purchase. A foreign payload on the retirement endpoint writes no row and is answered all
  // the same.
  lemma ReconciliationExactly(b: Backend, r: Request, at: Clock, ttl: int)
    requires ValidKey(r.key) && Open(b, r, at.handler) && Recent(b, r.key, at.handler, ttl)
    ensures var o, e := b.Handle(r, at, NO_FAULT, ttl), LatestEvent(b.chain, r.key).value;
            if Matches(r.endpoint, e.payload) then
              var rows := Apply(b.domain, e.payload);
              if rows.Ok? then RebuiltFrom(b, r, e, at.handler, ttl, rows.value, o) && o.committed == Some(e.payload)
              else o == Outcome(Cleared(b, r.key, at.handler), Refused(500), None)
            else if r.endpoint == Retirements then
              RebuiltFrom(b, r, e, at.handler, ttl, b.domain, o) && o.committed == None
            else o == Outcome(Cleared(b, r.key, at.handler), Refused(500), None)
  {
    var e := LatestEvent(b.chain, r.key).value;
    if Held(b, r.key, at.handler) {
      assert b.Handle(r, at, NO_FAULT, ttl) == b.Reconcile(r, e, at.handler, NO_FAULT, ttl);
    } else {
      var writes := if r.key in b.records then 4 else 5;
      var cleared := if r.key in b.records then b.Forget(r.key) else b;
      assert cleared == Minus(b, r.key) by {
        if r.key !in b.records {
          assert b.records - {r.key} == b.records;
        }
      }
      assert b.Handle(r, at, NO_FAULT, ttl) == cleared.Reconcile(r, e, at.handler, Fault(false, writes), ttl);
    }
  }

  // ---------------------------------------------------------------- a process that dies on the way

  /** The durable states between the rows of a submission and its cached response. */
  function SettlePath(b: Backend, r: Request, p: Payload, now: int, txFails: bool, ttl: int): seq<Backend> {
    var rows := Apply(b.domain, p);
    if txFails || rows.Err? then [b, Minus(b, r.key)]
    else
      var written := Backend(b.records, b.chain, rows.value);
      [b, written, written.Complete(r.key, Fingerprint(r.endpoint, r.body), Render(r.endpoint, p, rows.value), now,
                                    ttl)]
  }

  function ExecutePath(b: Backend, r: Request, at: Clock, txFails: bool, ttl: int): seq<Backend>
    requires Valid(r.endpoint, r.body)
  {
    if BusinessRefusal(b, r).Some? then [b, Minus(b, r.key)]
    else
      var p := Intended(b, r, at.service);
      [b] + SettlePath(Backend(b.records, b.chain + [Event(r.key, p, at.chain)], b.domain), r, p, at.handler, txFails,
                       ttl)
  }

  /** Rows that cannot be written still cost the attempt. */
  function RebuildPath(b: Backend, r: Request, e: Event, now: int, txFails: bool, ttl: int): seq<Backend> {
    var rows := b.Rebuild(r.endpoint, e.payload);
    if txFails then [b]
    else if rows.Err? then [b, b]
    else
      var written := Backend(b.records, b.chain, rows.value);
      [b, written, written.Complete(r.key, Fingerprint(r.endpoint, r.body), Render(r.endpoint, e.payload, rows.value),
                                    now, ttl)]
  }

  function OpenPath(b: Backend, r: Request, at: Clock, txFails: bool, ttl: int): seq<Backend> {
    if Recent(b, r.key, at.handler, ttl) then
      RebuildPath(b, r, LatestEvent(b.chain, r.key).value, at.handler, txFails, ttl)
    else if !Valid(r.endpoint, r.body) then [b]
    else if r.key in b.records then ExecutePath(b, r, at, txFails, ttl)
    else
      var record := Record(Fingerprint(r.endpoint, r.body), None, at.handler, at.handler + ttl);
      [b] + ExecutePath(Backend(b.records[r.key := record], b.chain, b.domain), r, at, txFails, ttl)
  }

  /** The durable states a request passes through when its process lives, the first and the last included. */
  function Path(b: Backend, r: Request, at: Clock, txFails: bool, ttl: int): seq<Backend> {
    if !ValidKey(r.key) || !Open(b, r, at.handler) then [b]
    else if r.key in b.records && !Held(b, r.key, at.handler) then
      [b] + OpenPath(Minus(b, r.key), r, at, txFails, ttl)
    else OpenPath(b, r, at, txFails, ttl)
  }

  /** Dying after `writes` durable writes leaves the state that many steps along the path; living, its last. */
  ghost predicate CutOff(path: seq<Backend>, o: Outcome, writes: nat) {
    && path != []
    && (o.response.Crashed? <==> writes < |path| - 1)
    && o.after == path[if writes < |path| then writes else |path| - 1]
  }

  lemma CutOffLater(first: Backend, path: seq<Backend>, o: Outcome, writes: nat)
    requires writes > 0 && CutOff(path, o, writes - 1)
    ensures CutOff([first] + path, o, writes)
  {
  }

  lemma ExecuteCutOff(b: Backend, r: Request, at: Clock, fault: Fault, ttl: int)
    requires Valid(r.endpoint, r.body) && r.key in b.records
    ensures CutOff(ExecutePath(b, r, at, fault.txFails, ttl), b.Perform(r, at, fault, ttl), fault.writes)
  {
    PreparesExactly(b, r, at.service);
    if BusinessRefusal(b, r).None? && fault.writes > 0 {
      var p := Intended(b, r, at.service);
      var sent := b.Submit(r.key, p, at.chain);
      var rest := SettlePath(sent, r, p, at.handler, fault.txFails, ttl);
      var o := sent.Settle(r, p, at.handler, Fault(fault.txFails, fault.writes - 1), ttl);
      assert CutOff(rest, o, fault.writes - 1);
      CutOffLater(b, rest, o, fault.writes);
    }
  }

  lemma RebuildCutOff(b: Backend, r: Request, e: Event, now: int, fault: Fault, ttl: int)
    ensures CutOff(RebuildPath(b, r, e, now, fault.txFails, ttl), b.Reconcile(r, e, now, fault, ttl), fault.writes)
  {
  }

  // A record is begun first, unless the key has one.
  lemma BeginCutOff(b: Backend, r: Request, at: Clock, fault: Fault, ttl: int)
    requires ValidKey(r.key) && Valid(r.endpoint, r.body) && !Recent(b, r.key, at.handler, ttl)
    ensures CutOff(OpenPath(b, r, at, fault.txFails, ttl), b.Execute(r, at, fault, ttl), fault.writes)
  {
    if r.key in b.records {
      assert OpenPath(b, r, at, fault.txFails, ttl) == ExecutePath(b, r, at, fault.txFails, ttl);
      ExecuteCutOff(b, r, at, fault, ttl);
    } else {
      var begun := b.Begin(r.key, Fingerprint(r.endpoint, r.body), at.handler, ttl);
      var path := ExecutePath(begun, r, at, fault.txFails, ttl);
      assert OpenPath(b, r, at, fault.txFails, ttl) == [b] + path;
      ExecuteCutOff(begun, r, at, Fault(fault.txFails, 0), ttl);
      if fault.writes > 0 {
        var left := Fault(fault.txFails, fault.writes - 1);
        ExecuteCutOff(begun, r, at, left, ttl);
        CutOffLater(b, path, begun.Perform(r, at, left, ttl), fault.writes);
      }
    }
  }

  lemma OpenCutOff(b: Backend, r: Request, at: Clock, fault: Fault, ttl: int)
    requires ValidKey(r.key) && Open(b, r, at.handler) && (r.key in b.records ==> Held(b, r.key, at.handler))
    ensures CutOff(OpenPath(b, r, at, fault.txFails, ttl), b.Proceed(r, at, fault, ttl), fault.writes)
  {
    if Recent(b, r.key, at.handler, ttl) {
      var e := LatestEvent(b.chain, r.key).value;
      assert b.Proceed(r, at, fault, ttl) == b.Reconcile(r, e, at.handler, fault, ttl);
      RebuildCutOff(b, r, e, at.handler, fault, ttl);
    } else if Valid(r.endpoint, r.body) {
      assert b.Proceed(r, at, fault, ttl) == b.Execute(r, at, fault, ttl);
      BeginCutOff(b, r, at, fault, ttl);
    }
  }

  // Wherever the process dies, it leaves exactly the durable state the request had reached by then.
  lemma CutOffExactly(b: Backend, r: Request, at: Clock, fault: Fault, ttl: int)
    ensures CutOff(Path(b, r, at, fault.txFails, ttl), b.Handle(r, at, fault, ttl), fault.writes)
  {
    if ValidKey(r.key) && Open(b, r, at.handler) {
      if r.key in b.records && !Held(b, r.key, at.handler) {
        if fault.writes > 0 {
          var cleared, left := Minus(b, r.key), Fault(fault.txFails, fault.writes - 1);
          OpenCutOff(cleared, r, at, left, ttl);
          CutOffLater(b, OpenPath(cleared, r, at, fault.txFails, ttl), cleared.Proceed(r, at, left, ttl), fault.writes);
        }
      } else {
        OpenCutOff(b, r, at, fault, ttl);
      }
    }
  }

  // ---------------------------------------------------------------- overselling

  function Left(b: Backend, lid: EntityId): int
    requires lid in b.domain.listings
  {
    b.domain.listings[lid].remaining
  }

  /** A purchase of more than is left, submitted recently, whose rows were never written and now are. */
  ghost predicate LateFill(b: Backend, s: Step, ttl: int, lid: EntityId)
    requires lid in b.domain.listings
  {
    var r, now := s.request, s.at.handler;
    && ValidKey(r.key) && Open(b, r, now) && Recent(b, r.key, now, ttl)
    && r.endpoint == Purchases && !s.fault.txFails && Lives(b, r.key, now, s.fault)
    && var p := LatestEvent(b.chain, r.key).value.payload;
       && p.PurchaseSettled? && p.listingId == lid && p.id !in b.domain.purchases && Left(b, lid) < p.quantity
  }

  // The rows of a listing only change when the request's own payload is committed.
  lemma LeftAfter(b: Backend, p: Payload, lid: EntityId)
    requires lid in b.domain.listings && Apply(b.domain, p).Ok?
    ensures var d := Apply(b.domain, p).value;
            && lid in d.listings
            && d.listings[lid].remaining
               == Left(b, lid) - if p.PurchaseSettled? && p.listingId == lid && p.id !in b.domain.purchases
                                 then p.quantity else 0
  {
  }

  lemma SettlingTakes(b: Backend, r: Request, p: Payload, now: int, fault: Fault, ttl: int, lid: EntityId)
    requires lid in b.domain.listings && Left(b, lid) >= 0
    requires Apply(b.domain, p).Ok? && Apply(b.domain, p).value.listings[lid].remaining >= 0
    ensures var o := b.Settle(r, p, now, fault, ttl);
            lid in o.after.domain.listings && Left(o.after, lid) >= 0
  {
  }

  lemma PerformingNeverOversells(b: Backend, r: Request, at: Clock, fault: Fault, ttl: int, lid: EntityId)
    requires Valid(r.endpoint, r.body) && lid in b.domain.listings && Left(b, lid) >= 0
    ensures var o := b.Perform(r, at, fault, ttl);
            lid in o.after.domain.listings && Left(o.after, lid) >= 0
  {
    PreparesExactly(b, r, at.service);
    if BusinessRefusal(b, r).None? && fault.writes > 0 {
      var p := Intended(b, r, at.service);
      LeftAfter(b, p, lid);
      var sent := b.Submit(r.key, p, at.chain);
      SettlingTakes(sent, r, p, at.handler, Fault(fault.txFails, fault.writes - 1), ttl, lid);
    }
  }

  // Whatever goes wrong: executing a request takes no listing below zero.
  lemma ExecutionNeverOversells(b: Backend, r: Request, at: Clock, fault: Fault, ttl: int, lid: EntityId)
    requires Valid(r.endpoint, r.body) && lid in b.domain.listings && Left(b, lid) >= 0
    ensures var o := b.Execute(r, at, fault, ttl);
            lid in o.after.domain.listings && Left(o.after, lid) >= 0
  {
    if r.key in b.records {
      PerformingNeverOversells(b, r, at, fault, ttl, lid);
    } else if fault.writes > 0 {
      var begun := b.Begin(r.key, Fingerprint(r.endpoint, r.body), at.handler, ttl);
      PerformingNeverOversells(begun, r, at, Fault(fault.txFails, fault.writes - 1), ttl, lid);
    }
  }

  lemma RebuildingOversells(b: Backend, r: Request, e: Event, now: int, fault: Fault, ttl: int, lid: EntityId)
    requires lid in b.domain.listings && Left(b, lid) >= 0
    ensures var o, p := b.Reconcile(r, e, now, fault, ttl), e.payload;
            && lid in o.after.domain.listings
            && (Left(o.after, lid) < 0 <==>
                  && r.endpoint == Purchases && !fault.txFails && fault.writes > 0
                  && p.PurchaseSettled? && p.listingId == lid && p.id !in b.domain.purchases
                  && Left(b, lid) < p.quantity)
  {
    if Matches(r.endpoint, e.payload) && Apply(b.domain, e.payload).Ok? {
      LeftAfter(b, e.payload, lid);
    }
  }

  // Past the gate a request is rebuilt or executed.
  lemma ProceedingOversells(b: Backend, r: Request, at: Clock, fault: Fault, ttl: int, lid: EntityId)
    requires lid in b.domain.listings && Left(b, lid) >= 0 && (r.key in b.records ==> Held(b, r.key, at.handler))
    ensures var o := b.Proceed(r, at, fault, ttl);
            && lid in o.after.domain.listings
            && (Left(o.after, lid) < 0 <==>
                  && Open(b, r, at.handler) && Recent(b, r.key, at.handler, ttl)
                  && r.endpoint == Purchases && !fault.txFails && fault.writes > 0
                  && var p := LatestEvent(b.chain, r.key).value.payload;
                     && p.PurchaseSettled? && p.listingId == lid && p.id !in b.domain.purchases
                     && Left(b, lid) < p.quantity)
  {
    if Open(b, r, at.handler) {
      if Recent(b, r.key, at.handler, ttl) {
        RebuildingOversells(b, r, LatestEvent(b.chain, r.key).value, at.handler, fault, ttl, lid);
      } else if Valid(r.endpoint, r.body) {
        assert b.Proceed(r, at, fault, ttl) == b.Execute(r, at, fault, ttl);
        ExecutionNeverOversells(b, r, at, fault, ttl, lid);
      }
    }
  }

  // One request, with any fault, takes a listing below zero exactly when it is a late fill: reconciling rebuilds a lost
  // purchase without looking again at what is left.
  lemma OversellsExactly(b: Backend, s: Step, ttl: int, lid: EntityId)
    requires lid in b.domain.listings && Left(b, lid) >= 0
    ensures var after := After(b, s, ttl).after;
            lid in after.domain.listings && (Left(after, lid) < 0 <==> LateFill(b, s, ttl, lid))
  {
    var r := s.request;
    if ValidKey(r.key) {
      if r.key in b.records && !Held(b, r.key, s.at.handler) {
        if s.fault.writes > 0 {
          ProceedingOversells(b.Forget(r.key), r, s.at, Fault(s.fault.txFails, s.fault.writes - 1), ttl, lid);
        }
      } else {
        ProceedingOversells(b, r, s.at, s.fault, ttl, lid);
      }
    }
  }

  // ---------------------------------------------------------------- runs in which nothing goes wrong

  ghost predicate Faultless(steps: seq<Step>) {
    forall s :: s in steps ==> s.fault == NO_FAULT
  }

  /** Every purchase on chain has its row, and every listing has something or nothing left. */
  ghost predicate Filled(b: Backend) {
    && (forall e :: e in b.chain && e.payload.PurchaseSettled? ==> e.payload.id in b.domain.purchases)
    && (forall e :: e in b.chain && e.payload.ListingCreated? ==> e.payload.quantity >= 0)
    && forall lid :: lid in b.domain.listings ==> Left(b, lid) >= 0
  }

  lemma FilledStep(b: Backend, s: Step, ttl: int)
    requires Filled(b) && s.fault == NO_FAULT
    ensures Filled(After(b, s, ttl).after)
  {
    var r, o, now := s.request, After(b, s, ttl), s.at.handler;
    forall lid | lid in b.domain.listings
      ensures lid in o.after.domain.listings && Left(o.after, lid) >= 0
    {
      OversellsExactly(b, s, ttl, lid);
    }
    if !ValidKey(r.key) || !Open(b, r, now) {
      GateExactly(b, r, s.at, NO_FAULT, ttl);
    } else if Recent(b, r.key, now, ttl) {
      ReconciliationExactly(b, r, s.at, ttl);
      RowsExactly(b.domain, LatestEvent(b.chain, r.key).value.payload);
    } else if !Valid(r.endpoint, r.body) {
      GateExactly(b, r, s.at, NO_FAULT, ttl);
    } else {
      CleanExecutionExactly(b, r, s.at, ttl);
      if BusinessRefusal(b, r).None? {
        RowsExactly(b.domain, Intended(b, r, s.at.service));
      }
    }
  }

  lemma {:induction false} FaultlessStaysFilled(b: Backend, steps: seq<Step>, ttl: int)
    requires Filled(b) && Faultless(steps)
    ensures Filled(Run(b, steps, ttl))
    decreases |steps|
  {
    if steps != [] {
      assert steps[0] in steps;
      FilledStep(b, steps[0], ttl);
      FaultlessStaysFilled(After(b, steps[0], ttl).after, steps[1..], ttl);
    }
  }

  // From an empty database, runs without faults sell no listing beyond its total: what its purchase rows add up to
  // never exceeds it, as long as no listing key is used with two quantities.
  lemma FaultlessRunsNeverOversell(steps: seq<Step>, quantityOf: string -> int, clock: int, ttl: int, lid: EntityId)
    requires Timely(steps, clock) && Honest(steps, quantityOf) && Faultless(steps)
    requires lid in Run(GENESIS, steps, ttl).domain.listings
    ensures var d := Run(GENESIS, steps, ttl).domain;
            PurchasedFrom(d.purchases, lid) <= d.listings[lid].total
  {
    FaultlessStaysFilled(GENESIS, steps, ttl);
    BalancedFromGenesis(steps, quantityOf, clock, ttl);
    var b := Run(GENESIS, steps, ttl);
    assert Left(b, lid) >= 0;
  }
}
