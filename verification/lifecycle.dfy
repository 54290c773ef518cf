/** The coupon lifecycle across handlers: sequential runs of requests
    against one store (events created, coupons issued, scanned and
    redeemed, events deleted with their coupons), the QR scanner that
    turns a printed payload into a validation request, and what holds of
    every such run. Each request is one atomic step; interleavings of
    concurrent requests are not part of this model. */
module Lifecycle {

  import opened Wrappers
  import opened Hex
  import opened Store
  import QrCodeGenerator
  import EventController
  import CouponController

  /** The requests that read or write coupons or events. */
  datatype Request =
    | CreateEvent(name: Option<string>, date: Option<int>, venue: Option<string>,
                  description: Option<string>, caller: ObjectId, freshId: ObjectId)
    | GenerateCoupons(eventId: string, count: Option<int>, caller: ObjectId,
                      entropy: nat -> QrCodeGenerator.Bytes32)
    | ValidateCoupon(req: CouponController.ValidationRequest, validator: ObjectId, now: int)
    | DeleteEvent(id: string, caller: ObjectId)

  /** The store after one request. */
  function Apply(db: Db, r: Request): Db {
    match r
    case CreateEvent(name, date, venue, description, caller, freshId) =>
      EventController.CreateEventSpec(db, name, date, venue, description, caller, freshId).db
    case GenerateCoupons(eventId, count, caller, entropy) =>
      EventController.GenerateCouponsSpec(db, eventId, count, caller, entropy).db
    case ValidateCoupon(req, validator, now) =>
      db.(coupons := CouponController.Validate(db, req, validator, now).coupons)
    case DeleteEvent(id, caller) =>
      EventController.DeleteEventSpec(db, id, caller).db
  }

  /** The `_id` of the coupon a request redeemed, when it is a validation
      that was served. */
  function ServedCoupon(db: Db, r: Request): Option<nat> {
    if r.ValidateCoupon? && CouponController.Validate(db, r.req, r.validator, r.now).outcome.Served? then
      Some(db.coupons[FindCoupon(db.coupons, r.req.eventId.value, r.req.couponId.value).value].id)
    else None
  }

  /** The store after a run of requests, one after the other. */
  function Run(db: Db, rs: seq<Request>): Db
    decreases |rs|
  {
    if rs == [] then db else Run(Apply(db, rs[0]), rs[1..])
  }

  /** The coupons a run redeemed, in the order it redeemed them. */
  function ServedIds(db: Db, rs: seq<Request>): seq<nat>
    decreases |rs|
  {
    if rs == [] then []
    else
      var first := ServedCoupon(db, rs[0]);
      (if first.Some? then [first.value] else []) + ServedIds(Apply(db, rs[0]), rs[1..])
  }

  /** Every request keeps the store invariant. */
  lemma ApplyKeepsConsistent(db: Db, r: Request)
    requires Consistent(db)
    ensures Consistent(Apply(db, r))
  {
    match r
    case CreateEvent(name, date, venue, description, caller, freshId) =>
      EventController.CreateKeepsConsistent(db, name, date, venue, description, caller, freshId);
    case GenerateCoupons(eventId, count, caller, entropy) =>
      EventController.GenerateKeepsConsistent(db, eventId, count, caller, entropy);
    case ValidateCoupon(req, validator, now) =>
      CouponController.ValidateKeepsConsistent(db, req, validator, now);
    case DeleteEvent(id, caller) =>
      EventController.DeleteKeepsConsistent(db, id, caller);
  }

  /** Every run keeps the store invariant. */
  lemma {:induction false} RunKeepsConsistent(db: Db, rs: seq<Request>)
    requires Consistent(db)
    ensures Consistent(Run(db, rs))
    decreases |rs|
  {
    if rs != [] {
      ApplyKeepsConsistent(db, rs[0]);
      RunKeepsConsistent(Apply(db, rs[0]), rs[1..]);
    }
  }

  /** Coupon `_id` `x` has been handed out and whatever coupon carries it
      is redeemed. */
  predicate Spent(db: Db, x: nat) {
    x < db.nextCouponId
    && forall i :: 0 <= i < |db.coupons| && db.coupons[i].id == x ==> db.coupons[i].isRedeemed
  }

  /** A coupon `_id` below the allocator is never given to a new coupon. */
  lemma GenerateAddsFreshIds(db: Db, eventId: string, count: Option<int>, caller: ObjectId,
                             entropy: nat -> QrCodeGenerator.Bytes32)
    requires Consistent(db)
    ensures var db' := EventController.GenerateCouponsSpec(db, eventId, count, caller, entropy).db;
      && db.coupons <= db'.coupons && db.nextCouponId <= db'.nextCouponId
      && forall i :: |db.coupons| <= i < |db'.coupons| ==> db'.coupons[i].id >= db.nextCouponId
  {
    if !(count.Some? && count.value > 0 && IsObjectId(eventId) && eventId in db.events
         && db.events[eventId].organizer == caller)
    {
      EventController.GenerateRejections(db, eventId, count, caller, entropy);
    } else {
      var n0 := CountForEvent(db.coupons, eventId);
      var k := EventController.FirstClash(db.coupons, n0, 0, count.value);
      EventController.GeneratePastGuards(db, eventId, count.value, caller, entropy);
      var made := EventController.Batch(n0, eventId, db.nextCouponId, entropy, k);
      var db' := EventController.GenerateCouponsSpec(db, eventId, count, caller, entropy).db;
      assert db'.coupons == db.coupons + made;
      forall i | |db.coupons| <= i < |db'.coupons| ensures db'.coupons[i].id >= db.nextCouponId {
        EventController.BatchFields(n0, eventId, db.nextCouponId, entropy, k, i - |db.coupons|);
        assert db'.coupons[i] == made[i - |db.coupons|];
      }
    }
  }

  /** A validation never serves a spent coupon, and leaves it spent. */
  lemma ValidateKeepsSpent(db: Db, req: CouponController.ValidationRequest, validator: ObjectId, now: int, x: nat)
    requires Consistent(db) && Spent(db, x)
    ensures Spent(Apply(db, ValidateCoupon(req, validator, now)), x)
    ensures ServedCoupon(db, ValidateCoupon(req, validator, now)) != Some(x)
  {
    var v := CouponController.Validate(db, req, validator, now);
    if v.outcome.Served? {
      var k := FindCoupon(db.coupons, req.eventId.value, req.couponId.value).value;
      assert !db.coupons[k].isRedeemed;
      assert v.coupons == db.coupons[k := CouponController.MarkRedeemed(db.coupons[k], now, validator)];
    }
  }

  /** No request serves a spent coupon, and every request leaves it spent:
      a validation only redeems, creation and deletion add no coupon, and
      issuance only adds coupons with `_id`s from the allocator onwards. */
  lemma ApplyKeepsSpent(db: Db, r: Request, x: nat)
    requires Consistent(db) && Spent(db, x)
    ensures Spent(Apply(db, r), x)
    ensures ServedCoupon(db, r) != Some(x)
  {
    match r
    case CreateEvent(name, date, venue, description, caller, freshId) =>
      EventController.CreatedEvent(db, name, date, venue, description, caller, freshId);
    case GenerateCoupons(eventId, count, caller, entropy) =>
      GenerateAddsFreshIds(db, eventId, count, caller, entropy);
      var db' := Apply(db, r);
      forall i | 0 <= i < |db'.coupons| && db'.coupons[i].id == x ensures db'.coupons[i].isRedeemed {
        assert db'.coupons[i] == db.coupons[i];
      }
    case ValidateCoupon(req, validator, now) =>
      ValidateKeepsSpent(db, req, validator, now, x);
    case DeleteEvent(id, caller) =>
      EventController.DeleteRemovesExactly(db, id, caller);
      var db' := Apply(db, r);
      forall i | 0 <= i < |db'.coupons| && db'.coupons[i].id == x ensures db'.coupons[i].isRedeemed {
        var j :| 0 <= j < |db.coupons| && db.coupons[j] == db'.coupons[i];
      }
  }

  /** The coupon a served validation redeemed is spent afterwards. */
  lemma ServedIsSpent(db: Db, r: Request)
    requires Consistent(db) && ServedCoupon(db, r).Some?
    ensures Spent(Apply(db, r), ServedCoupon(db, r).value)
  {
    var v := CouponController.Validate(db, r.req, r.validator, r.now);
    var k := FindCoupon(db.coupons, r.req.eventId.value, r.req.couponId.value).value;
    var cs := db.coupons[k := CouponController.MarkRedeemed(db.coupons[k], r.now, r.validator)];
    assert v.coupons == cs;
    assert forall i :: 0 <= i < |cs| && i != k ==> cs[i].id == db.coupons[i].id != db.coupons[k].id;
  }

  /** A spent coupon is never served again, whatever the run. */
  lemma {:induction false} SpentNeverServed(db: Db, rs: seq<Request>, x: nat)
    requires Consistent(db) && Spent(db, x)
    ensures x !in ServedIds(db, rs)
    decreases |rs|
  {
    if rs != [] {
      ApplyKeepsSpent(db, rs[0], x);
      ApplyKeepsConsistent(db, rs[0]);
      SpentNeverServed(Apply(db, rs[0]), rs[1..], x);
    }
  }

  /** No value occurs twice. */
  predicate Distinct(xs: seq<nat>) {
    forall i, j :: 0 <= i < j < |xs| ==> xs[i] != xs[j]
  }

  /** A value not among distinct values can go in front of them. */
  lemma ConsDistinct(x: nat, rest: seq<nat>)
    requires Distinct(rest) && x !in rest
    ensures Distinct([x] + rest)
  {
    var xs := [x] + rest;
    forall i, j | 0 <= i < j < |xs| ensures xs[i] != xs[j] {
      assert xs[j] == rest[j - 1];
      if i > 0 {
        assert xs[i] == rest[i - 1];
      }
    }
  }

  /** In any sequential run, each coupon is redeemed successfully at most
      once: the served coupons of a run are all different. */
  lemma {:induction false} AtMostOnce(db: Db, rs: seq<Request>)
    requires Consistent(db)
    ensures Distinct(ServedIds(db, rs))
    decreases |rs|
  {
    if rs != [] {
      var first := ServedCoupon(db, rs[0]);
      var db1 := Apply(db, rs[0]);
      var rest := ServedIds(db1, rs[1..]);
      ApplyKeepsConsistent(db, rs[0]);
      AtMostOnce(db1, rs[1..]);
      if first.Some? {
        ServedIsSpent(db, rs[0]);
        SpentNeverServed(db1, rs[1..], first.value);
        ConsDistinct(first.value, rest);
        assert ServedIds(db, rs) == [first.value] + rest;
      } else {
        assert ServedIds(db, rs) == [] + rest;
      }
    }
  }

  /** The volunteer's scanner: it parses the QR text and posts its three
      fields; text that does not parse is reported on the page and nothing
      is posted (None). A posted request re-encodes, field by field, to the
      very text that was scanned. */
  function ScanRequest(qrText: string): (req: Option<CouponController.ValidationRequest>)
    ensures req.Some? <==> QrCodeGenerator.Decode(qrText).Some?
    ensures req.Some? ==>
      && req.value.eventId.Some? && req.value.couponId.Some? && req.value.secureHash.Some?
      && var p := QrCodeGenerator.Payload(req.value.eventId.value, req.value.couponId.value,
                                         req.value.secureHash.value);
      && QrCodeGenerator.IsPlain(p) && QrCodeGenerator.Encode(p) == qrText
  {
    match QrCodeGenerator.Decode(qrText)
    case Some(p) =>
      Some(CouponController.ValidationRequest(Some(p.eventId), Some(p.couponId), Some(p.secureHash)))
    case None => None
  }

  /** Scanning the payload of any three escape-free values posts exactly
      those three values. */
  lemma ScanEncoded(p: QrCodeGenerator.Payload)
    requires QrCodeGenerator.IsPlain(p)
    ensures ScanRequest(QrCodeGenerator.Encode(p))
         == Some(CouponController.ValidationRequest(Some(p.eventId), Some(p.couponId), Some(p.secureHash)))
  {
    QrCodeGenerator.DecodeEncode(p);
  }

  /** Issue, scan, redeem, scan again: every coupon of a completed batch
      for an event that is open, once its QR payload is scanned, is served
      with a receipt for its own short code, and scanning it again is
      answered "already redeemed". */
  lemma IssuedCouponRedeemsOnce(db: Db, eventId: ObjectId, count: Option<int>, caller: ObjectId,
                                entropy: nat -> QrCodeGenerator.Bytes32, i: nat,
                                validator: ObjectId, now: int, validator': ObjectId, now': int)
    requires Consistent(db)
    requires EventController.GenerateCouponsSpec(db, eventId, count, caller, entropy).reply.Success?
    requires i < |EventController.GenerateCouponsSpec(db, eventId, count, caller, entropy).reply.value.coupons|
    requires CouponController.EventOpen(db.events, eventId, now)
    ensures var s := EventController.GenerateCouponsSpec(db, eventId, count, caller, entropy);
      var issued := s.reply.value.coupons[i];
      var scanned := ScanRequest(issued.qrData);
      && scanned.Some?
      && var v := CouponController.Validate(s.db, scanned.value, validator, now);
      && v.outcome.Served? && v.outcome.receipt.couponId == issued.couponIdShort
      && CouponController.Validate(s.db.(coupons := v.coupons), scanned.value, validator', now').outcome
         == CouponController.AlreadyRedeemed
  {
    var s := EventController.GenerateCouponsSpec(db, eventId, count, caller, entropy);
    var issued := s.reply.value.coupons[i];
    IssuedEntryScans(db, eventId, count, caller, entropy, i);
    ScannedCouponRedeemsOnce(s.db, |db.coupons| + i, issued.qrData, validator, now, validator', now');
  }

  /** A QR payload that scans to the three fields of a stored, unredeemed
      coupon of an open event is served once and then answered "already
      redeemed". */
  lemma ScannedCouponRedeemsOnce(db: Db, k: nat, qrData: string, validator: ObjectId, now: int,
                                 validator': ObjectId, now': int)
    requires Consistent(db) && k < |db.coupons|
    requires !db.coupons[k].isRedeemed && CouponController.EventOpen(db.events, db.coupons[k].event, now)
    requires var c := db.coupons[k];
      ScanRequest(qrData)
      == Some(CouponController.ValidationRequest(Some(c.event), Some(c.shortCode), Some(c.secureHash)))
    ensures var scanned := ScanRequest(qrData);
      && scanned.Some?
      && var v := CouponController.Validate(db, scanned.value, validator, now);
      && v.outcome.Served? && v.outcome.receipt.couponId == db.coupons[k].shortCode
      && CouponController.Validate(db.(coupons := v.coupons), scanned.value, validator', now').outcome
         == CouponController.AlreadyRedeemed
  {
    UnredeemedCouponServed(db, k, validator, now, validator', now');
  }

  /** Entry `i` of a completed batch's response describes the stored
      coupon at position `|db.coupons| + i`, and its QR payload scans back
      to that coupon's three fields. */
  lemma IssuedEntryScans(db: Db, eventId: ObjectId, count: Option<int>, caller: ObjectId,
                         entropy: nat -> QrCodeGenerator.Bytes32, i: nat)
    requires Consistent(db)
    requires EventController.GenerateCouponsSpec(db, eventId, count, caller, entropy).reply.Success?
    requires i < |EventController.GenerateCouponsSpec(db, eventId, count, caller, entropy).reply.value.coupons|
    ensures var s := EventController.GenerateCouponsSpec(db, eventId, count, caller, entropy);
      var k := |db.coupons| + i;
      && Consistent(s.db) && s.db.events == db.events && k < |s.db.coupons|
      && var c := s.db.coupons[k];
      && c.event == eventId && !c.isRedeemed
      && c.shortCode == s.reply.value.coupons[i].couponIdShort
      && ScanRequest(s.reply.value.coupons[i].qrData)
         == Some(CouponController.ValidationRequest(Some(eventId), Some(c.shortCode), Some(c.secureHash)))
  {
    var s := EventController.GenerateCouponsSpec(db, eventId, count, caller, entropy);
    EventController.GenerateSucceeded(db, eventId, count, caller, entropy);
    EventController.GenerateKeepsConsistent(db, eventId, count, caller, entropy);
    var added := EventController.Added(db, s.db);
    var c := added[i];
    var n0 := CountForEvent(db.coupons, eventId);
    assert c.shortCode == EventController.BatchCode(n0, i);
    QrCodeGenerator.LowerHexIsPlain(c.secureHash);
    QrCodeGenerator.LowerHexIsPlain(eventId);
    ScanEncoded(QrCodeGenerator.Payload(eventId, c.shortCode, c.secureHash));
    assert s.db.coupons[|db.coupons| + i] == c;
  }

  /** A stored, unredeemed coupon of an open event is served when its own
      three fields are presented, and presenting them again is answered
      "already redeemed". */
  lemma UnredeemedCouponServed(db: Db, k: nat, validator: ObjectId, now: int,
                               validator': ObjectId, now': int)
    requires Consistent(db) && k < |db.coupons|
    requires !db.coupons[k].isRedeemed && CouponController.EventOpen(db.events, db.coupons[k].event, now)
    ensures var c := db.coupons[k];
      var req := CouponController.ValidationRequest(Some(c.event), Some(c.shortCode), Some(c.secureHash));
      var v := CouponController.Validate(db, req, validator, now);
      && v.outcome.Served? && v.outcome.receipt.couponId == c.shortCode
      && CouponController.Validate(db.(coupons := v.coupons), req, validator', now').outcome
         == CouponController.AlreadyRedeemed
  {
    var c := db.coupons[k];
    var req := CouponController.ValidationRequest(Some(c.event), Some(c.shortCode), Some(c.secureHash));
    assert WellFormedCoupon(c, db.nextCouponId);
    FindCouponUnique(db.coupons, c.event, c.shortCode, k);
    CouponController.SignatureIsSecretEquality(c, c.secureHash);
    CouponController.RepeatIsAlreadyRedeemed(db, req, validator, now, validator', now');
  }

  /** A freshly created event is Active, so coupons for it are accepted
      for as long as its date has not passed. */
  lemma CreatedEventIsOpen(db: Db, name: Option<string>, date: Option<int>, venue: Option<string>,
                           description: Option<string>, caller: ObjectId, freshId: ObjectId, now: int)
    requires EventController.CreateEventSpec(db, name, date, venue, description, caller, freshId).reply.Success?
    requires date.Some? && date.value >= now
    ensures CouponController.EventOpen(
              EventController.CreateEventSpec(db, name, date, venue, description, caller, freshId).db.events,
              freshId, now)
  {
    EventController.CreatedEvent(db, name, date, venue, description, caller, freshId);
  }
}
