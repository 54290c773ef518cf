/** `validateCoupon`, the redemption validator behind
    `POST /api/coupons/validate`: a fixed chain of guards followed by the one
    state change a coupon ever undergoes, unredeemed to redeemed.

    The caller's user id and the current time are inputs. The handler is
    one atomic step on the store; interleavings of concurrent requests are
    not modelled. */
module CouponController {

  import opened Wrappers
  import opened Hex
  import opened EventModel
  import opened CouponModel
  import opened Store
  import QrCodeGenerator
  import JsText

  /** The JSON body: each field absent (None) or a string. */
  datatype ValidationRequest = ValidationRequest(
    eventId: Option<string>,
    couponId: Option<string>,
    secureHash: Option<string>)

  predicate AllPresent(req: ValidationRequest) {
    JsText.Truthy(req.eventId) && JsText.Truthy(req.couponId) && JsText.Truthy(req.secureHash)
  }

  /** The `coupon` object of a successful response. */
  datatype Receipt = Receipt(couponId: string, eventName: string, foodDetails: string, redeemedAt: int)

  /** Each way the handler can answer, in the order its guards run. */
  datatype ValidationOutcome =
    | MissingData
    | CouponNotFound
    | AlreadyRedeemed
    | InvalidSignature
    | EventClosed
    | Served(receipt: Receipt)
  {
    /** The HTTP status code of the response. */
    function Status(): int {
      match this
      case MissingData => 400
      case CouponNotFound => 404
      case AlreadyRedeemed => 400
      case InvalidSignature => 400
      case EventClosed => 400
      case Served(_) => 200
    }

    /** The `message` field of the response body. */
    function Message(): string {
      match this
      case MissingData => "Missing coupon validation data."
      case CouponNotFound => "Coupon not found."
      case AlreadyRedeemed => "Coupon already redeemed."
      case InvalidSignature => "Invalid coupon signature."
      case EventClosed => "Event is not active or has expired."
      case Served(_) => "Coupon Valid! Meal Served."
    }
  }

  /** Every outcome kind is told apart by its status and message: the
      volunteer sees a distinct reason for each. */
  lemma ResponsesDistinct(a: ValidationOutcome, b: ValidationOutcome)
    requires a.Status() == b.Status() && a.Message() == b.Message()
    ensures a.Served? <==> b.Served?
    ensures !a.Served? ==> a == b
  {
  }

  /** The owning event admits redemption at `now`: it exists, it is Active
      and its date is not earlier than `now`. */
  predicate EventOpen(events: map<ObjectId, Event>, id: ObjectId, now: int) {
    id in events && events[id].status == Active && !(events[id].date < now)
  }

  /** The coupon after the handler's three assignments. */
  function MarkRedeemed(c: Coupon, now: int, validator: ObjectId): (r: Coupon)
    ensures r.isRedeemed && r.redeemedAt == Some(now) && r.redeemedBy == Some(validator)
    ensures r.id == c.id && r.event == c.event && r.shortCode == c.shortCode && r.secureHash == c.secureHash
  {
    c.(isRedeemed := true, redeemedAt := Some(now), redeemedBy := Some(validator))
  }

  /** What the handler answers and what the coupon collection becomes. */
  datatype Verdict = Verdict(outcome: ValidationOutcome, coupons: seq<Coupon>)

  /** The signature check as the handler performs it: re-encode the stored
      record into a QR payload, parse it, and compare its `secureHash` with
      the presented one. (A payload that does not parse back cannot arise
      from a stored coupon; see `SignatureIsSecretEquality`.) */
  function SignatureMatches(c: Coupon, presented: string): bool {
    match QrCodeGenerator.Decode(QrCodeGenerator.CreateQrCodeData(c.event, c.shortCode, c.secureHash))
    case Some(expected) => expected.secureHash == presented
    case None => false
  }

  /** Comparing through the payload is comparing the secrets themselves. */
  lemma SignatureIsSecretEquality(c: Coupon, presented: string)
    requires QrCodeGenerator.IsPlainText(c.shortCode) && QrCodeGenerator.IsSecureHash(c.secureHash)
    ensures SignatureMatches(c, presented) <==> c.secureHash == presented
  {
    QrCodeGenerator.LowerHexIsPlain(c.secureHash);
    QrCodeGenerator.CreateQrCodeDataFields(c.event, c.shortCode, c.secureHash);
  }

  /** The handler as a function of the store's contents: every rejection
      leaves the coupon collection exactly as it was. */
  function Validate(db: Db, req: ValidationRequest, validator: ObjectId, now: int): (v: Verdict)
    ensures !v.outcome.Served? ==> v.coupons == db.coupons
  {
    if !AllPresent(req) then Verdict(MissingData, db.coupons)
    else match FindCoupon(db.coupons, req.eventId.value, req.couponId.value)
      case None => Verdict(CouponNotFound, db.coupons)
      case Some(k) =>
        var c := db.coupons[k];
        if c.isRedeemed then Verdict(AlreadyRedeemed, db.coupons)
        else if !SignatureMatches(c, req.secureHash.value) then Verdict(InvalidSignature, db.coupons)
        else if !EventOpen(db.events, c.event, now) then Verdict(EventClosed, db.coupons)
        else
          var event := db.events[c.event];
          Verdict(Served(Receipt(c.shortCode, event.name, event.description, now)),
                  db.coupons[k := MarkRedeemed(c, now, validator)])
  }

  /** A success changes exactly the three redemption fields of the one
      coupon the lookup found, which was unredeemed, carried the presented
      secret and belongs to an open event; the receipt carries its short
      code, the event's name and description, and the redemption time. */
  lemma SuccessChangesExactlyThreeFields(db: Db, req: ValidationRequest, validator: ObjectId, now: int)
    requires Consistent(db)
    requires Validate(db, req, validator, now).outcome.Served?
    ensures AllPresent(req)
    ensures var v := Validate(db, req, validator, now);
      exists k :: 0 <= k < |db.coupons|
        && FindCoupon(db.coupons, req.eventId.value, req.couponId.value) == Some(k)
        && !db.coupons[k].isRedeemed
        && db.coupons[k].secureHash == req.secureHash.value
        && EventOpen(db.events, db.coupons[k].event, now)
        && v.coupons == db.coupons[k := MarkRedeemed(db.coupons[k], now, validator)]
        && v.outcome.receipt == Receipt(db.coupons[k].shortCode, db.events[db.coupons[k].event].name,
                                        db.events[db.coupons[k].event].description, now)
  {
    var k := FindCoupon(db.coupons, req.eventId.value, req.couponId.value).value;
    SignatureIsSecretEquality(db.coupons[k], req.secureHash.value);
  }

  /** The handler keeps the store invariant. */
  lemma ValidateKeepsConsistent(db: Db, req: ValidationRequest, validator: ObjectId, now: int)
    requires Consistent(db)
    ensures Consistent(db.(coupons := Validate(db, req, validator, now).coupons))
  {
    if Validate(db, req, validator, now).outcome.Served? {
      var k := FindCoupon(db.coupons, req.eventId.value, req.couponId.value).value;
      RedeemKeepsConsistent(db, k, now, validator);
    }
  }

  lemma RedeemKeepsConsistent(db: Db, k: nat, now: int, validator: ObjectId)
    requires Consistent(db) && k < |db.coupons|
    ensures Consistent(db.(coupons := db.coupons[k := MarkRedeemed(db.coupons[k], now, validator)]))
  {
    var cs := db.coupons[k := MarkRedeemed(db.coupons[k], now, validator)];
    assert forall i :: 0 <= i < |cs| ==> cs[i].shortCode == db.coupons[i].shortCode && cs[i].id == db.coupons[i].id;
  }

  // ------------------------------------------------------------ the guards

  /** A request missing any of the three fields is answered 400 whatever
      the store holds: the store is neither read nor written. */
  lemma MissingFieldsRejected(db: Db, req: ValidationRequest, validator: ObjectId, now: int)
    ensures Validate(db, req, validator, now).outcome == MissingData <==> !AllPresent(req)
    ensures !AllPresent(req) ==> Validate(db, req, validator, now) == Verdict(MissingData, db.coupons)
  {
  }

  /** The lookup is by the pair (event, short code): with all fields present
      the answer is 404 exactly when no coupon of that event has that code,
      in particular when a real short code is presented under another
      event's id. */
  lemma LookupIsByPair(db: Db, req: ValidationRequest, validator: ObjectId, now: int)
    requires AllPresent(req)
    ensures Validate(db, req, validator, now).outcome == CouponNotFound
      <==> forall j :: 0 <= j < |db.coupons| ==> !Matches(db.coupons[j], req.eventId.value, req.couponId.value)
  {
  }

  /** A redeemed coupon is reported as such before its secret is looked at:
      even a wrong secret gets "already redeemed", and nothing changes. */
  lemma RedeemedBeforeSignature(db: Db, req: ValidationRequest, validator: ObjectId, now: int, k: nat)
    requires Consistent(db) && AllPresent(req)
    requires k < |db.coupons| && Matches(db.coupons[k], req.eventId.value, req.couponId.value)
    requires db.coupons[k].isRedeemed
    ensures Validate(db, req, validator, now) == Verdict(AlreadyRedeemed, db.coupons)
  {
    FindCouponUnique(db.coupons, req.eventId.value, req.couponId.value, k);
  }

  /** For an unredeemed coupon the signature guard rejects exactly the
      requests whose secret differs from the stored one. */
  lemma ForgeryRejected(db: Db, req: ValidationRequest, validator: ObjectId, now: int, k: nat)
    requires Consistent(db) && AllPresent(req)
    requires k < |db.coupons| && Matches(db.coupons[k], req.eventId.value, req.couponId.value)
    requires !db.coupons[k].isRedeemed
    ensures Validate(db, req, validator, now).outcome == InvalidSignature
      <==> db.coupons[k].secureHash != req.secureHash.value
  {
    FindCouponUnique(db.coupons, req.eventId.value, req.couponId.value, k);
    SignatureIsSecretEquality(db.coupons[k], req.secureHash.value);
  }

  /** Past the signature guard, the request is refused exactly when the
      owning event is missing, not Active, or dated strictly before now;
      otherwise it is served. */
  lemma EventGate(db: Db, req: ValidationRequest, validator: ObjectId, now: int, k: nat)
    requires Consistent(db) && AllPresent(req)
    requires k < |db.coupons| && Matches(db.coupons[k], req.eventId.value, req.couponId.value)
    requires !db.coupons[k].isRedeemed && db.coupons[k].secureHash == req.secureHash.value
    ensures Validate(db, req, validator, now).outcome == EventClosed
      <==> !EventOpen(db.events, db.coupons[k].event, now)
    ensures Validate(db, req, validator, now).outcome.Served?
      <==> EventOpen(db.events, db.coupons[k].event, now)
  {
    FindCouponUnique(db.coupons, req.eventId.value, req.couponId.value, k);
    SignatureIsSecretEquality(db.coupons[k], req.secureHash.value);
  }

  /** Repeating a request that was served is answered "already redeemed",
      whoever repeats it and whenever. */
  lemma RepeatIsAlreadyRedeemed(db: Db, req: ValidationRequest, validator: ObjectId, now: int,
                                validator': ObjectId, now': int)
    requires Validate(db, req, validator, now).outcome.Served?
    ensures var db' := db.(coupons := Validate(db, req, validator, now).coupons);
      Validate(db', req, validator', now') == Verdict(AlreadyRedeemed, db'.coupons)
  {
    var v := Validate(db, req, validator, now);
    var k := FindCoupon(db.coupons, req.eventId.value, req.couponId.value).value;
    assert v.coupons == db.coupons[k := MarkRedeemed(db.coupons[k], now, validator)];
    FindCouponSameKeys(db.coupons, v.coupons, req.eventId.value, req.couponId.value);
  }

  // ------------------------------------------------------------ the handler

  /** `validateCoupon` on the store: early returns for each guard, then the
      three assignments to the found coupon and its save. */
  method ValidateCoupon(db: Store, req: ValidationRequest, validator: ObjectId, now: int)
    returns (outcome: ValidationOutcome)
    requires db.Valid()
    modifies db
    ensures db.Valid()
    ensures Verdict(outcome, db.coupons) == Validate(old(db.Snapshot()), req, validator, now)
    ensures db.events == old(db.events) && db.nextCouponId == old(db.nextCouponId)
  {
    if !JsText.Truthy(req.eventId) || !JsText.Truthy(req.couponId) || !JsText.Truthy(req.secureHash) {
      return MissingData;
    }
    var found := FindCoupon(db.coupons, req.eventId.value, req.couponId.value);
    if found.None? {
      return CouponNotFound;
    }
    var k := found.value;
    var coupon := db.coupons[k];
    if coupon.isRedeemed {
      return AlreadyRedeemed;
    }
    if !SignatureMatches(coupon, req.secureHash.value) {
      return InvalidSignature;
    }
    if !EventOpen(db.events, coupon.event, now) {
      return EventClosed;
    }
    var event := db.events[coupon.event];
    RedeemKeepsConsistent(db.Snapshot(), k, now, validator);
    coupon := coupon.(isRedeemed := true);
    coupon := coupon.(redeemedAt := Some(now));
    coupon := coupon.(redeemedBy := Some(validator));
    db.coupons := db.coupons[k := coupon];
    outcome := Served(Receipt(coupon.shortCode, event.name, event.description, coupon.redeemedAt.value));
  }
}
