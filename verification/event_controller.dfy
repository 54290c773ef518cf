/** The event administration handlers: creating, reading, updating and
    deleting events, issuing a batch of coupons for an event, listing an
    event's coupons, the organizer's event lists and the dashboard counts.

    The caller's user id, the clock, the fresh event id Mongo assigns and
    the random bytes behind each coupon secret are inputs. Each handler is
    one atomic step on the store. */
module EventController {

  import opened Wrappers
  import opened Hex
  import JsText
  import opened EventModel
  import opened CouponModel
  import opened Store
  import QrCodeGenerator
  import Sorting

  /** Failures the handlers pass to `next(error)`, i.e. to the error
      middleware, instead of answering themselves. */
  datatype StoreError =
    | ValidationError       // a schema validator refused the document
    | DuplicateKey          // an insert hit a unique index (`_id`)
    | DuplicateShortCode(code: string)  // an insert hit the `coupon_id_short` index

  /** A handler's answer. */
  datatype Reply<+T> =
    | Success(value: T)               // 200, or 201 for creations
    | BadRequest(message: string)     // 400
    | NotFound(message: string)       // 404
    | Forbidden(message: string)      // 403
    | Failed(error: StoreError)       // handed to the error middleware
  {
    predicate Rejected() {
      BadRequest? || NotFound? || Forbidden?
    }

    /** The same failure as an answer of another handler. */
    function Propagate<U>(): (r: Reply<U>)
      requires !Success?
      ensures r.Rejected() == Rejected() && r.Failed? == Failed?
    {
      if BadRequest? then BadRequest(message)
      else if NotFound? then NotFound(message)
      else if Forbidden? then Forbidden(message)
      else Failed(error)
    }
  }

  // ------------------------------------------------------------ ownership

  /** The guard every per-event handler runs first: 404 with `notFound` when
      there is no event with that id, 403 with `forbidden` when the caller
      is not its organizer, otherwise the event. */
  function OwnedEvent(events: map<ObjectId, Event>, id: string, caller: ObjectId,
                      notFound: string, forbidden: string): (r: Reply<Event>)
    ensures r.Success? || r.NotFound? || r.Forbidden?
    ensures r.NotFound? <==> !(IsObjectId(id) && id in events)
    ensures r.Success? ==> IsObjectId(id) && id in events && r.value == events[id]
    ensures r.Success? ==> r.value.organizer == caller
    ensures r.Forbidden? <==> IsObjectId(id) && id in events && events[id].organizer != caller
  {
    if !(IsObjectId(id) && id in events) then NotFound(notFound)
    else if events[id].organizer != caller then Forbidden(forbidden)
    else Success(events[id])
  }

  /** `getEventById`. */
  function GetEventById(db: Db, id: string, caller: ObjectId): (r: Reply<Event>)
    ensures r.Success? ==> IsObjectId(id) && id in db.events && r.value == db.events[id]
    ensures r.Success? ==> r.value.organizer == caller
  {
    OwnedEvent(db.events, id, caller, "Event not found", "Not authorized to view this event")
  }

  /** Only the organizer passes the guard: any other caller gets 403 or
      404, and the organizer gets the event. */
  lemma OnlyOrganizerPasses(db: Db, id: ObjectId, caller: ObjectId)
    requires id in db.events
    ensures GetEventById(db, id, caller).Success? <==> db.events[id].organizer == caller
  {
  }

  /** A handler's answer together with the store it leaves behind. */
  datatype Step<+T> = Step(reply: Reply<T>, db: Db)

  // ------------------------------------------------------------ short codes

  /** The short code of coupon number `number`:
      `C${number.toString().padStart(3, '0')}`. */
  function ShortCode(number: nat): (code: string)
    ensures |code| >= 4 && code[0] == 'C' && JsText.IsDigits(code[1..])
    ensures QrCodeGenerator.IsPlainText(code)
  {
    JsText.PaddedNumberValue(number, 3);
    var code := "C" + JsText.PadStart(JsText.NumberToString(number), 3, '0');
    assert code[1..] == JsText.PadStart(JsText.NumberToString(number), 3, '0');
    code
  }

  /** Reading the digits back gives the number: padding only adds leading
      zeros and nothing is cut off. */
  lemma ShortCodeNumber(number: nat)
    ensures JsText.DecimalValue(ShortCode(number)[1..]) == number
  {
    JsText.PaddedNumberValue(number, 3);
    assert ShortCode(number)[1..] == JsText.PadStart(JsText.NumberToString(number), 3, '0');
  }

  /** Distinct numbers give distinct short codes. */
  lemma ShortCodeInjective(m: nat, n: nat)
    ensures ShortCode(m) == ShortCode(n) <==> m == n
  {
    ShortCodeNumber(m);
    ShortCodeNumber(n);
  }

  /** Numbers below 100 are padded to three digits. */
  lemma ShortCodeExamples()
    ensures ShortCode(1) == "C001" && ShortCode(3) == "C003" && ShortCode(42) == "C042"
  {
    assert JsText.NumberToString(42) == JsText.NumberToString(4) + ['2'];
  }

  /** Three digits need no padding, and numbers of 1000 or more keep all
      their digits: nothing is cut off. */
  lemma ShortCodeWideExamples()
    ensures ShortCode(999) == "C999" && ShortCode(1000) == "C1000"
  {
    assert JsText.NumberToString(999) == JsText.NumberToString(99) + ['9'];
    assert JsText.NumberToString(99) == JsText.NumberToString(9) + ['9'];
    assert JsText.NumberToString(1000) == JsText.NumberToString(100) + ['0'];
    assert JsText.NumberToString(100) == JsText.NumberToString(10) + ['0'];
    assert JsText.NumberToString(10) == JsText.NumberToString(1) + ['0'];
  }

  // ------------------------------------------------------------ issuance

  /** The i-th coupon (from 0) that a batch creates when the event had `n0`
      coupons before the call: the loop re-counts the event's coupons after
      each insert and adds `i + 1` on top, so its number is n0 + 2i + 1. */
  function BatchCoupon(n0: nat, eventId: ObjectId, firstId: nat,
                       entropy: nat -> QrCodeGenerator.Bytes32, i: nat): Coupon
  {
    CouponModel.New(firstId + i, eventId, BatchCode(n0, i),
                    QrCodeGenerator.GenerateSecureHash(entropy(i)))
  }

  /** The first `k` coupons of a batch, in creation order. */
  function Batch(n0: nat, eventId: ObjectId, firstId: nat,
                 entropy: nat -> QrCodeGenerator.Bytes32, k: nat): (b: seq<Coupon>)
    ensures |b| == k
  {
    seq(k, i requires 0 <= i => BatchCoupon(n0, eventId, firstId, entropy, i))
  }

  /** A batch grows by one coupon per insert. */
  lemma BatchNext(n0: nat, eventId: ObjectId, firstId: nat,
                  entropy: nat -> QrCodeGenerator.Bytes32, k: nat)
    ensures Batch(n0, eventId, firstId, entropy, k + 1)
         == Batch(n0, eventId, firstId, entropy, k) + [BatchCoupon(n0, eventId, firstId, entropy, k)]
  {
    var b := Batch(n0, eventId, firstId, entropy, k + 1);
    var b' := Batch(n0, eventId, firstId, entropy, k) + [BatchCoupon(n0, eventId, firstId, entropy, k)];
    forall i | 0 <= i < k + 1 ensures b[i] == b'[i] {
    }
  }

  /** The number the loop gives position `i` of a batch for an event that
      had `n0` coupons before the call. */
  function BatchNumber(n0: nat, i: nat): nat {
    n0 + 2 * i + 1
  }

  /** The short code of position `i` of such a batch. */
  function BatchCode(n0: nat, i: nat): string {
    ShortCode(BatchNumber(n0, i))
  }

  /** The first insert of a batch is numbered one past the count, and
      a batch from an empty event issues C001 and then C003. */
  lemma BatchCodeExamples(n0: nat)
    ensures BatchCode(n0, 0) == ShortCode(n0 + 1)
    ensures BatchCode(0, 0) == "C001" && BatchCode(0, 1) == "C003" && BatchCode(2, 0) == "C003"
  {
    ShortCodeExamples();
  }

  /** Insert `i` numbers its coupon from a count that already includes the
      `i` coupons the batch inserted, so its number is n0 + 2i + 1. */
  lemma RecountedCode(count: nat, n0: nat, i: nat)
    requires count == n0 + i
    ensures count + i + 1 == BatchNumber(n0, i)
  {
  }

  /** The first position from `from` on whose short code the unique index
      already holds, or `n` when there is none: where the batch stops. */
  function FirstClash(cs: seq<Coupon>, n0: nat, from: nat, n: nat): (k: nat)
    requires from <= n
    decreases n - from
    ensures from <= k <= n
    ensures forall j :: from <= j < k ==> !ShortCodeTaken(cs, BatchCode(n0, j))
    ensures k < n ==> ShortCodeTaken(cs, BatchCode(n0, k))
  {
    if from == n then n
    else if ShortCodeTaken(cs, BatchCode(n0, from)) then from
    else FirstClash(cs, n0, from + 1, n)
  }

  /** A position up to the first clash whose code is free lies before it. */
  lemma FirstClashBeyond(cs: seq<Coupon>, n0: nat, n: nat, i: nat)
    requires i < n && i <= FirstClash(cs, n0, 0, n)
    requires !ShortCodeTaken(cs, BatchCode(n0, i))
    ensures i < FirstClash(cs, n0, 0, n)
  {
  }

  /** A position up to the first clash whose code is held is the first
      clash. */
  lemma FirstClashAt(cs: seq<Coupon>, n0: nat, n: nat, i: nat)
    requires i < n && i <= FirstClash(cs, n0, 0, n)
    requires ShortCodeTaken(cs, BatchCode(n0, i))
    ensures FirstClash(cs, n0, 0, n) == i
  {
  }

  /** One entry of the response: the fields sent back and the QR payload
      to print for the coupon. */
  datatype IssuedCoupon = IssuedCoupon(id: nat, couponIdShort: string, isRedeemed: bool, qrData: string)

  function Issued(c: Coupon): IssuedCoupon {
    IssuedCoupon(c.id, c.shortCode, c.isRedeemed,
                 QrCodeGenerator.CreateQrCodeData(c.event, c.shortCode, c.secureHash))
  }

  function IssuedAll(cs: seq<Coupon>): (r: seq<IssuedCoupon>)
    ensures |r| == |cs| && forall i :: 0 <= i < |cs| ==> r[i] == Issued(cs[i])
  {
    seq(|cs|, i requires 0 <= i < |cs| => Issued(cs[i]))
  }

  datatype Generated = Generated(message: string, coupons: seq<IssuedCoupon>)

  const InvalidCountMessage: string := "Please specify a valid number of coupons to generate."

  /** `generateCoupons` as a function of the store: the count guard, the
      ownership guard, then inserts one at a time until the batch is done or
      an insert hits the unique index; what was inserted before the failing
      insert stays. */
  function GenerateCouponsSpec(db: Db, eventId: string, count: Option<int>, caller: ObjectId,
                               entropy: nat -> QrCodeGenerator.Bytes32): (s: Step<Generated>)
  {
    if count.None? || count.value <= 0 then Step(BadRequest(InvalidCountMessage), db)
    else
      var guard := OwnedEvent(db.events, eventId, caller, "Event not found.",
                              "Not authorized to generate coupons for this event.");
      if !guard.Success? then Step(guard.Propagate(), db)
      else
        var n := count.value;
        var n0 := CountForEvent(db.coupons, eventId);
        var k := FirstClash(db.coupons, n0, 0, n);
        var made := Batch(n0, guard.value.id, db.nextCouponId, entropy, k);
        var db' := db.(coupons := db.coupons + made, nextCouponId := db.nextCouponId + k);
        if k < n then Step(Failed(DuplicateShortCode(BatchCode(n0, k))), db')
        else Step(Success(Generated(JsText.NumberToString(n) + " coupons generated successfully!",
                                    IssuedAll(made))), db')
  }

  /** Counting after inserting records that all belong to the event adds
      their number. */
  lemma {:induction false} CountAfterInserts(cs: seq<Coupon>, added: seq<Coupon>, eventId: string)
    requires forall i :: 0 <= i < |added| ==> added[i].event == eventId
    ensures CountForEvent(cs + added, eventId) == CountForEvent(cs, eventId) + |added|
  {
    if added == [] {
      assert cs + added == cs;
    } else {
      var all := cs + added;
      assert all[..|all| - 1] == cs + added[..|added| - 1];
      CountAfterInserts(cs, added[..|added| - 1], eventId);
    }
  }

  /** The unique index over two runs of records holds a code when either
      run does. */
  lemma TakenAppend(cs: seq<Coupon>, added: seq<Coupon>, code: string)
    ensures ShortCodeTaken(cs + added, code) <==> ShortCodeTaken(cs, code) || ShortCodeTaken(added, code)
  {
    var all := cs + added;
    if ShortCodeTaken(all, code) {
      var i :| 0 <= i < |all| && all[i].shortCode == code;
      if i >= |cs| {
        assert added[i - |cs|] == all[i];
      }
    }
    if ShortCodeTaken(cs, code) {
      var i :| 0 <= i < |cs| && cs[i].shortCode == code;
      assert all[i] == cs[i];
    }
    if ShortCodeTaken(added, code) {
      var i :| 0 <= i < |added| && added[i].shortCode == code;
      assert all[|cs| + i] == added[i];
    }
  }

  /** The first `k` coupons of a batch never hold a code of a later
      position, so only the records that were there before the batch can
      clash with its next insert. */
  lemma BatchAvoids(n0: nat, eventId: ObjectId, firstId: nat,
                    entropy: nat -> QrCodeGenerator.Bytes32, k: nat, m: nat)
    requires k <= m
    ensures !ShortCodeTaken(Batch(n0, eventId, firstId, entropy, k), BatchCode(n0, m))
  {
    var b := Batch(n0, eventId, firstId, entropy, k);
    forall i | 0 <= i < |b| ensures b[i].shortCode != BatchCode(n0, m) {
      assert b[i].shortCode == BatchCode(n0, i);
      ShortCodeInjective(BatchNumber(n0, i), BatchNumber(n0, m));
    }
  }

  /** After the first `k` inserts the event's count went up by `k`. */
  lemma CountAfterBatch(cs: seq<Coupon>, n0: nat, eventId: ObjectId, firstId: nat,
                        entropy: nat -> QrCodeGenerator.Bytes32, k: nat)
    ensures CountForEvent(cs + Batch(n0, eventId, firstId, entropy, k), eventId) == CountForEvent(cs, eventId) + k
  {
    CountAfterInserts(cs, Batch(n0, eventId, firstId, entropy, k), eventId);
  }

  /** After the first `k` inserts, the code of the next insert is held by
      the index exactly when it was held before the batch. */
  lemma TakenAfterBatch(cs: seq<Coupon>, n0: nat, eventId: ObjectId, firstId: nat,
                        entropy: nat -> QrCodeGenerator.Bytes32, k: nat)
    ensures ShortCodeTaken(cs + Batch(n0, eventId, firstId, entropy, k), BatchCode(n0, k))
        == ShortCodeTaken(cs, BatchCode(n0, k))
  {
    TakenAppend(cs, Batch(n0, eventId, firstId, entropy, k), BatchCode(n0, k));
    BatchAvoids(n0, eventId, firstId, entropy, k, k);
  }

  /** The store after the first `k` inserts of a batch. */
  function AfterInserts(db: Db, n0: nat, eventId: ObjectId, entropy: nat -> QrCodeGenerator.Bytes32, k: nat): Db {
    db.(coupons := db.coupons + Batch(n0, eventId, db.nextCouponId, entropy, k),
        nextCouponId := db.nextCouponId + k)
  }

  /** Insert `k` appends the k-th coupon of the batch and advances the
      id allocator. */
  lemma AfterInsertsNext(db: Db, n0: nat, eventId: ObjectId, entropy: nat -> QrCodeGenerator.Bytes32, k: nat)
    ensures var prev := AfterInserts(db, n0, eventId, entropy, k);
            AfterInserts(db, n0, eventId, entropy, k + 1)
              == prev.(coupons := prev.coupons + [BatchCoupon(n0, eventId, db.nextCouponId, entropy, k)],
                       nextCouponId := prev.nextCouponId + 1)
  {
    var b := Batch(n0, eventId, db.nextCouponId, entropy, k);
    var c := BatchCoupon(n0, eventId, db.nextCouponId, entropy, k);
    BatchNext(n0, eventId, db.nextCouponId, entropy, k);
    assert db.coupons + (b + [c]) == (db.coupons + b) + [c];
  }

  /** An insert whose code the index does not hold lies before the first
      clash and keeps the store invariant. */
  lemma InsertSucceeds(db: Db, n0: nat, eventId: ObjectId, entropy: nat -> QrCodeGenerator.Bytes32, n: nat, k: nat)
    requires Consistent(AfterInserts(db, n0, eventId, entropy, k))
    requires k < n && k <= FirstClash(db.coupons, n0, 0, n)
    requires !ShortCodeTaken(AfterInserts(db, n0, eventId, entropy, k).coupons, BatchCode(n0, k))
    ensures k < FirstClash(db.coupons, n0, 0, n)
    ensures Consistent(AfterInserts(db, n0, eventId, entropy, k + 1))
  {
    var prev := AfterInserts(db, n0, eventId, entropy, k);
    var c := BatchCoupon(n0, eventId, db.nextCouponId, entropy, k);
    TakenAfterBatch(db.coupons, n0, eventId, db.nextCouponId, entropy, k);
    FirstClashBeyond(db.coupons, n0, n, k);
    QrCodeGenerator.LowerHexIsPlain(c.secureHash);
    AppendKeepsConsistent(prev, c);
    AfterInsertsNext(db, n0, eventId, entropy, k);
  }

  /** One pass of the insert loop from the store after `i` inserts: the
      recounted number is the batch's, and a code the index holds is the
      first clash. */
  lemma InsertStep(start: Db, n0: nat, eventId: ObjectId, entropy: nat -> QrCodeGenerator.Bytes32, n: nat, i: nat)
    requires n0 == CountForEvent(start.coupons, eventId)
    requires i < n && i <= FirstClash(start.coupons, n0, 0, n)
    ensures var db := AfterInserts(start, n0, eventId, entropy, i);
            && CountForEvent(db.coupons, eventId) + i + 1 == BatchNumber(n0, i)
            && (ShortCodeTaken(db.coupons, BatchCode(n0, i)) ==> FirstClash(start.coupons, n0, 0, n) == i)
  {
    var db := AfterInserts(start, n0, eventId, entropy, i);
    CountAfterBatch(start.coupons, n0, eventId, start.nextCouponId, entropy, i);
    RecountedCode(CountForEvent(db.coupons, eventId), n0, i);
    TakenAfterBatch(start.coupons, n0, eventId, start.nextCouponId, entropy, i);
    if ShortCodeTaken(db.coupons, BatchCode(n0, i)) {
      FirstClashAt(start.coupons, n0, n, i);
    }
  }

  /** A pass whose code the index does not hold lies before the first
      clash, and inserts the batch's next coupon: a well-formed record
      under the next `_id`. */
  lemma InsertFree(start: Db, n0: nat, eventId: ObjectId, entropy: nat -> QrCodeGenerator.Bytes32, n: nat, i: nat)
    requires i < n && i <= FirstClash(start.coupons, n0, 0, n)
    requires !ShortCodeTaken(AfterInserts(start, n0, eventId, entropy, i).coupons, BatchCode(n0, i))
    ensures var db := AfterInserts(start, n0, eventId, entropy, i);
            var c := CouponModel.New(db.nextCouponId, eventId, BatchCode(n0, i),
                                     QrCodeGenerator.GenerateSecureHash(entropy(i)));
            && i < FirstClash(start.coupons, n0, 0, n)
            && WellFormedCoupon(c, db.nextCouponId + 1)
            && AfterInserts(start, n0, eventId, entropy, i + 1)
                 == db.(coupons := db.coupons + [c], nextCouponId := db.nextCouponId + 1)
            && Batch(n0, eventId, start.nextCouponId, entropy, i + 1)
                 == Batch(n0, eventId, start.nextCouponId, entropy, i) + [c]
  {
    var db := AfterInserts(start, n0, eventId, entropy, i);
    var c := CouponModel.New(db.nextCouponId, eventId, BatchCode(n0, i),
                             QrCodeGenerator.GenerateSecureHash(entropy(i)));
    assert c == BatchCoupon(n0, eventId, start.nextCouponId, entropy, i);
    TakenAfterBatch(start.coupons, n0, eventId, start.nextCouponId, entropy, i);
    FirstClashBeyond(start.coupons, n0, n, i);
    QrCodeGenerator.LowerHexIsPlain(c.secureHash);
    AfterInsertsNext(start, n0, eventId, entropy, i);
    BatchNext(n0, eventId, start.nextCouponId, entropy, i);
  }

  /** The insert loop of `generateCoupons`: before each insert it counts
      the event's coupons again and numbers the new one `count + i + 1`;
      it stops at the first insert the unique index refuses, reporting that
      code, and keeps what it inserted before. */
  method InsertBatch(db: Store, eventId: ObjectId, n: nat, entropy: nat -> QrCodeGenerator.Bytes32)
    returns (generatedCoupons: seq<Coupon>, clash: Option<string>)
    requires db.Valid()
    modifies db
    ensures db.Valid()
    ensures var n0 := CountForEvent(old(db.coupons), eventId);
            var k := FirstClash(old(db.coupons), n0, 0, n);
            && generatedCoupons == Batch(n0, eventId, old(db.nextCouponId), entropy, k)
            && clash == (if k < n then Some(BatchCode(n0, k)) else None)
    ensures db.coupons == old(db.coupons) + generatedCoupons
    ensures db.nextCouponId == old(db.nextCouponId) + |generatedCoupons|
    ensures db.events == old(db.events)
  {
    ghost var start := db.Snapshot();
    ghost var n0 := CountForEvent(start.coupons, eventId);
    ghost var k := FirstClash(start.coupons, n0, 0, n);
    generatedCoupons := [];
    var i := 0;
    while i < n
      invariant 0 <= i <= k
      invariant generatedCoupons == Batch(n0, eventId, start.nextCouponId, entropy, i)
      invariant db.Snapshot() == AfterInserts(start, n0, eventId, entropy, i)
      invariant db.Valid()
    {
      ghost var prev := db.Snapshot();
      var secureHash := QrCodeGenerator.GenerateSecureHash(entropy(i));
      var existingCouponCount := CountForEvent(db.coupons, eventId);
      InsertStep(start, n0, eventId, entropy, n, i);
      assert db.coupons == AfterInserts(start, n0, eventId, entropy, i).coupons;
      var number := existingCouponCount + i + 1;
      assert number == BatchNumber(n0, i);
      var couponIdShort := ShortCode(number);
      if ShortCodeTaken(db.coupons, couponIdShort) {
        return generatedCoupons, Some(couponIdShort);
      }
      InsertFree(start, n0, eventId, entropy, n, i);
      var newCoupon := CouponModel.New(db.nextCouponId, eventId, couponIdShort, secureHash);
      assert newCoupon == CouponModel.New(prev.nextCouponId, eventId, BatchCode(n0, i), secureHash);
      db.Insert(newCoupon);
      generatedCoupons := generatedCoupons + [newCoupon];
      i := i + 1;
    }
    assert i == k;
    assert db.Snapshot() == AfterInserts(start, n0, eventId, entropy, i);
    clash := None;
  }

  /** `generateCoupons` on the store. */
  method GenerateCoupons(db: Store, eventId: string, count: Option<int>, caller: ObjectId,
                         entropy: nat -> QrCodeGenerator.Bytes32)
    returns (reply: Reply<Generated>)
    requires db.Valid()
    modifies db
    ensures db.Valid()
    ensures Step(reply, db.Snapshot()) == GenerateCouponsSpec(old(db.Snapshot()), eventId, count, caller, entropy)
  {
    if count.None? || count.value <= 0 {
      return BadRequest(InvalidCountMessage);
    }
    var guard := OwnedEvent(db.events, eventId, caller, "Event not found.",
                            "Not authorized to generate coupons for this event.");
    if !guard.Success? {
      return guard.Propagate();
    }
    var event := guard.value;
    var generatedCoupons, clash := InsertBatch(db, event.id, count.value, entropy);
    if clash.Some? {
      return Failed(DuplicateShortCode(clash.value));
    }
    reply := Success(Generated(JsText.NumberToString(count.value) + " coupons generated successfully!",
                               IssuedAll(generatedCoupons)));
  }

  // ------------------------------------------------------------ issuance, properties

  /** 400 for a missing or non-positive count before the store is looked
      at, then 404 or 403 from the ownership guard; every rejection leaves
      the store as it was, so no coupon is created. */
  lemma GenerateRejections(db: Db, eventId: string, count: Option<int>, caller: ObjectId,
                           entropy: nat -> QrCodeGenerator.Bytes32)
    ensures var s := GenerateCouponsSpec(db, eventId, count, caller, entropy);
      var countOk := count.Some? && count.value > 0;
      && (!countOk ==> s.reply == BadRequest(InvalidCountMessage))
      && (s.reply.Rejected() ==> s.db == db)
      && (s.reply.NotFound? <==> countOk && !(IsObjectId(eventId) && eventId in db.events))
      && (s.reply.Forbidden? <==> countOk && IsObjectId(eventId) && eventId in db.events
                                   && db.events[eventId].organizer != caller)
  {
  }

  /** Every prefix of a batch up to its first clash keeps the store
      invariant. */
  lemma {:induction false} AfterInsertsConsistent(db: Db, n0: nat, eventId: ObjectId,
                                                  entropy: nat -> QrCodeGenerator.Bytes32, n: nat, k: nat)
    requires Consistent(db)
    requires k <= n && k <= FirstClash(db.coupons, n0, 0, n)
    ensures Consistent(AfterInserts(db, n0, eventId, entropy, k))
  {
    if k == 0 {
      assert db.coupons + Batch(n0, eventId, db.nextCouponId, entropy, 0) == db.coupons;
      assert AfterInserts(db, n0, eventId, entropy, 0) == db;
    } else {
      AfterInsertsConsistent(db, n0, eventId, entropy, n, k - 1);
      assert !ShortCodeTaken(db.coupons, BatchCode(n0, k - 1));
      TakenAfterBatch(db.coupons, n0, eventId, db.nextCouponId, entropy, k - 1);
      assert !ShortCodeTaken(AfterInserts(db, n0, eventId, entropy, k - 1).coupons, BatchCode(n0, k - 1));
      InsertSucceeds(db, n0, eventId, entropy, n, k - 1);
    }
  }

  /** `generateCoupons` keeps the store invariant, whether its batch
      completes or stops at a clash. */
  lemma GenerateKeepsConsistent(db: Db, eventId: string, count: Option<int>, caller: ObjectId,
                                entropy: nat -> QrCodeGenerator.Bytes32)
    requires Consistent(db)
    ensures Consistent(GenerateCouponsSpec(db, eventId, count, caller, entropy).db)
  {
    if count.Some? && count.value > 0 {
      var guard := OwnedEvent(db.events, eventId, caller, "Event not found.",
                              "Not authorized to generate coupons for this event.");
      if guard.Success? {
        var n0 := CountForEvent(db.coupons, eventId);
        AfterInsertsConsistent(db, n0, guard.value.id, entropy, count.value,
                               FirstClash(db.coupons, n0, 0, count.value));
      }
    }
  }

  /** Past both guards, the handler's answer and store in terms of the
      batch: the store after the inserts up to the first clash, and the
      clash or the full listing. */
  lemma GeneratePastGuards(db: Db, eventId: ObjectId, n: nat, caller: ObjectId,
                           entropy: nat -> QrCodeGenerator.Bytes32)
    requires EventsConsistent(db.events)
    requires n > 0 && eventId in db.events && db.events[eventId].organizer == caller
    ensures var n0 := CountForEvent(db.coupons, eventId);
      var k := FirstClash(db.coupons, n0, 0, n);
      var s := GenerateCouponsSpec(db, eventId, Some(n), caller, entropy);
      && s.db == AfterInserts(db, n0, eventId, entropy, k)
      && s.reply == if k < n then Failed(DuplicateShortCode(BatchCode(n0, k)))
                    else Success(Generated(JsText.NumberToString(n) + " coupons generated successfully!",
                                           IssuedAll(Batch(n0, eventId, db.nextCouponId, entropy, k))))
  {
    assert db.events[eventId].id == eventId;
  }

  /** The fields of the i-th coupon of a batch. */
  lemma BatchFields(n0: nat, eventId: ObjectId, firstId: nat,
                    entropy: nat -> QrCodeGenerator.Bytes32, k: nat, i: nat)
    requires i < k
    ensures var c := Batch(n0, eventId, firstId, entropy, k)[i];
      && c.id == firstId + i && c.event == eventId && c.shortCode == BatchCode(n0, i)
      && !c.isRedeemed && c.redeemedAt.None? && c.redeemedBy.None?
      && QrCodeGenerator.IsSecureHash(c.secureHash)
  {
  }

  /** The stored coupons a batch added: what follows the coupons that were
      there before. */
  function Added(before: Db, after: Db): seq<Coupon>
    requires |before.coupons| <= |after.coupons|
  {
    after.coupons[|before.coupons|..]
  }

  /** A completed batch: exactly `count` new coupons, appended in creation
      order after the ones already stored; each belongs to the event, is
      unredeemed, carries a generated secret and has the short code of
      number n0 + 2i + 1; the response lists them in the same order, each
      with its QR payload. */
  lemma GenerateSucceeded(db: Db, eventId: string, count: Option<int>, caller: ObjectId,
                          entropy: nat -> QrCodeGenerator.Bytes32)
    requires EventsConsistent(db.events)
    requires GenerateCouponsSpec(db, eventId, count, caller, entropy).reply.Success?
    ensures var s := GenerateCouponsSpec(db, eventId, count, caller, entropy);
      && count.Some? && db.coupons <= s.db.coupons && s.db.events == db.events
      && eventId in db.events && db.events[eventId].organizer == caller
      && var added := Added(db, s.db);
      && s.db.coupons == db.coupons + added
      && |added| == count.value
      && s.reply.value.message == JsText.NumberToString(count.value) + " coupons generated successfully!"
      && |s.reply.value.coupons| == count.value
      && forall i :: 0 <= i < |added| ==>
           && added[i].event == eventId && !added[i].isRedeemed
           && added[i].shortCode == BatchCode(CountForEvent(db.coupons, eventId), i)
           && QrCodeGenerator.IsSecureHash(added[i].secureHash)
           && s.reply.value.coupons[i].couponIdShort == added[i].shortCode
           && !s.reply.value.coupons[i].isRedeemed
           && s.reply.value.coupons[i].qrData
              == QrCodeGenerator.CreateQrCodeData(eventId, added[i].shortCode, added[i].secureHash)
  {
    var n := count.value;
    var n0 := CountForEvent(db.coupons, eventId);
    GeneratePastGuards(db, eventId, n, caller, entropy);
    var s := GenerateCouponsSpec(db, eventId, count, caller, entropy);
    var made := Batch(n0, eventId, db.nextCouponId, entropy, n);
    assert s.db.coupons == db.coupons + made;
    assert Added(db, s.db) == made;
    forall i | 0 <= i < n
      ensures s.reply.value.coupons[i] == Issued(made[i])
    {
    }
    forall i | 0 <= i < n
      ensures && made[i].event == eventId && !made[i].isRedeemed
              && made[i].shortCode == BatchCode(n0, i)
              && QrCodeGenerator.IsSecureHash(made[i].secureHash)
    {
      BatchFields(n0, eventId, db.nextCouponId, entropy, n, i);
    }
  }

  /** Codes within one batch are distinct and increase with the position:
      the number read back from the code grows by two per insert. */
  lemma BatchCodesIncrease(n0: nat, i: nat, j: nat)
    requires i < j
    ensures JsText.DecimalValue(BatchCode(n0, i)[1..]) + 2 * (j - i) == JsText.DecimalValue(BatchCode(n0, j)[1..])
    ensures BatchCode(n0, i) != BatchCode(n0, j)
  {
    ShortCodeNumber(BatchNumber(n0, i));
    ShortCodeNumber(BatchNumber(n0, j));
  }

  /** A batch that stops at a clash keeps the coupons it inserted before
      the failing insert (there is no rollback), and the code that failed
      was already held before the call: a batch never clashes with its
      own coupons. */
  lemma GenerateFailedKeepsEarlierInserts(db: Db, eventId: string, count: Option<int>, caller: ObjectId,
                                          entropy: nat -> QrCodeGenerator.Bytes32)
    requires EventsConsistent(db.events)
    requires GenerateCouponsSpec(db, eventId, count, caller, entropy).reply.Failed?
    ensures var s := GenerateCouponsSpec(db, eventId, count, caller, entropy);
      && count.Some? && db.coupons <= s.db.coupons && s.db.events == db.events
      && var added := Added(db, s.db);
      && s.db.coupons == db.coupons + added
      && |added| < count.value
      && s.reply.error.DuplicateShortCode?
      && s.reply.error.code == BatchCode(CountForEvent(db.coupons, eventId), |added|)
      && ShortCodeTaken(db.coupons, s.reply.error.code)
      && forall i :: 0 <= i < |added| ==> added[i].event == eventId && !added[i].isRedeemed
  {
    var n := count.value;
    var n0 := CountForEvent(db.coupons, eventId);
    var k := FirstClash(db.coupons, n0, 0, n);
    GeneratePastGuards(db, eventId, n, caller, entropy);
    var s := GenerateCouponsSpec(db, eventId, count, caller, entropy);
    var made := Batch(n0, eventId, db.nextCouponId, entropy, k);
    assert s.db.coupons == db.coupons + made;
    assert Added(db, s.db) == made;
    forall i | 0 <= i < k
      ensures made[i].event == eventId && !made[i].isRedeemed
    {
      BatchFields(n0, eventId, db.nextCouponId, entropy, k, i);
    }
  }

  /** A batch whose first code is already held fails on its first insert
      and creates nothing. */
  lemma FirstInsertClashes(db: Db, eventId: ObjectId, caller: ObjectId,
                           entropy: nat -> QrCodeGenerator.Bytes32, m: nat, n0: nat)
    requires EventsConsistent(db.events) && m >= 1
    requires eventId in db.events && db.events[eventId].organizer == caller
    requires CountForEvent(db.coupons, eventId) == n0
    requires ShortCodeTaken(db.coupons, BatchCode(n0, 0))
    ensures GenerateCouponsSpec(db, eventId, Some(m), caller, entropy)
         == Step(Failed(DuplicateShortCode(BatchCode(n0, 0))), db)
  {
    GeneratePastGuards(db, eventId, m, caller, entropy);
    FirstClashAt(db.coupons, n0, m, 0);
    assert db.coupons + Batch(n0, eventId, db.nextCouponId, entropy, 0) == db.coupons;
    assert AfterInserts(db, n0, eventId, entropy, 0) == db;
  }

  /** The unique index spans all events while the numbering counts only
      the event's own coupons: the first coupon for an event without
      coupons is C001, so once another event holds C001 the batch fails on
      its first insert and creates nothing. */
  lemma SecondEventCollides(db: Db, eventId: ObjectId, caller: ObjectId,
                            entropy: nat -> QrCodeGenerator.Bytes32, m: nat)
    requires EventsConsistent(db.events) && m >= 1
    requires eventId in db.events && db.events[eventId].organizer == caller
    requires CountForEvent(db.coupons, eventId) == 0
    requires ShortCodeTaken(db.coupons, "C001")
    ensures GenerateCouponsSpec(db, eventId, Some(m), caller, entropy)
         == Step(Failed(DuplicateShortCode("C001")), db)
  {
    BatchCodeExamples(0);
    FirstInsertClashes(db, eventId, caller, entropy, m, 0);
  }

  /** A first batch of two for an event without coupons leaves the event
      owning two coupons, one of them C003. */
  lemma FirstBatchOfTwo(db: Db, eventId: ObjectId, caller: ObjectId,
                        entropy: nat -> QrCodeGenerator.Bytes32)
    requires EventsConsistent(db.events)
    requires CountForEvent(db.coupons, eventId) == 0
    requires GenerateCouponsSpec(db, eventId, Some(2), caller, entropy).reply.Success?
    ensures var db1 := GenerateCouponsSpec(db, eventId, Some(2), caller, entropy).db;
      && db1.events == db.events && eventId in db.events && db.events[eventId].organizer == caller
      && CountForEvent(db1.coupons, eventId) == 2
      && ShortCodeTaken(db1.coupons, "C003")
  {
    var db1 := GenerateCouponsSpec(db, eventId, Some(2), caller, entropy).db;
    GenerateSucceeded(db, eventId, Some(2), caller, entropy);
    BatchCodeExamples(0);
    TwoAppended(db.coupons, Added(db, db1), eventId);
  }

  /** Appending two coupons of an event, the second with code C003, adds
      two to the event's count and puts C003 in the index. */
  lemma TwoAppended(cs: seq<Coupon>, added: seq<Coupon>, eventId: ObjectId)
    requires |added| == 2 && added[0].event == eventId && added[1].event == eventId
    requires added[1].shortCode == "C003"
    ensures CountForEvent(cs + added, eventId) == CountForEvent(cs, eventId) + 2
    ensures ShortCodeTaken(cs + added, "C003")
  {
    CountAfterInserts(cs, added, eventId);
    assert (cs + added)[|cs| + 1] == added[1];
  }

  /** As written, the recount makes a second batch restart inside the
      first one: a batch of two for an event without coupons issues C001
      and C003, and the next batch for that event numbers its first coupon
      2 + 0 + 1 = 3 and fails on C003 without inserting anything. */
  lemma SecondBatchCollides(db: Db, eventId: ObjectId, caller: ObjectId,
                            first: nat -> QrCodeGenerator.Bytes32,
                            second: nat -> QrCodeGenerator.Bytes32, m: nat)
    requires EventsConsistent(db.events) && m >= 1
    requires CountForEvent(db.coupons, eventId) == 0
    requires GenerateCouponsSpec(db, eventId, Some(2), caller, first).reply.Success?
    ensures var db1 := GenerateCouponsSpec(db, eventId, Some(2), caller, first).db;
      GenerateCouponsSpec(db1, eventId, Some(m), caller, second)
        == Step(Failed(DuplicateShortCode("C003")), db1)
  {
    var db1 := GenerateCouponsSpec(db, eventId, Some(2), caller, first).db;
    FirstBatchOfTwo(db, eventId, caller, first);
    BatchCodeExamples(2);
    FirstInsertClashes(db1, eventId, caller, second, m, 2);
  }

  // ------------------------------------------------------------ creating events

  const MissingEventFieldsMessage: string := "Please include all required event fields: name, date, venue"

  /** `createEvent`: the truthiness test on the three required fields, then
      `Event.create`, whose validation runs on the trimmed strings (so a
      name or venue of whitespace alone passes the first test and is still
      refused), and whose insert needs an `_id` not already in use. */
  function CreateEventSpec(db: Db, name: Option<string>, date: Option<int>, venue: Option<string>,
                           description: Option<string>, caller: ObjectId, freshId: ObjectId): (s: Step<Event>)
  {
    if !JsText.Truthy(name) || date.None? || !JsText.Truthy(venue) then
      Step(BadRequest(MissingEventFieldsMessage), db)
    else match EventModel.Build(freshId, name.value, date.value, venue.value, description, caller)
      case None => Step(Failed(ValidationError), db)
      case Some(e) =>
        if freshId in db.events then Step(Failed(DuplicateKey), db)
        else Step(Success(e), db.(events := db.events[freshId := e]))
  }

  /** What creation answers and stores: it succeeds exactly when the three
      fields are given, the trimmed name and venue are not empty and the id
      is unused; then the new event, owned by the caller, with the trimmed
      strings, the default status and the default description when none
      was sent, is added and nothing else changes; otherwise nothing
      changes at all. */
  lemma CreatedEvent(db: Db, name: Option<string>, date: Option<int>, venue: Option<string>,
                     description: Option<string>, caller: ObjectId, freshId: ObjectId)
    ensures var s := CreateEventSpec(db, name, date, venue, description, caller, freshId);
      var given := JsText.Truthy(name) && date.Some? && JsText.Truthy(venue);
      && (s.reply.BadRequest? <==> !given)
      && (s.reply.Success? <==> given && !JsText.AllWhitespace(name.value)
                                && !JsText.AllWhitespace(venue.value) && freshId !in db.events)
      && ((given && (JsText.AllWhitespace(name.value) || JsText.AllWhitespace(venue.value)))
            ==> s.reply == Failed(ValidationError))
      && (!s.reply.Success? ==> s.db == db)
      && (s.reply.Success? ==>
            var e := s.reply.value;
            && s.db == db.(events := db.events[freshId := e])
            && e.id == freshId && e.organizer == caller && e.status == Active && e.date == date.value
            && e.name == JsText.Trim(name.value) && e.venue == JsText.Trim(venue.value)
            && e.description == (if description.Some? then description.value else DefaultDescription))
  {
  }

  /** Creating an event keeps the store invariant. */
  lemma CreateKeepsConsistent(db: Db, name: Option<string>, date: Option<int>, venue: Option<string>,
                              description: Option<string>, caller: ObjectId, freshId: ObjectId)
    requires Consistent(db)
    ensures Consistent(CreateEventSpec(db, name, date, venue, description, caller, freshId).db)
  {
    var s := CreateEventSpec(db, name, date, venue, description, caller, freshId);
    if s.reply.Success? {
      AddEventKeepsConsistent(db, s.reply.value);
    }
  }

  /** Adding a valid event under its own, unused id keeps the store
      invariant. */
  lemma AddEventKeepsConsistent(db: Db, e: Event)
    requires Consistent(db) && EventModel.Valid(e) && e.id !in db.events
    ensures Consistent(db.(events := db.events[e.id := e]))
  {
    var events := db.events[e.id := e];
    forall id | id in events ensures events[id].id == id && EventModel.Valid(events[id]) {
      if id != e.id {
        assert events[id] == db.events[id];
      }
    }
  }

  /** `createEvent` on the store. */
  method CreateEvent(db: Store, name: Option<string>, date: Option<int>, venue: Option<string>,
                     description: Option<string>, caller: ObjectId, freshId: ObjectId)
    returns (reply: Reply<Event>)
    requires db.Valid()
    modifies db
    ensures db.Valid()
    ensures Step(reply, db.Snapshot())
         == CreateEventSpec(old(db.Snapshot()), name, date, venue, description, caller, freshId)
  {
    if !JsText.Truthy(name) || date.None? || !JsText.Truthy(venue) {
      return BadRequest(MissingEventFieldsMessage);
    }
    var built := EventModel.Build(freshId, name.value, date.value, venue.value, description, caller);
    if built.None? {
      return Failed(ValidationError);
    }
    if freshId in db.events {
      return Failed(DuplicateKey);
    }
    ghost var before := db.Snapshot();
    CreateKeepsConsistent(before, name, date, venue, description, caller, freshId);
    ghost var s := CreateEventSpec(before, name, date, venue, description, caller, freshId);
    assert s == Step(Success(built.value), before.(events := before.events[freshId := built.value]));
    db.events := db.events[freshId := built.value];
    reply := Success(built.value);
    assert db.Snapshot() == s.db;
  }

  // ------------------------------------------------------------ updating events

  /** `updateEvent`'s guard: 404, 403, or the event the update goes ahead
      on. (What the update then writes is not part of this model.) */
  function UpdateEventGuard(db: Db, id: string, caller: ObjectId): (r: Reply<Event>)
    ensures r.Success? ==> IsObjectId(id) && id in db.events && r.value == db.events[id]
    ensures r.Success? <==> IsObjectId(id) && id in db.events && db.events[id].organizer == caller
  {
    OwnedEvent(db.events, id, caller, "Event not found", "Not authorized to update this event")
  }

  // ------------------------------------------------------------ deleting events

  const DeletedMessage: string := "Event and associated coupons removed"

  /** `deleteEvent`: the ownership guard, then `Coupon.deleteMany` on the
      event's coupons and `Event.deleteOne` on the event. */
  function DeleteEventSpec(db: Db, id: string, caller: ObjectId): (s: Step<string>)
  {
    var guard := OwnedEvent(db.events, id, caller, "Event not found", "Not authorized to delete this event");
    if !guard.Success? then Step(guard.Propagate(), db)
    else Step(Success(DeletedMessage),
              db.(coupons := Keep(db.coupons, id, false), events := db.events - {id}))
  }

  /** A delete by anyone but the organizer, or of an unknown event, changes
      nothing; the organizer's delete removes exactly the event and the
      coupons that belong to it, keeps every other event and coupon as it
      was, in the same order, and leaves the id allocator alone. */
  lemma DeleteRemovesExactly(db: Db, id: string, caller: ObjectId)
    ensures var s := DeleteEventSpec(db, id, caller);
      && (s.reply.Success? <==> IsObjectId(id) && id in db.events && db.events[id].organizer == caller)
      && (!s.reply.Success? ==> s.db == db)
      && (s.reply.Success? ==>
            && s.reply.value == DeletedMessage
            && s.db.events.Keys == db.events.Keys - {id}
            && (forall other :: other in s.db.events ==> s.db.events[other] == db.events[other])
            && (forall c :: c in s.db.coupons <==> c in db.coupons && c.event != id)
            && s.db.coupons == Keep(db.coupons, id, false)
            && s.db.nextCouponId == db.nextCouponId)
  {
  }

  /** Deleting an event keeps the store invariant. */
  lemma DeleteKeepsConsistent(db: Db, id: string, caller: ObjectId)
    requires Consistent(db)
    ensures Consistent(DeleteEventSpec(db, id, caller).db)
  {
    KeepConsistent(db.coupons, id, false, db.nextCouponId);
  }

  /** `deleteEvent` on the store. */
  method DeleteEvent(db: Store, id: string, caller: ObjectId) returns (reply: Reply<string>)
    requires db.Valid()
    modifies db
    ensures db.Valid()
    ensures Step(reply, db.Snapshot()) == DeleteEventSpec(old(db.Snapshot()), id, caller)
  {
    var guard := OwnedEvent(db.events, id, caller, "Event not found", "Not authorized to delete this event");
    if !guard.Success? {
      return guard.Propagate();
    }
    DeleteKeepsConsistent(db.Snapshot(), id, caller);
    db.coupons := Keep(db.coupons, id, false);
    db.events := db.events - {id};
    reply := Success(DeletedMessage);
  }

  // ------------------------------------------------------------ listings

  /** The `sort({ coupon_id_short: 1 })` order. */
  predicate ShortCodeLe(a: Coupon, b: Coupon) {
    Sorting.TextLe(a.shortCode, b.shortCode)
  }

  lemma ShortCodeOrder()
    ensures Sorting.TotalPreorder(ShortCodeLe)
  {
    forall a: Coupon, b: Coupon ensures ShortCodeLe(a, b) || ShortCodeLe(b, a) {
      Sorting.TextLeTotal(a.shortCode, b.shortCode);
    }
    forall a: Coupon, b: Coupon, c: Coupon | ShortCodeLe(a, b) && ShortCodeLe(b, c)
      ensures ShortCodeLe(a, c)
    {
      Sorting.TextLeTransitive(a.shortCode, b.shortCode, c.shortCode);
    }
  }

  /** The order is textual, not numeric: a code of four digits sorts
      before a code of three. */
  lemma ShortCodeOrderIsTextual()
    ensures Sorting.TextLe(ShortCode(1000), ShortCode(999))
    ensures !Sorting.TextLe(ShortCode(999), ShortCode(1000))
  {
    ShortCodeWideExamples();
    assert Sorting.TextLe("C1000", "C999") by {
      assert "C1000"[1..] == "1000" && "C999"[1..] == "999";
    }
    assert !Sorting.TextLe("C999", "C1000") by {
      assert "C1000"[1..] == "1000" && "C999"[1..] == "999";
    }
  }

  /** `getCouponsForEvent`: the ownership guard, then the event's coupons
      sorted by short code. */
  function GetCouponsForEvent(db: Db, eventId: string, caller: ObjectId): (r: Reply<seq<Coupon>>)
    ensures r.Success? <==> IsObjectId(eventId) && eventId in db.events && db.events[eventId].organizer == caller
    ensures r.Success? ==> Sorting.SortedBy(r.value, ShortCodeLe)
    ensures r.Success? ==> multiset(r.value) == multiset(Keep(db.coupons, eventId, true))
    ensures r.Success? ==> forall c :: c in r.value <==> c in db.coupons && c.event == eventId
  {
    var guard := OwnedEvent(db.events, eventId, caller, "Event not found.",
                            "Not authorized to view coupons for this event.");
    if !guard.Success? then guard.Propagate()
    else
      var found := Keep(db.coupons, eventId, true);
      ShortCodeOrder();
      Sorting.SortBySorted(found, ShortCodeLe);
      var sorted := Sorting.SortBy(found, ShortCodeLe);
      assert forall c :: c in sorted <==> c in multiset(found);
      Success(sorted)
  }

  /** The `sort({ date: 1 })` order. */
  predicate DateLe(a: Event, b: Event) {
    a.date <= b.date
  }

  lemma DateOrder()
    ensures Sorting.TotalPreorder(DateLe)
  {
  }

  /** An event a listing shows: one of the caller's, dated `from` or later
      when a lower bound is given. */
  predicate Listed(e: Event, caller: ObjectId, from: Option<int>) {
    e.organizer == caller && (from.None? || e.date >= from.value)
  }

  /** The ids of the events a listing shows. */
  function ListedIds(events: map<ObjectId, Event>, caller: ObjectId, from: Option<int>): (ids: set<ObjectId>)
    ensures forall id :: id in ids <==> id in events && Listed(events[id], caller, from)
  {
    set id | id in events && Listed(events[id], caller, from)
  }

  /** The events stored under the given ids, in the same order. */
  function EventsAt(events: map<ObjectId, Event>, ids: seq<ObjectId>): (found: seq<Event>)
    requires forall i :: 0 <= i < |ids| ==> ids[i] in events
    ensures |found| == |ids|
    ensures forall i :: 0 <= i < |ids| ==> found[i] == events[ids[i]]
  {
    seq(|ids|, i requires 0 <= i < |ids| => events[ids[i]])
  }

  /** Looking up an enumeration of the listed ids finds exactly the listed
      events. */
  lemma FoundAreListed(events: map<ObjectId, Event>, caller: ObjectId, from: Option<int>, ids: seq<ObjectId>)
    requires forall id :: id in ids <==> id in ListedIds(events, caller, from)
    ensures forall i :: 0 <= i < |ids| ==> ids[i] in events
    ensures forall e :: e in EventsAt(events, ids) ==> e in events.Values && Listed(e, caller, from)
    ensures forall id :: id in ListedIds(events, caller, from) ==> events[id] in EventsAt(events, ids)
  {
    var wanted := ListedIds(events, caller, from);
    assert forall i :: 0 <= i < |ids| ==> ids[i] in wanted;
    var found := EventsAt(events, ids);
    forall e | e in found ensures e in events.Values && Listed(e, caller, from) {
      var i :| 0 <= i < |found| && found[i] == e;
      assert ids[i] in wanted;
    }
    forall id | id in wanted ensures events[id] in found {
      var i :| 0 <= i < |ids| && ids[i] == id;
      assert found[i] == events[id];
    }
  }

  /** `Event.find(filter).sort({ date: 1 })`: each matching event once,
      ordered by date; events with equal dates come in an order the query
      leaves open. */
  ghost function ListEvents(events: map<ObjectId, Event>, caller: ObjectId, from: Option<int>): (r: seq<Event>)
    ensures Sorting.SortedBy(r, DateLe)
    ensures |r| == |ListedIds(events, caller, from)|
    ensures forall e :: e in r ==> e in events.Values && Listed(e, caller, from)
    ensures forall id :: id in events && Listed(events[id], caller, from) ==> events[id] in r
  {
    var ids := Enumerate(ListedIds(events, caller, from));
    FoundAreListed(events, caller, from, ids);
    var found := EventsAt(events, ids);
    DateOrder();
    Sorting.SortBySorted(found, DateLe);
    Sorting.SameMembers(Sorting.SortBy(found, DateLe), found);
    Sorting.SortBy(found, DateLe)
  }

  /** `getEvents`: the caller's events by date. */
  ghost function GetEvents(db: Db, caller: ObjectId): (r: seq<Event>)
    ensures Sorting.SortedBy(r, DateLe)
    ensures |r| == |EventIdsOf(db.events, caller)|
    ensures forall e :: e in r ==> e in db.events.Values && e.organizer == caller
    ensures forall id :: id in db.events && db.events[id].organizer == caller ==> db.events[id] in r
  {
    assert ListedIds(db.events, caller, None) == EventIdsOf(db.events, caller);
    ListEvents(db.events, caller, None)
  }

  /** `getUpcomingEvents`: the caller's events dated now or later, by date. */
  ghost function GetUpcomingEvents(db: Db, caller: ObjectId, now: int): (r: seq<Event>)
    ensures Sorting.SortedBy(r, DateLe)
    ensures |r| == |ListedIds(db.events, caller, Some(now))|
    ensures forall e :: e in r ==> e in db.events.Values && e.organizer == caller && e.date >= now
    ensures forall id :: id in db.events && db.events[id].organizer == caller && db.events[id].date >= now
              ==> db.events[id] in r
  {
    ListEvents(db.events, caller, Some(now))
  }

  // ------------------------------------------------------------ dashboard

  datatype DashboardStats = DashboardStats(
    totalEvents: nat,
    activeEvents: nat,
    totalCouponsGenerated: nat,
    totalCouponsRedeemed: nat)

  /** `Coupon.countDocuments({ event: { $in: ids } })`, or with
      `is_redeemed: true` added. */
  function CountOfEvents(cs: seq<Coupon>, ids: set<ObjectId>, redeemedOnly: bool): (n: nat)
    ensures n <= |cs|
  {
    if cs == [] then 0
    else
      var last := cs[|cs| - 1];
      CountOfEvents(cs[..|cs| - 1], ids, redeemedOnly)
        + (if last.event in ids && (!redeemedOnly || last.isRedeemed) then 1 else 0)
  }

  /** The positions of the coupons such a count takes in. */
  function CountedCoupons(cs: seq<Coupon>, ids: set<ObjectId>, redeemedOnly: bool): set<nat> {
    set i: nat | i < |cs| && cs[i].event in ids && (!redeemedOnly || cs[i].isRedeemed)
  }

  /** The count is the number of coupons that match the filter. */
  lemma {:induction false} CountOfEventsSize(cs: seq<Coupon>, ids: set<ObjectId>, redeemedOnly: bool)
    ensures CountOfEvents(cs, ids, redeemedOnly) == |CountedCoupons(cs, ids, redeemedOnly)|
  {
    if cs != [] {
      var init := cs[..|cs| - 1];
      var last := cs[|cs| - 1];
      CountOfEventsSize(init, ids, redeemedOnly);
      var a := CountedCoupons(init, ids, redeemedOnly);
      var b := CountedCoupons(cs, ids, redeemedOnly);
      if last.event in ids && (!redeemedOnly || last.isRedeemed) {
        assert b == a + {|cs| - 1};
      } else {
        assert b == a;
      }
    }
  }

  /** `countDocuments({event})` is the number of positions that hold a
      coupon of the event, the same count the dashboard takes for a one-event
      set. */
  lemma CountForEventSize(cs: seq<Coupon>, eventId: ObjectId)
    ensures CountForEvent(cs, eventId) == |CountedCoupons(cs, {eventId}, false)|
  {
    CountForEventIsCountOf(cs, eventId);
    CountOfEventsSize(cs, {eventId}, false);
  }

  lemma {:induction false} CountForEventIsCountOf(cs: seq<Coupon>, eventId: ObjectId)
    ensures CountForEvent(cs, eventId) == CountOfEvents(cs, {eventId}, false)
  {
    if cs != [] {
      CountForEventIsCountOf(cs[..|cs| - 1], eventId);
    }
  }

  /** Redeemed coupons are among the generated ones. */
  lemma RedeemedAmongGenerated(cs: seq<Coupon>, ids: set<ObjectId>)
    ensures CountOfEvents(cs, ids, true) <= CountOfEvents(cs, ids, false)
  {
    CountOfEventsSize(cs, ids, true);
    CountOfEventsSize(cs, ids, false);
    SubsetSize(CountedCoupons(cs, ids, true), CountedCoupons(cs, ids, false));
  }

  lemma SubsetSize<T>(a: set<T>, b: set<T>)
    requires a <= b
    ensures |a| <= |b|
  {
    assert b == a + (b - a);
  }

  /** The caller's events with status Active. */
  function ActiveEventIds(events: map<ObjectId, Event>, caller: ObjectId): set<ObjectId> {
    set id | id in events && events[id].organizer == caller && events[id].status == Active
  }

  /** `getDashboardStats`: the number of the caller's events, of those that
      are Active, and of the coupons of the caller's events, all and
      redeemed. */
  function GetDashboardStats(db: Db, caller: ObjectId): (s: DashboardStats)
    ensures s.totalEvents == |EventIdsOf(db.events, caller)|
    ensures s.activeEvents == |ActiveEventIds(db.events, caller)|
    ensures s.totalCouponsGenerated == |CountedCoupons(db.coupons, EventIdsOf(db.events, caller), false)|
    ensures s.totalCouponsRedeemed == |CountedCoupons(db.coupons, EventIdsOf(db.events, caller), true)|
    ensures s.activeEvents <= s.totalEvents
    ensures s.totalCouponsRedeemed <= s.totalCouponsGenerated <= |db.coupons|
  {
    var owned := EventIdsOf(db.events, caller);
    var active := set id | id in owned && db.events[id].status == Active;
    assert active == ActiveEventIds(db.events, caller);
    SubsetSize(active, owned);
    CountOfEventsSize(db.coupons, owned, false);
    CountOfEventsSize(db.coupons, owned, true);
    RedeemedAmongGenerated(db.coupons, owned);
    DashboardStats(|owned|, |active|, CountOfEvents(db.coupons, owned, false),
                   CountOfEvents(db.coupons, owned, true))
  }

  /** Only the caller's events count: a coupon of anyone else's event, or
      of no stored event, changes none of the caller's figures. */
  lemma DashboardIgnoresOthers(db: Db, caller: ObjectId, c: Coupon)
    requires !(c.event in db.events && db.events[c.event].organizer == caller)
    ensures GetDashboardStats(db.(coupons := db.coupons + [c]), caller) == GetDashboardStats(db, caller)
  {
    var cs := db.coupons + [c];
    assert cs[..|cs| - 1] == db.coupons;
  }
}
