/** The two MongoDB collections the controllers work on, as one in-memory
    store: events keyed by `_id`, coupons in insertion (natural) order, and
    the allocator of coupon `_id`s. The queries the controllers issue
    (`findOne`, `countDocuments`, `deleteMany`, `find`) are functions over
    these values. */
module Store {

  import opened Wrappers
  import opened Hex
  import opened EventModel
  import opened CouponModel
  import QrCodeGenerator

  /** A snapshot of the store's contents. */
  datatype Db = Db(events: map<ObjectId, Event>, coupons: seq<Coupon>, nextCouponId: nat)

  /** What every stored coupon satisfies: the schema's required fields, the
      redemption fields in step, an `_id` below the allocator, a short code
      the QR codec can carry and a secret of the generated shape. */
  predicate WellFormedCoupon(c: Coupon, nextCouponId: nat) {
    && HasRequired(c) && RedemptionConsistent(c) && c.id < nextCouponId
    && QrCodeGenerator.IsPlainText(c.shortCode) && QrCodeGenerator.IsSecureHash(c.secureHash)
  }

  predicate UniqueIds(cs: seq<Coupon>) {
    forall i, j :: 0 <= i < j < |cs| ==> cs[i].id != cs[j].id
  }

  /** Each event is stored under its own id and satisfies its schema. */
  predicate EventsConsistent(events: map<ObjectId, Event>) {
    forall id :: id in events ==> events[id].id == id && EventModel.Valid(events[id])
  }

  /** The store invariant: the events are consistent; each coupon is well
      formed; the unique index on short codes holds; coupon ids are
      distinct. */
  predicate Consistent(db: Db) {
    && EventsConsistent(db.events)
    && (forall i :: 0 <= i < |db.coupons| ==> WellFormedCoupon(db.coupons[i], db.nextCouponId))
    && UniqueShortCodes(db.coupons)
    && UniqueIds(db.coupons)
  }

  predicate Matches(c: Coupon, eventId: string, code: string) {
    c.event == eventId && c.shortCode == code
  }

  /** `Coupon.findOne({event, coupon_id_short})`: the position of the first
      coupon in natural order with that event and that short code. */
  function FindCoupon(cs: seq<Coupon>, eventId: string, code: string): (r: Option<nat>)
    ensures r.Some? ==> r.value < |cs| && Matches(cs[r.value], eventId, code)
    ensures r.Some? ==> forall j :: 0 <= j < r.value ==> !Matches(cs[j], eventId, code)
    ensures r.None? ==> forall j :: 0 <= j < |cs| ==> !Matches(cs[j], eventId, code)
  {
    if cs == [] then None
    else if Matches(cs[0], eventId, code) then Some(0)
    else match FindCoupon(cs[1..], eventId, code)
      case None => None
      case Some(k) => Some(k + 1)
  }

  /** The lookup depends only on the event and short code of each record,
      so a store whose records keep those fields answers the same. */
  lemma {:induction false} FindCouponSameKeys(cs: seq<Coupon>, ds: seq<Coupon>, eventId: string, code: string)
    requires |cs| == |ds|
    requires forall i :: 0 <= i < |cs| ==> cs[i].event == ds[i].event && cs[i].shortCode == ds[i].shortCode
    ensures FindCoupon(cs, eventId, code) == FindCoupon(ds, eventId, code)
  {
    if cs != [] {
      FindCouponSameKeys(cs[1..], ds[1..], eventId, code);
    }
  }

  /** Under the unique index a match is the only one. */
  lemma FindCouponUnique(cs: seq<Coupon>, eventId: string, code: string, i: nat)
    requires UniqueShortCodes(cs)
    requires i < |cs| && Matches(cs[i], eventId, code)
    ensures FindCoupon(cs, eventId, code) == Some(i)
  {
  }

  /** `Coupon.countDocuments({event})`. */
  function CountForEvent(cs: seq<Coupon>, eventId: string): (n: nat)
    ensures n <= |cs|
  {
    if cs == [] then 0
    else CountForEvent(cs[..|cs| - 1], eventId) + (if cs[|cs| - 1].event == eventId then 1 else 0)
  }

  /** `Coupon.find({event})` in natural order, and the complement that
      `Coupon.deleteMany({event})` leaves behind. */
  function Keep(cs: seq<Coupon>, eventId: string, owned: bool): (r: seq<Coupon>)
    ensures |r| <= |cs|
    ensures forall c :: c in r <==> c in cs && (c.event == eventId) == owned
    ensures forall i :: 0 <= i < |r| ==> r[i] in cs
  {
    if cs == [] then []
    else
      var r := Keep(cs[..|cs| - 1], eventId, owned);
      assert cs == cs[..|cs| - 1] + [cs[|cs| - 1]];
      if (cs[|cs| - 1].event == eventId) == owned then r + [cs[|cs| - 1]] else r
  }

  /** Filtering a concatenation is concatenating the filtered parts. With
      the one-record case of the definition, this says the filter keeps the
      records it keeps in their order and with their multiplicity. */
  lemma {:induction false} KeepAppend(a: seq<Coupon>, b: seq<Coupon>, eventId: string, owned: bool)
    ensures Keep(a + b, eventId, owned) == Keep(a, eventId, owned) + Keep(b, eventId, owned)
  {
    if b == [] {
      assert a + b == a;
    } else {
      var init := b[..|b| - 1];
      var last := b[|b| - 1];
      assert (a + b)[..|a + b| - 1] == a + init;
      assert (a + b)[|a + b| - 1] == last;
      KeepAppend(a, init, eventId, owned);
    }
  }

  /** Every record kept is one of the records there were, so it is as well
      formed as they are. */
  lemma KeepWellFormed(cs: seq<Coupon>, eventId: string, owned: bool, nextCouponId: nat)
    requires forall i :: 0 <= i < |cs| ==> WellFormedCoupon(cs[i], nextCouponId)
    ensures var r := Keep(cs, eventId, owned);
      forall i :: 0 <= i < |r| ==> WellFormedCoupon(r[i], nextCouponId)
  {
    var r := Keep(cs, eventId, owned);
    forall i | 0 <= i < |r| ensures WellFormedCoupon(r[i], nextCouponId) {
      var j :| 0 <= j < |cs| && cs[j] == r[i];
    }
  }

  /** A record that differs from every record of a unique run in short code
      and id can be appended to it. */
  lemma AppendUnique(r: seq<Coupon>, last: Coupon)
    requires UniqueShortCodes(r) && UniqueIds(r)
    requires forall i :: 0 <= i < |r| ==> r[i].shortCode != last.shortCode && r[i].id != last.id
    ensures UniqueShortCodes(r + [last]) && UniqueIds(r + [last])
  {
    var r' := r + [last];
    forall i, j | 0 <= i < j < |r'|
      ensures r'[i].shortCode != r'[j].shortCode && r'[i].id != r'[j].id
    {
      assert r'[i] == r[i];
      if j < |r| {
        assert r'[j] == r[j];
      }
    }
  }

  /** Keeping some records of a unique run keeps it unique. */
  lemma {:induction false} KeepUnique(cs: seq<Coupon>, eventId: string, owned: bool)
    requires UniqueShortCodes(cs) && UniqueIds(cs)
    ensures UniqueShortCodes(Keep(cs, eventId, owned)) && UniqueIds(Keep(cs, eventId, owned))
  {
    if cs != [] {
      var init := cs[..|cs| - 1];
      var last := cs[|cs| - 1];
      assert UniqueShortCodes(init) && UniqueIds(init) by {
        forall i, j | 0 <= i < j < |init|
          ensures init[i].shortCode != init[j].shortCode && init[i].id != init[j].id
        {
          assert init[i] == cs[i] && init[j] == cs[j];
        }
      }
      KeepUnique(init, eventId, owned);
      var r := Keep(init, eventId, owned);
      if (last.event == eventId) == owned {
        forall i | 0 <= i < |r|
          ensures r[i].shortCode != last.shortCode && r[i].id != last.id
        {
          var j :| 0 <= j < |init| && init[j] == r[i];
          assert cs[j] == r[i];
        }
        AppendUnique(r, last);
      }
    }
  }

  /** Keeping some records of a store keeps its invariants over coupons. */
  lemma KeepConsistent(cs: seq<Coupon>, eventId: string, owned: bool, nextCouponId: nat)
    requires forall i :: 0 <= i < |cs| ==> WellFormedCoupon(cs[i], nextCouponId)
    requires UniqueShortCodes(cs) && UniqueIds(cs)
    ensures var r := Keep(cs, eventId, owned);
      && (forall i :: 0 <= i < |r| ==> WellFormedCoupon(r[i], nextCouponId))
      && UniqueShortCodes(r) && UniqueIds(r)
  {
    KeepWellFormed(cs, eventId, owned, nextCouponId);
    KeepUnique(cs, eventId, owned);
  }

  /** The ids of the events an organizer owns. */
  function EventIdsOf(events: map<ObjectId, Event>, organizer: string): (ids: set<ObjectId>)
    ensures forall id :: id in ids <==> id in events && events[id].organizer == organizer
  {
    set id | id in events && events[id].organizer == organizer
  }

  /** The ids of a set, each once, in some order: the order in which a
      `find` over the events collection meets them, which the listings
      then sort. */
  ghost function Enumerate(ids: set<ObjectId>): (r: seq<ObjectId>)
    ensures |r| == |ids|
    ensures forall id :: id in r <==> id in ids
  {
    if ids == {} then []
    else
      var id :| id in ids;
      [id] + Enumerate(ids - {id})
  }

  /** Appending a fresh, well-formed coupon whose code the index does not
      hold keeps the store invariant. */
  lemma AppendKeepsConsistent(db: Db, c: Coupon)
    requires Consistent(db)
    requires c.id == db.nextCouponId
    requires WellFormedCoupon(c, db.nextCouponId + 1)
    requires !ShortCodeTaken(db.coupons, c.shortCode)
    ensures Consistent(db.(coupons := db.coupons + [c], nextCouponId := db.nextCouponId + 1))
  {
    InsertKeepsUnique(db.coupons, c);
    var cs := db.coupons + [c];
    forall i | 0 <= i < |cs| ensures WellFormedCoupon(cs[i], db.nextCouponId + 1) {
      if i < |db.coupons| {
        assert cs[i] == db.coupons[i];
      }
    }
    forall i, j | 0 <= i < j < |cs| ensures cs[i].id != cs[j].id {
      assert cs[i] == db.coupons[i];
    }
  }

  /** The store as a mutable object: the controllers read and write its
      fields the way the Mongoose models read and write the collections. */
  class Store {
    var events: map<ObjectId, Event>
    var coupons: seq<Coupon>
    var nextCouponId: nat

    function Snapshot(): Db
      reads this
    {
      Db(events, coupons, nextCouponId)
    }

    ghost predicate Valid()
      reads this
    {
      Consistent(Snapshot())
    }

    /** `Coupon.create` once the unique index has accepted the short code:
        the record is appended under the next `_id` and nothing else
        changes. */
    method Insert(c: Coupon)
      requires Valid()
      requires c.id == nextCouponId && WellFormedCoupon(c, nextCouponId + 1)
      requires !ShortCodeTaken(coupons, c.shortCode)
      modifies this
      ensures Valid()
      ensures Snapshot() == old(Snapshot()).(coupons := old(coupons) + [c], nextCouponId := old(nextCouponId) + 1)
    {
      AppendKeepsConsistent(Snapshot(), c);
      coupons := coupons + [c];
      nextCouponId := nextCouponId + 1;
    }

    /** An empty database. */
    constructor ()
      ensures Valid()
      ensures events == map[] && coupons == [] && nextCouponId == 0
    {
      events := map[];
      coupons := [];
      nextCouponId := 0;
    }
  }
}
