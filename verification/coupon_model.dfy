/** The Coupon record (the Mongoose schema of `Coupon`): its required
    fields, its defaults, the unique index on `coupon_id_short`, and the
    consistency of the three redemption fields. `createdAt`/`updatedAt`
    timestamps are not modelled. */
module CouponModel {

  import opened Wrappers
  import opened Hex

  /** `id` is the document's `_id` (allocated by the store); `event` is the
      owning event's id; `redeemedAt`/`redeemedBy` are `null` as None. */
  datatype Coupon = Coupon(
    id: nat,
    event: ObjectId,
    shortCode: string,
    secureHash: string,
    isRedeemed: bool,
    redeemedAt: Option<int>,
    redeemedBy: Option<ObjectId>)

  /** The `required` validators: `event` is present by its type; the two
      strings must be non-empty. */
  predicate HasRequired(c: Coupon) {
    c.shortCode != "" && c.secureHash != ""
  }

  /** A new coupon document as `Coupon.create` stores it: the schema
      defaults leave it unredeemed with no redemption time or validator. */
  function New(id: nat, event: ObjectId, shortCode: string, secureHash: string): (c: Coupon)
    ensures c.id == id && c.event == event && c.shortCode == shortCode && c.secureHash == secureHash
    ensures !c.isRedeemed && c.redeemedAt == None && c.redeemedBy == None
    ensures RedemptionConsistent(c)
  {
    Coupon(id, event, shortCode, secureHash, false, None, None)
  }

  /** `is_redeemed` is false exactly when `redeemed_at` is null, exactly
      when `redeemed_by_validator` is null. */
  predicate RedemptionConsistent(c: Coupon) {
    (!c.isRedeemed <==> c.redeemedAt.None?) && (c.redeemedAt.None? <==> c.redeemedBy.None?)
  }

  /** The unique index on `coupon_id_short`: over the whole collection,
      not per event. */
  predicate UniqueShortCodes(cs: seq<Coupon>) {
    forall i, j :: 0 <= i < j < |cs| ==> cs[i].shortCode != cs[j].shortCode
  }

  /** Whether an insert of `code` would violate the unique index. */
  predicate ShortCodeTaken(cs: seq<Coupon>, code: string) {
    exists i :: 0 <= i < |cs| && cs[i].shortCode == code
  }

  /** Inserting a code the index does not yet hold keeps the index unique,
      and an insert of a taken code is exactly what would break it. */
  lemma InsertKeepsUnique(cs: seq<Coupon>, c: Coupon)
    requires UniqueShortCodes(cs)
    ensures UniqueShortCodes(cs + [c]) <==> !ShortCodeTaken(cs, c.shortCode)
  {
    var cs' := cs + [c];
    if ShortCodeTaken(cs, c.shortCode) {
      var i :| 0 <= i < |cs| && cs[i].shortCode == c.shortCode;
      assert cs'[i].shortCode == cs'[|cs|].shortCode;
    }
  }
}
