# Meal-coupon lifecycle, modelled in Dafny

This project models the backend core of a meal-coupon system for events. It
covers four things:

- an organizer creates an event and issues a batch of coupons for it;
- each coupon carries a QR payload holding the event id, a short code such
  as `C001` and a random secret;
- a volunteer scans the payload, and the validator redeems the coupon at
  most once;
- deleting an event removes it together with its coupons.

The two MongoDB collections are one in-memory store. Events are a map keyed
by `_id`. Coupons are a sequence in natural (insertion) order, next to the
allocator of coupon `_id`s. Every handler is one atomic step on that store.

Modules, one per source file or concern:

- `Hex`: `Buffer#toString('hex')` and the 24-digit ObjectId text.
- `JsText`: the JavaScript string behaviour the backend relies on:
  - `Number#toString` and `String#padStart`;
  - `String#trim`, which Mongoose's `trim: true` applies, with the
    WhiteSpace and LineTerminator sets of ECMA-262 sections 12.2 and 12.3;
  - request-field truthiness.
- `EventModel`, `CouponModel`: the two Mongoose schemas (fields, defaults,
  required fields, status enum, trimming, the unique index on
  `coupon_id_short`).
- `QrCodeGenerator`: the secret source and the QR payload codec, i.e. the
  compact `JSON.stringify` form of RFC 8259 text and the scanner's parse
  back.
- `Store`: the collections, the queries the controllers issue, the store
  invariant, and `class Store`, whose fields the handlers update in place.
- `CouponController`: `validateCoupon`, written twice:
  - as a method on the store, with early-return guards and three field
    assignments;
  - as the function `Validate`, which the method is proved equal to.
- `EventController`: the event handlers, each method proved equal to a
  specification function of the store. They are `createEvent`,
  `deleteEvent`, `generateCoupons` (its insert loop is `InsertBatch`), the
  ownership guards, the listings and the dashboard counts.
- `Sorting`: the ascending `sort` stage, as an insertion sort for any total
  preorder, and MongoDB's string order.
- `Lifecycle`: sequential runs of requests against one store, and the QR
  scanner.

The store invariant `Store.Consistent` states four things:

- every event is stored under its own id, with a non-empty, trimmed name
  and venue;
- every coupon has its required fields, its three redemption fields agree
  with each other, its `_id` is below the allocator, its short code needs no
  JSON escaping, and its secret is 64 lowercase hex digits;
- short codes are unique across the whole collection;
- coupon `_id`s are distinct.

Every handler keeps this invariant.

Short-code numbering follows the code. Before each insert, `generateCoupons`
counts the event's coupons again and adds `i + 1` to that count. The count
already includes the batch's own earlier inserts, so with `n0` coupons before
the call the i-th coupon (from 0) gets number n0 + 2i + 1. Within a batch the
codes are distinct. Across batches and events they collide:

- the unique index on `coupon_id_short` spans every event, so the first
  batch for a second event fails on `C001`
  (`EventController.SecondEventCollides`);
- a second batch for an event whose first batch was C001, C003 fails on
  `C003` (`EventController.SecondBatchCollides`).

A failed batch keeps the coupons it inserted before the failure.

## Model

| member | source | states |
|---|---|---|
| Hex.Encode | backend/utils/qrCodeGenerator.js:9 | hex text is two lowercase hex digits per byte |
| Hex.DecodeEncode | backend/utils/qrCodeGenerator.js:9 | decoding the hex text of any byte string gives back those bytes |
| Hex.EncodeDecode | backend/utils/qrCodeGenerator.js:9 | every even-length lowercase hex string is the hex text of its decoding |
| Hex.EncodeInjective | backend/utils/qrCodeGenerator.js:9 | distinct byte strings give distinct hex text |
| JsText.NumberToString | backend/controllers/event.controller.js:148 | `toString()` of a count is a non-empty digit string with no leading zero unless the count is 0 |
| JsText.DecimalValueOfNumberToString | backend/controllers/event.controller.js:148 | reading the digits of `n.toString()` back gives `n` |
| JsText.NumberToStringInjective | backend/controllers/event.controller.js:148 | distinct numbers have distinct decimal forms |
| JsText.PadStart | backend/controllers/event.controller.js:148 | `padStart` makes the text exactly as long as the wider of the text and the width |
| JsText.PadStartShape | backend/controllers/event.controller.js:148 | `padStart` never truncates: the text is a suffix of the result, and only fill characters come before it |
| JsText.PaddedNumberValue | backend/controllers/event.controller.js:148 | zero-padding a number's decimal form keeps its value |
| JsText.WhitespaceEnd | backend/models/Event.js:8 | the cut point where `trim` starts keeping text: whitespace up to it, and a non-whitespace character at it |
| JsText.WhitespaceStart | backend/models/Event.js:17 | the cut point where `trim` stops keeping text: whitespace from it on, and a non-whitespace character just before it |
| JsText.Trim | backend/models/Event.js:8-17 | the trimmed value is the input between two cut points, with only whitespace outside them and non-whitespace at both of its ends |
| JsText.TrimmedIsTrimFixed | backend/models/Event.js:5-18 | trimming leaves a string unchanged exactly when it neither starts nor ends with whitespace, and every trimmed value is such a string |
| JsText.TrimIdempotent | backend/models/Event.js:5-18 | trimming twice equals trimming once |
| JsText.TrimEmpty | backend/models/Event.js:5-18 | the trimmed value is empty exactly when the input is all whitespace |
| EventModel.Build | backend/models/Event.js:4-36 | the document is built exactly when the trimmed name and venue are non-empty. It is then valid, with trimmed name and venue, status Active, the default description when none was given, and the given id, date and organizer |
| CouponModel.New | backend/models/Coupon.js:20-32 | a new coupon keeps its given fields and is unredeemed, with no redemption time and no validator, so its redemption fields agree |
| CouponModel.InsertKeepsUnique | backend/models/Coupon.js:13 | appending a coupon keeps short codes unique exactly when no stored coupon already has its code |
| QrCodeGenerator.GenerateSecureHash | backend/utils/qrCodeGenerator.js:8-10 | the secret is 64 lowercase hex digits (32 bytes in base16, section 8 of RFC 4648) |
| QrCodeGenerator.SecureHashDeterminesBytes | backend/utils/qrCodeGenerator.js:8-10 | two draws give the same secret exactly when they are the same bytes |
| QrCodeGenerator.EverySecureHashIsGenerated | backend/utils/qrCodeGenerator.js:8-10 | every 64-digit lowercase hex string is the secret of some draw |
| QrCodeGenerator.LowerHexIsPlain | backend/utils/qrCodeGenerator.js:20-27 | hex text needs no JSON escaping |
| QrCodeGenerator.DecodeEncode | backend/utils/qrCodeGenerator.js:20-27 | parsing the payload of any three escape-free values gives back those three values |
| QrCodeGenerator.Encode | backend/utils/qrCodeGenerator.js:20-27 | `JSON.stringify` of the three-member object; its meaning is given by `DecodeEncode` (it parses back) and `EncodeInjective` (distinct triples, distinct text) |
| QrCodeGenerator.Decode | frontend/src/pages/VolunteerScanPage.jsx:23 | the scanner's parse accepts only what the encoder writes: every decoded payload has escape-free values and is exactly the payload of what it decoded to |
| QrCodeGenerator.EncodeInjective | backend/utils/qrCodeGenerator.js:20-27 | distinct escape-free triples give distinct payload strings |
| QrCodeGenerator.CreateQrCodeData | backend/utils/qrCodeGenerator.js:20-27 | the payload of an event id in its 24-digit string form, a short code and a secret; `CreateQrCodeDataFields` gives its meaning |
| QrCodeGenerator.CreateQrCodeDataFields | backend/utils/qrCodeGenerator.js:20-27 | the payload parses back to the event id as its 24-digit string, the short code, and the secret unchanged |
| Store.FindCoupon | backend/controllers/coupon.controller.js:17 | `findOne` gives the first coupon with that event and short code, or none when no coupon has both |
| Store.FindCouponSameKeys | backend/controllers/coupon.controller.js:17 | the lookup depends only on each record's event and short code |
| Store.FindCouponUnique | backend/controllers/coupon.controller.js:17 | when short codes are unique, any coupon matching the pair is the one found |
| Store.Keep | backend/controllers/event.controller.js:110 | a coupon is kept exactly when it is stored and its event is (or, for `deleteMany`, is not) the id |
| Store.KeepAppend | backend/controllers/event.controller.js:110 | filtering a concatenation is concatenating the filtered parts, so the kept coupons stay in their order and keep their multiplicity |
| Store.CountForEvent | backend/controllers/event.controller.js:147 | `countDocuments({event})` never exceeds the collection; `CountForEventSize` and `CountAfterInserts` give its value |
| Store.KeepConsistent | backend/controllers/event.controller.js:110 | keeping a subset of the coupons keeps them well formed and keeps short codes and ids unique |
| Store.Enumerate | backend/controllers/event.controller.js:13 | each id of the set occurs once, and nothing else occurs |
| Store.AppendKeepsConsistent | backend/controllers/event.controller.js:150-155 | appending a well-formed coupon under the next `_id`, whose code is not yet held, keeps the store invariant |
| Store.Store.Insert | backend/controllers/event.controller.js:150-155 | `Coupon.create` appends the coupon and advances the id allocator, changes nothing else, and keeps the invariant |
| CouponController.ResponsesDistinct | backend/controllers/coupon.controller.js:12-38 | two outcomes with the same status and message are the same rejection, or both successes |
| CouponController.MarkRedeemed | backend/controllers/coupon.controller.js:42-45 | the coupon becomes redeemed, at `now`, by the validator; its id, event, short code and secret stay |
| CouponController.SignatureMatches | backend/controllers/coupon.controller.js:29-32 | the check as written: re-encode the stored record, parse it, compare its `secureHash`; `SignatureIsSecretEquality` gives its meaning |
| CouponController.SignatureIsSecretEquality | backend/controllers/coupon.controller.js:27-32 | re-encoding the stored coupon, parsing it and comparing its `secureHash` is true exactly when the presented secret equals the stored one |
| CouponController.Validate | backend/controllers/coupon.controller.js:9-61 | every rejection leaves the coupon collection unchanged |
| CouponController.SuccessChangesExactlyThreeFields | backend/controllers/coupon.controller.js:42-56 | a success needs the found coupon to be unredeemed, to carry the presented secret and to belong to an open event. It then changes exactly that coupon's three redemption fields. The receipt carries its short code, the event's name and description, and the redemption time |
| CouponController.ValidateKeepsConsistent | backend/controllers/coupon.controller.js:42-45 | validation keeps the store invariant |
| CouponController.RedeemKeepsConsistent | backend/controllers/coupon.controller.js:42-45 | redeeming one stored coupon keeps the store invariant |
| CouponController.MissingFieldsRejected | backend/controllers/coupon.controller.js:12-14 | the answer is "missing data" exactly when a field is absent or empty, and then the collection is unchanged whatever the store holds |
| CouponController.LookupIsByPair | backend/controllers/coupon.controller.js:17-21 | with all fields present, the answer is 404 exactly when no coupon has both that event and that short code |
| CouponController.RedeemedBeforeSignature | backend/controllers/coupon.controller.js:23-25 | a redeemed coupon is answered "already redeemed" whatever secret is presented, and nothing changes |
| CouponController.ForgeryRejected | backend/controllers/coupon.controller.js:27-32 | for an unredeemed coupon, the signature is rejected exactly when the presented secret differs from the stored one |
| CouponController.EventGate | backend/controllers/coupon.controller.js:35-38 | after the signature check, the request is refused exactly when the event is missing, not Active, or dated before now, and is served otherwise |
| CouponController.RepeatIsAlreadyRedeemed | backend/controllers/coupon.controller.js:23-25 | repeating a served request, by anyone at any time, is answered "already redeemed" and changes nothing |
| CouponController.ValidateCoupon | backend/controllers/coupon.controller.js:9-61 | the handler's outcome and new coupons are those of `Validate`; events and the allocator are untouched; the invariant is kept |
| EventController.OwnedEvent | backend/controllers/event.controller.js:27-34 | 404 exactly when the id names no stored event, 403 exactly when the caller is not its organizer, and otherwise that event |
| EventController.GetEventById | backend/controllers/event.controller.js:23-40 | a success returns the stored event under that id, and the caller is its organizer |
| EventController.OnlyOrganizerPasses | backend/controllers/event.controller.js:32-34 | for a stored event, the read succeeds exactly when the caller is the organizer |
| EventController.ShortCode | backend/controllers/event.controller.js:148 | a short code is `C` followed by at least three decimal digits, and it needs no JSON escaping |
| EventController.ShortCodeNumber | backend/controllers/event.controller.js:148 | the digits of a short code read back as its number, so nothing is truncated |
| EventController.ShortCodeInjective | backend/controllers/event.controller.js:148 | two numbers give the same short code exactly when they are equal |
| EventController.ShortCodeExamples | backend/controllers/event.controller.js:148 | 1, 3 and 42 give C001, C003 and C042 |
| EventController.ShortCodeWideExamples | backend/controllers/event.controller.js:148 | 999 gives C999 and 1000 gives C1000 |
| EventController.BatchNext | backend/controllers/event.controller.js:156 | each insert extends the batch by exactly its new coupon |
| EventController.BatchCodeExamples | backend/controllers/event.controller.js:147-148 | the first insert is numbered one past the count; a batch for an event without coupons issues C001, then C003 |
| EventController.FirstClash | backend/controllers/event.controller.js:143-157 | the batch stops at the first position whose code is already held, or runs to the end; no earlier position's code is held |
| EventController.FirstClashBeyond | backend/controllers/event.controller.js:150-155 | a position up to the stopping point whose code is free lies strictly before it |
| EventController.FirstClashAt | backend/controllers/event.controller.js:150-155 | a position up to the stopping point whose code is held is the stopping point |
| EventController.CountAfterInserts | backend/controllers/event.controller.js:147 | adding records of the event raises its count by their number |
| EventController.TakenAppend | backend/models/Coupon.js:13 | two runs of records together hold a code exactly when one of them does |
| EventController.BatchAvoids | backend/controllers/event.controller.js:143-155 | a batch's earlier coupons never hold the code of a later insert |
| EventController.CountAfterBatch | backend/controllers/event.controller.js:147 | after `k` inserts, the event's count is up by `k` |
| EventController.TakenAfterBatch | backend/controllers/event.controller.js:150-155 | the next insert's code is held after the earlier inserts exactly when it was held before the batch |
| EventController.AfterInsertsNext | backend/controllers/event.controller.js:150-156 | insert `k` appends the batch's k-th coupon and advances the allocator |
| EventController.InsertSucceeds | backend/controllers/event.controller.js:150-155 | an insert whose code is free lies before the stopping point and keeps the invariant |
| EventController.InsertStep | backend/controllers/event.controller.js:143-157 | one pass of the loop: the recount before insert `i` already includes the `i` coupons the batch added, so the number is n0 + 2i + 1, and a code the index already holds is where the batch stops |
| EventController.InsertFree | backend/controllers/event.controller.js:150-156 | a pass whose code is free lies before the stopping point; its coupon is well formed under the next `_id`, is appended to the store and extends the batch |
| EventController.InsertBatch | backend/controllers/event.controller.js:142-157 | the loop appends exactly the batch up to the first held code, reports that code if there is one, and keeps the invariant |
| EventController.GenerateCoupons | backend/controllers/event.controller.js:123-182 | the handler's reply and new store are those of `GenerateCouponsSpec`; the invariant is kept |
| EventController.GenerateRejections | backend/controllers/event.controller.js:127-140 | a missing or non-positive count gives 400; 404 exactly when there is no such event; 403 exactly when the caller is not its organizer; no rejection creates a coupon |
| EventController.AfterInsertsConsistent | backend/controllers/event.controller.js:142-157 | every prefix of a batch up to its stopping point keeps the invariant |
| EventController.GenerateKeepsConsistent | backend/controllers/event.controller.js:123-182 | issuance keeps the invariant, whether the batch completes or stops at a clash |
| EventController.GeneratePastGuards | backend/controllers/event.controller.js:142-177 | past the guards, the store holds the inserts up to the first clash. The reply is that clash, or the success message with every coupon listed |
| EventController.BatchFields | backend/controllers/event.controller.js:150-155 | the i-th coupon of a batch has the next id, the event, the code for n0 + 2i + 1, no redemption, and a generated secret |
| EventController.GenerateSucceeded | backend/controllers/event.controller.js:150-177 | a completed batch appends exactly `count` coupons in creation order. Each belongs to the event, is unredeemed, has a generated secret and the code for n0 + 2i + 1. The response lists them in that order, each with `createQrCodeData` of its own fields |
| EventController.BatchCodesIncrease | backend/controllers/event.controller.js:143-148 | codes within one batch are distinct, and their numbers grow by two per insert |
| EventController.GenerateFailedKeepsEarlierInserts | backend/controllers/event.controller.js:143-157 | a batch that stops keeps the coupons inserted before the failing one (no rollback) and reports a duplicate code that was already held before the call |
| EventController.FirstInsertClashes | backend/controllers/event.controller.js:147-155 | when the first code is already held, the handler fails on it and the store is unchanged |
| EventController.SecondEventCollides | backend/controllers/event.controller.js:147-150 | because the index spans all events, a batch for an event without coupons fails on C001 when another event holds it, and creates nothing |
| EventController.FirstBatchOfTwo | backend/controllers/event.controller.js:143-157 | a first batch of two leaves the event with two coupons, one of them C003 |
| EventController.TwoAppended | backend/controllers/event.controller.js:147 | appending two coupons of the event, the second one C003, raises its count by two and puts C003 in the index |
| EventController.SecondBatchCollides | backend/controllers/event.controller.js:147-148 | as written, a second batch after a first batch of two fails on C003 and inserts nothing |
| EventController.CreatedEvent | backend/controllers/event.controller.js:45-64 | 400 exactly when a field is not given; success exactly when the trimmed name and venue are non-empty and the id is unused; only success changes the store, and it adds exactly the new event with its defaults |
| EventController.CreateKeepsConsistent | backend/controllers/event.controller.js:53-59 | event creation keeps the invariant |
| EventController.AddEventKeepsConsistent | backend/controllers/event.controller.js:53-59 | adding a valid event under its own unused id keeps the invariant |
| EventController.CreateEvent | backend/controllers/event.controller.js:45-64 | the handler's reply and new store are those of `CreateEventSpec`; the invariant is kept |
| EventController.UpdateEventGuard | backend/controllers/event.controller.js:71-80 | the update goes ahead exactly when the event exists and the caller is its organizer |
| EventController.DeleteRemovesExactly | backend/controllers/event.controller.js:96-114 | only the organizer's delete of a stored event succeeds, and otherwise nothing changes. It removes exactly that event and its coupons; the other events, the other coupons in their order, and the allocator are unchanged |
| EventController.DeleteKeepsConsistent | backend/controllers/event.controller.js:110-112 | deletion keeps the invariant |
| EventController.DeleteEvent | backend/controllers/event.controller.js:96-118 | the handler's reply and new store are those of `DeleteEventSpec`; the invariant is kept |
| EventController.ShortCodeOrder | backend/controllers/event.controller.js:200 | ordering coupons by short code is a total preorder |
| EventController.ShortCodeOrderIsTextual | backend/controllers/event.controller.js:200 | the order is textual: C1000 sorts before C999, and not after it |
| EventController.GetCouponsForEvent | backend/controllers/event.controller.js:187-206 | success exactly when the caller owns the event; then exactly that event's coupons, rearranged and sorted by short code |
| EventController.DateOrder | backend/controllers/event.controller.js:13 | ordering events by date is a total preorder |
| EventController.FoundAreListed | backend/controllers/event.controller.js:13 | looking up an enumeration of the listed ids finds exactly the listed events |
| EventController.ListEvents | backend/controllers/event.controller.js:235 | `find(filter).sort({date: 1})` is sorted by date, holds one entry per matching id, and holds exactly the matching events |
| EventController.GetEvents | backend/controllers/event.controller.js:11-18 | the caller's events, each once, sorted by date, and no other event |
| EventController.GetUpcomingEvents | backend/controllers/event.controller.js:233-240 | exactly the caller's events dated now or later, each once, sorted by date |
| EventController.CountOfEvents | backend/controllers/event.controller.js:217-218 | a coupon count never exceeds the collection |
| EventController.RedeemedAmongGenerated | backend/controllers/event.controller.js:217-218 | the redeemed count never exceeds the generated count |
| EventController.GetDashboardStats | backend/controllers/event.controller.js:211-229 | each figure is the size of an independently stated set: the caller's events, the caller's Active events, and the positions of the coupons of the caller's events, all or redeemed. Hence active ≤ total and redeemed ≤ generated ≤ all coupons |
| EventController.CountOfEventsSize | backend/controllers/event.controller.js:217-218 | the recursive `countDocuments` equals the number of coupon positions that match the filter |
| EventController.CountForEventSize | backend/controllers/event.controller.js:147 | the per-event `countDocuments` equals the number of positions holding a coupon of that event |
| EventController.DashboardIgnoresOthers | backend/controllers/event.controller.js:213-218 | a coupon of an event the caller does not own changes none of the caller's figures |
| Sorting.SortBy | backend/controllers/event.controller.js:200 | the sort returns the same elements, rearranged |
| Sorting.SortBySorted | backend/controllers/event.controller.js:200 | for any total preorder, the sort's result is in order |
| Sorting.TextLeTotal | backend/controllers/event.controller.js:200 | any two strings are ordered one way or the other |
| Sorting.TextLeTransitive | backend/controllers/event.controller.js:200 | the string order is transitive |
| Sorting.TextLeAntisymmetric | backend/controllers/event.controller.js:200 | strings ordered both ways are equal |
| Lifecycle.ApplyKeepsConsistent | backend/models/Coupon.js:13-32 | creation, issuance, validation and deletion each keep the invariant |
| Lifecycle.RunKeepsConsistent | backend/models/Coupon.js:13-32 | every sequential run of requests keeps the invariant |
| Lifecycle.GenerateAddsFreshIds | backend/controllers/event.controller.js:150-155 | issuance only appends, and only coupons whose ids are at or above the allocator |
| Lifecycle.ValidateKeepsSpent | backend/controllers/coupon.controller.js:23-25 | a validation never serves a redeemed coupon and leaves it redeemed |
| Lifecycle.ApplyKeepsSpent | backend/controllers/coupon.controller.js:23-25 | no request serves a redeemed coupon, and every request leaves it redeemed |
| Lifecycle.ServedIsSpent | backend/controllers/coupon.controller.js:42-45 | the coupon a served validation redeemed is redeemed afterwards |
| Lifecycle.SpentNeverServed | backend/controllers/coupon.controller.js:23-25 | a redeemed coupon is never served again, in any run |
| Lifecycle.AtMostOnce | backend/controllers/coupon.controller.js:23-45 | in any sequential run, no coupon is served twice |
| Lifecycle.ScanRequest | frontend/src/pages/VolunteerScanPage.jsx:23-27 | a request is posted exactly when the QR text parses, and its three fields are escape-free and re-encode to exactly the scanned text |
| Lifecycle.ScanEncoded | frontend/src/pages/VolunteerScanPage.jsx:23-27 | scanning the payload of any three escape-free values posts exactly those three values |
| Lifecycle.IssuedCouponRedeemsOnce | backend/controllers/coupon.controller.js:23-56 | each coupon of a completed batch for an open event is served when its own QR payload is scanned, with a receipt for its short code. Scanning it again is answered "already redeemed" |
| Lifecycle.ScannedCouponRedeemsOnce | frontend/src/pages/VolunteerScanPage.jsx:23-27 | a payload that scans to an unredeemed coupon's own fields is served once, and then answered "already redeemed" |
| Lifecycle.IssuedEntryScans | backend/controllers/event.controller.js:171-176 | each response entry describes the stored coupon at its position, and its QR payload scans back to that coupon's event, short code and secret |
| Lifecycle.UnredeemedCouponServed | backend/controllers/coupon.controller.js:17-56 | an unredeemed coupon of an open event is served when its own fields are presented, and answered "already redeemed" the second time |
| Lifecycle.CreatedEventIsOpen | backend/models/Event.js:32 | a new event is Active by default, so its coupons are accepted until its date passes |

## Left out

- Concurrency is not modelled. Each request is one atomic step, and "at most once" is proved for sequential runs only. Two races are therefore absent: the read-then-save race in `validateCoupon` and the count-then-insert race in `generateCoupons`.
- `crypto.randomBytes(32)` is a parameter: 32 bytes per coupon, taken from an `entropy` function. No claim is made about randomness or collision probability.
- The clock is the input `now`. The two `new Date()` reads in `validateCoupon` are one value. Dates are integers, with no calendar, time-zone or `Date` parsing.
- The event `_id` Mongo assigns on creation is the input `freshId`. Coupon `_id`s come from a counter in the store.
- The caller's user id is a plain input. Authentication, the `protect`/`authorize` middleware, the routes, `server.js` and the user model are not part of this model.
- JSON escaping is not modelled. The codec is stated for values `JSON.stringify` copies verbatim (no quotation mark, no reverse solidus, no control character). This covers the ObjectId hex, the short codes and the hex secrets that occur.
- Request bodies are modelled as optional text fields. A JSON body field that is not a string is not admitted here. In the source, a numeric `secureHash` fails the `!==` comparison, and an object `eventId` or `couponId` reaches `findOne` as a query operator.
- The scanner's decoder accepts exactly the compact form `JSON.stringify` writes. Any other text is a parse failure (None), which the page reports without posting.
- Mongoose casting is not modelled. Ids are compared as lowercase 24-digit text. An id Mongoose would cast to the same ObjectId but that is spelled differently (with uppercase hex digits, say) answers 404 here where the source finds the event or coupon, and an id that is not 24 hex digits answers 404 here where Mongoose would raise a CastError for the error middleware. A non-integer `count` is not modelled (the count is an `Option<int>`). Nor is a falsy numeric `date` of 0: a date is either absent or given.
- `updateEvent` is modelled only up to its ownership guard. The merge of an arbitrary request body, its `runValidators` pass and the write are not part of this model.
- The `createdAt`/`updatedAt` timestamps, PDF and QR image generation, and the frontend are not part of this model. The one frontend exception is the scanner's parse-and-post step.
- `EventController.ListEvents` leaves open the order among events with equal dates. For that reason it, `EventController.GetEvents` and `EventController.GetUpcomingEvents` are ghost functions: the query's enumeration order is not determined.
- MongoDB's string comparison is modelled as lexicographic order by character code, a proper prefix first. This is the binary order for the ASCII short codes.
- `String#trimStart` and `String#trimEnd` are not separate operations: only `trim` is used, and it is modelled by its two cut points.
- JsText.NumberToString: counts and short-code numbers are unbounded integers. A JavaScript number holds integers exactly only below 2^53 and writes them in exponent form from 10^21 on, so the model assumes every count stays below 2^53; `EventController.ShortCode` and `EventController.ShortCodeNumber` rest on the same assumption.
- The `enum` validator on `status` is not a separate operation. A status is one of the four values of the `Status` datatype. The validator only matters for `updateEvent`'s write, which is not modelled.
- Errors passed to `next(error)` are the `Failed` reply, carrying the kind of error. The error middleware's response is not part of this model.
