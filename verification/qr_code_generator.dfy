/** The coupon secret source and the QR payload codec.

    A secret is 32 random bytes written as 64 lowercase hex digits; the
    random bytes come from the operating system and are a parameter here.
    The payload is the JSON text (RFC 8259) that `JSON.stringify` makes of
    the object `{event_id, coupon_id, secureHash}`; the scanner reads it back
    with `JSON.parse`. The fields that occur in practice (ObjectId hex, a
    letter and digits, hex secrets) need no escaping, so the codec is stated
    for "plain" text: text that `JSON.stringify` copies verbatim into a
    string literal. */
module QrCodeGenerator {

  import opened Wrappers
  import Hex

  // ---------------------------------------------------------------- secrets

  type Bytes32 = s: seq<Hex.Byte> | |s| == 32
    witness [0, 0, 0, 0, 0, 0, 0, 0, 0, 0, 0, 0, 0, 0, 0, 0,
             0, 0, 0, 0, 0, 0, 0, 0, 0, 0, 0, 0, 0, 0, 0, 0]

  /** The shape of every coupon secret. */
  predicate IsSecureHash(h: string) {
    |h| == 64 && Hex.IsLowerHex(h)
  }

  /** `generateSecureHash`: `crypto.randomBytes(32).toString('hex')`, with
      the 32 random bytes passed in. */
  function GenerateSecureHash(random: Bytes32): (h: string)
    ensures IsSecureHash(h)
  {
    Hex.Encode(random)
  }

  /** The hex text keeps all of the randomness: distinct draws give
      distinct secrets, and the bytes can be read back from the secret. */
  lemma SecureHashDeterminesBytes(a: Bytes32, b: Bytes32)
    ensures GenerateSecureHash(a) == GenerateSecureHash(b) <==> a == b
  {
    if GenerateSecureHash(a) == GenerateSecureHash(b) {
      Hex.EncodeInjective(a, b);
    }
  }

  /** Every 64-digit lowercase hex string is the secret of some draw, so
      the secret space is exactly the 2^256 strings of that shape. */
  lemma EverySecureHashIsGenerated(h: string)
    requires IsSecureHash(h)
    ensures exists r: Bytes32 :: GenerateSecureHash(r) == h
  {
    var r := Hex.Decode(h);
    Hex.EncodeDecode(h);
    assert GenerateSecureHash(r) == h;
  }

  // ---------------------------------------------------------------- plain text

  /** A character `JSON.stringify` copies unchanged into a string literal:
      anything but a quotation mark, a reverse solidus or a control
      character (section 7 of RFC 8259; ECMA-262 QuoteJSONString). */
  predicate IsPlainChar(c: char) {
    c != '"' && c != '\\' && c >= ' '
  }

  predicate IsPlainText(s: string) {
    forall i :: 0 <= i < |s| ==> IsPlainChar(s[i])
  }

  lemma LowerHexIsPlain(s: string)
    requires Hex.IsLowerHex(s)
    ensures IsPlainText(s)
  {
  }

  // ---------------------------------------------------------------- payload

  datatype Payload = Payload(eventId: string, couponId: string, secureHash: string)

  predicate IsPlain(p: Payload) {
    IsPlainText(p.eventId) && IsPlainText(p.couponId) && IsPlainText(p.secureHash)
  }

  /** The fixed text between the three values of the serialised object. */
  const Open: string := "{\"event_id\":\""
  const AfterEventId: string := "\",\"coupon_id\":\""
  const AfterCouponId: string := "\",\"secureHash\":\""
  const Close: string := "\"}"

  /** `JSON.stringify({event_id, coupon_id, secureHash})` of plain values:
      the three members in that order, no whitespace. */
  function Encode(p: Payload): string {
    Open + p.eventId + AfterEventId + p.couponId + AfterCouponId + p.secureHash + Close
  }

  /** `createQrCodeData(eventId, couponIdShort, secureHash)`. The event id
      is emitted as its 24-digit string form. */
  function CreateQrCodeData(eventId: Hex.ObjectId, couponIdShort: string, secureHash: string): string {
    Encode(Payload(eventId, couponIdShort, secureHash))
  }

  /** Splits text at its first quotation mark. */
  function SplitAtQuote(s: string): (r: (string, string))
    ensures r.0 + r.1 == s
    ensures forall i :: 0 <= i < |r.0| ==> r.0[i] != '"'
    ensures r.1 == [] || r.1[0] == '"'
  {
    if s == [] || s[0] == '"' then ([], s)
    else var (a, b) := SplitAtQuote(s[1..]); ([s[0]] + a, b)
  }

  /** Reads one plain string value up to its closing quotation mark and
      the fixed text `follow` that must come next; yields the value and what
      is left after `follow`. */
  function ReadValue(s: string, follow: string): (r: Option<(string, string)>)
    ensures r.Some? ==> IsPlainText(r.value.0) && s == r.value.0 + follow + r.value.1
  {
    var (v, rest) := SplitAtQuote(s);
    if follow <= rest && IsPlainText(v) then
      assert rest == follow + rest[|follow|..];
      Some((v, rest[|follow|..]))
    else None
  }

  /** What the scanner's `JSON.parse` recovers from a payload, for the
      compact form Encode writes: each value runs to the next quotation mark
      and must be plain. Anything else is a malformed payload, so the decoder
      accepts only what the encoder writes: a decoded payload is plain and
      re-encodes to the very text it came from. */
  function Decode(s: string): (d: Option<Payload>)
    ensures d.Some? ==> IsPlain(d.value) && Encode(d.value) == s
  {
    if !(Open <= s) then None
    else match ReadValue(s[|Open|..], AfterEventId)
      case None => None
      case Some((e, r1)) =>
        match ReadValue(r1, AfterCouponId)
        case None => None
        case Some((c, r2)) =>
          match ReadValue(r2, Close)
          case None => None
          case Some((h, r3)) =>
            if r3 == [] then
              EncodeOfParts(s, e, c, h, r1, r2);
              Some(Payload(e, c, h))
            else None
  }

  lemma {:induction false} SplitAtQuoteOfPlain(t: string, rest: string)
    requires IsPlainText(t)
    requires rest == [] || rest[0] == '"'
    ensures SplitAtQuote(t + rest) == (t, rest)
  {
    if t != [] {
      assert t[0] != '"' && t == [t[0]] + t[1..];
      assert (t + rest)[1..] == t[1..] + rest;
      SplitAtQuoteOfPlain(t[1..], rest);
    } else {
      assert t + rest == rest;
    }
  }

  lemma ReadValueOfPlain(v: string, follow: string, rest: string)
    requires IsPlainText(v) && |follow| > 0 && follow[0] == '"'
    ensures ReadValue(v + follow + rest, follow) == Some((v, rest))
  {
    assert v + follow + rest == v + (follow + rest);
    SplitAtQuoteOfPlain(v, follow + rest);
    assert (follow + rest)[|follow|..] == rest;
  }

  /** Round trip: the scanner reads back exactly the three values that were
      encoded. */
  lemma DecodeEncode(p: Payload)
    requires IsPlain(p)
    ensures Decode(Encode(p)) == Some(p)
  {
    var r2 := p.secureHash + Close + [];
    var r1 := p.couponId + AfterCouponId + r2;
    var r0 := p.eventId + AfterEventId + r1;
    assert Encode(p) == Open + r0;
    assert Encode(p)[|Open|..] == r0;
    ReadValueOfPlain(p.eventId, AfterEventId, r1);
    ReadValueOfPlain(p.couponId, AfterCouponId, r2);
    ReadValueOfPlain(p.secureHash, Close, []);
  }

  /** Text that splits into the fixed pieces around three values is the
      payload of those values. */
  lemma EncodeOfParts(s: string, e: string, c: string, h: string, r1: string, r2: string)
    requires Open <= s
    requires s[|Open|..] == e + AfterEventId + r1
    requires r1 == c + AfterCouponId + r2
    requires r2 == h + Close + []
    ensures Encode(Payload(e, c, h)) == s
  {
    assert s == Open + s[|Open|..];
    assert r2 == h + Close;
  }

  /** Distinct plain triples give distinct payload strings. */
  lemma EncodeInjective(p: Payload, q: Payload)
    requires IsPlain(p) && IsPlain(q)
    requires Encode(p) == Encode(q)
    ensures p == q
  {
    DecodeEncode(p);
    DecodeEncode(q);
  }

  /** The secret inside a payload is the secret that was given, unchanged,
      and likewise the event id in its string form. */
  lemma CreateQrCodeDataFields(eventId: Hex.ObjectId, couponIdShort: string, secureHash: string)
    requires IsPlainText(couponIdShort) && IsPlainText(secureHash)
    ensures var d := Decode(CreateQrCodeData(eventId, couponIdShort, secureHash));
      d.Some? && d.value.eventId == eventId && d.value.couponId == couponIdShort
      && d.value.secureHash == secureHash
  {
    LowerHexIsPlain(eventId);
    DecodeEncode(Payload(eventId, couponIdShort, secureHash));
  }
}
