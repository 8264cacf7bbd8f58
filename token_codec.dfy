/**
 * create_token and decode_token over the serializer `URLSafeTimedSerializer(QR_SECRET)`.
 * The serializer is abstract: `dumps` seals a payload with its issue time into a token string,
 * `loads` opens a token string, answering `None` for every token whose signature or payload
 * does not check. Only the age rule is stated here.
 */
module TokenCodec {
  import opened Options

  /** The JSON object a token carries; create_token always writes `{'slot': slot_id}`. */
  type Payload = map<string, string>

  /** A payload together with the timestamp the serializer sealed into the token. */
  datatype Signed = Signed(payload: Payload, issuedAt: int)

  datatype Serializer = Serializer(dumps: Signed -> string, loads: string -> Option<Signed>)

  /** What decode_token answers: an expired token, any other failure, or the payload. */
  datatype Decoded = Expired | Invalid | Ok(payload: Payload)

  /** The serializer opens what it sealed. */
  ghost predicate OpensWhatItSeals(s: Serializer) {
    forall x :: s.loads(s.dumps(x)) == Some(x)
  }

  /** The default token lifetime, QR_TTL_SECONDS. */
  const DefaultTtlSeconds: int := 600

  /** The payload of a token for `slotId`. */
  function SlotPayload(slotId: string): Payload {
    map["slot" := slotId]
  }

  /** create_token(slot_id), issued at time `now`. */
  function CreateToken(s: Serializer, slotId: string, now: int): string {
    s.dumps(Signed(SlotPayload(slotId), now))
  }

  /**
   * decode_token(token, max_age) checked at time `now`: a token that does not open is invalid;
   * one that opens but is older than `maxAge` seconds is expired; otherwise its payload.
   */
  function DecodeToken(s: Serializer, token: string, maxAge: int, now: int): Decoded {
    match s.loads(token)
    case None => Invalid
    case Some(signed) => if now - signed.issuedAt > maxAge then Expired else Ok(signed.payload)
  }

  /**
   * Time only moves a token towards expiry: a token expired at `now` is expired at every later
   * time, one that decodes at `now` decodes to the same payload at every earlier time, and
   * whether it is invalid does not depend on the time or the lifetime at all.
   */
  lemma DecodeMonotoneInTime(s: Serializer, token: string, maxAge: int, now: int, other: int, otherAge: int)
    ensures DecodeToken(s, token, maxAge, now) == Expired && other >= now ==> DecodeToken(s, token, maxAge, other) == Expired
    ensures DecodeToken(s, token, maxAge, now).Ok? && other <= now ==> DecodeToken(s, token, maxAge, other) == DecodeToken(s, token, maxAge, now)
    ensures DecodeToken(s, token, maxAge, now) == Invalid <==> DecodeToken(s, token, otherAge, other) == Invalid
  {
  }

  /** `data.get('slot')`. */
  function SlotOf(data: Payload): Option<string> {
    Get(data, "slot")
  }

  /**
   * A token made by create_token decodes to the slot it was made for while its age is within
   * `maxAge`, and is expired afterwards.
   */
  lemma TokenRoundTrip(s: Serializer, slotId: string, issuedAt: int, maxAge: int, now: int)
    requires OpensWhatItSeals(s)
    ensures now - issuedAt <= maxAge ==>
              DecodeToken(s, CreateToken(s, slotId, issuedAt), maxAge, now) == Ok(SlotPayload(slotId))
              && SlotOf(SlotPayload(slotId)) == Some(slotId)
    ensures now - issuedAt > maxAge ==>
              DecodeToken(s, CreateToken(s, slotId, issuedAt), maxAge, now) == Expired
  {
    var x := Signed(SlotPayload(slotId), issuedAt);
    assert s.loads(s.dumps(x)) == Some(x);
  }

  /** With the default lifetime, a token issued at 0 still decodes at 599 and 600, and is expired at 601. */
  lemma DefaultTtlScenario(s: Serializer, slotId: string)
    requires OpensWhatItSeals(s)
    ensures DecodeToken(s, CreateToken(s, slotId, 0), DefaultTtlSeconds, 599) == Ok(SlotPayload(slotId))
    ensures DecodeToken(s, CreateToken(s, slotId, 0), DefaultTtlSeconds, 600) == Ok(SlotPayload(slotId))
    ensures DecodeToken(s, CreateToken(s, slotId, 0), DefaultTtlSeconds, 601) == Expired
  {
    TokenRoundTrip(s, slotId, 0, DefaultTtlSeconds, 599);
    TokenRoundTrip(s, slotId, 0, DefaultTtlSeconds, 600);
    TokenRoundTrip(s, slotId, 0, DefaultTtlSeconds, 601);
  }
}
