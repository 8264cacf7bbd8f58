/** What the `/submit` route guarantees, stated over Decide for every request and every table. */
module SubmissionProperties {
  import opened Options
  import opened Text
  import opened Fingerprint
  import opened TokenCodec
  import opened Ledger
  import opened Submission

  /** No usable token in the query string or the form answers 'Missing token', and only that does. */
  lemma MissingTokenIff(cfg: Config, codec: Serializer, digest: string -> string, req: Request, now: int,
                        records: seq<Record>)
    ensures Decide(cfg, codec, digest, req, now, records) == MissingToken
            <==> !Truthy(Get(req.args, "token")) && !Truthy(Get(req.form, "token"))
  {
  }

  /** A non-empty query-string token is used even when the form carries another one. */
  lemma QueryTokenWins(req: Request)
    requires "token" in req.args && req.args["token"] != ""
    ensures SelectToken(req) == Some(req.args["token"])
  {
  }

  /** An expired token answers the expiry message, and only an expired token does, whatever the PIN and the table. */
  lemma ExpiredIff(cfg: Config, codec: Serializer, digest: string -> string, req: Request, now: int,
                   records: seq<Record>)
    ensures Decide(cfg, codec, digest, req, now, records) == TokenExpired
            <==> SelectToken(req).Some? && DecodeToken(codec, SelectToken(req).value, cfg.ttlSeconds, now) == Expired
  {
  }

  /** Any other decoding failure answers 'Invalid token.', and only that does, whatever the PIN and the table. */
  lemma InvalidIff(cfg: Config, codec: Serializer, digest: string -> string, req: Request, now: int,
                   records: seq<Record>)
    ensures Decide(cfg, codec, digest, req, now, records) == InvalidToken
            <==> SelectToken(req).Some? && DecodeToken(codec, SelectToken(req).value, cfg.ttlSeconds, now) == Invalid
  {
  }

  /** A GET with a good token shows the form for the decoded slot; only a GET shows it. */
  lemma GetShowsForm(cfg: Config, codec: Serializer, digest: string -> string, req: Request, now: int,
                     records: seq<Record>)
    ensures Decide(cfg, codec, digest, req, now, records).ShowForm? <==>
            SelectToken(req).Some? && DecodeToken(codec, SelectToken(req).value, cfg.ttlSeconds, now).Ok?
            && req.verb == "GET"
    ensures Decide(cfg, codec, digest, req, now, records).ShowForm? ==>
            Decide(cfg, codec, digest, req, now, records).slot
            == SlotOf(DecodeToken(codec, SelectToken(req).value, cfg.ttlSeconds, now).payload)
  {
  }

  /**
   * Past the token checks, a non-GET request whose trimmed PIN is not the teacher PIN is refused
   * with the PIN error, and a matching PIN is never refused so. The table plays no part: a device
   * already recorded for the slot still gets the PIN error.
   */
  lemma PinCheckedBeforeDuplicate(cfg: Config, codec: Serializer, digest: string -> string, req: Request,
                                  now: int, records: seq<Record>)
    requires SelectToken(req).Some? && DecodeToken(codec, SelectToken(req).value, cfg.ttlSeconds, now).Ok?
    requires req.verb != "GET"
    ensures Decide(cfg, codec, digest, req, now, records).IncorrectPin?
            <==> FormField(req, "teacher_pin") != cfg.teacherPin
  {
  }

  /** Every answer decided before the ledger is read is the same for every table. */
  lemma ScreeningIgnoresLedger(cfg: Config, codec: Serializer, digest: string -> string, req: Request,
                               now: int, records: seq<Record>, others: seq<Record>)
    requires Screen(cfg, codec, req, now).Answer?
    ensures Decide(cfg, codec, digest, req, now, records) == Decide(cfg, codec, digest, req, now, others)
    ensures !Decide(cfg, codec, digest, req, now, records).Recorded?
  {
  }

  /**
   * Past the checks, the request is refused as a duplicate exactly when some row query_records
   * returns for its slot has its device id; names, rolls and timestamps play no part.
   */
  lemma DuplicateIff(cfg: Config, codec: Serializer, digest: string -> string, req: Request, now: int,
                     records: seq<Record>)
    requires Screen(cfg, codec, req, now).Proceed?
    ensures Decide(cfg, codec, digest, req, now, records) == AlreadyRecorded
            <==> DeviceSeen(records, Screen(cfg, codec, req, now).slot, RequestCid(digest, req))
  {
    HasDeviceInQuery(records, Screen(cfg, codec, req, now).slot, RequestCid(digest, req));
  }

  /**
   * A row is recorded exactly when every check passes, and it holds the trimmed name and roll,
   * the slot, the device id, the raw ip and user agent (or `''`), the time and the next id.
   */
  lemma RecordedIff(cfg: Config, codec: Serializer, digest: string -> string, req: Request, now: int,
                    records: seq<Record>)
    ensures Decide(cfg, codec, digest, req, now, records).Recorded? <==>
            && SelectToken(req).Some?
            && DecodeToken(codec, SelectToken(req).value, cfg.ttlSeconds, now).Ok?
            && req.verb != "GET"
            && FormField(req, "teacher_pin") == cfg.teacherPin
            && !DeviceSeen(records, SlotOf(DecodeToken(codec, SelectToken(req).value, cfg.ttlSeconds, now).payload),
                           RequestCid(digest, req))
    ensures Decide(cfg, codec, digest, req, now, records).Recorded? ==>
            Decide(cfg, codec, digest, req, now, records).record == Record(
              |records| + 1,
              FormField(req, "student_name"),
              FormField(req, "roll"),
              SlotOf(DecodeToken(codec, SelectToken(req).value, cfg.ttlSeconds, now).payload),
              now,
              DeviceCid(digest, req.remoteAddr, req.userAgent),
              OrEmpty(req.remoteAddr),
              OrEmpty(req.userAgent))
  {
    if Screen(cfg, codec, req, now).Proceed? {
      DuplicateIff(cfg, codec, digest, req, now, records);
    }
  }

  /** A recorded row keeps the table at one row per (slot, device id). */
  lemma RecordingKeepsOneRecordPerDevice(cfg: Config, codec: Serializer, digest: string -> string, req: Request,
                                         now: int, records: seq<Record>)
    requires OneRecordPerDevice(records)
    requires Decide(cfg, codec, digest, req, now, records).Recorded?
    ensures OneRecordPerDevice(records + [Decide(cfg, codec, digest, req, now, records).record])
  {
    var rec := Decide(cfg, codec, digest, req, now, records).record;
    HasDeviceInQuery(records, rec.slot, rec.deviceCid);
    AppendUnseenKeepsOneRecordPerDevice(records, rec);
  }

  /**
   * query_records filters only on a truthy slot: a submission whose slot is `None` or `''` is
   * refused when its device has a row in any slot at all.
   */
  lemma FalsySlotSeesEverySlot(cfg: Config, codec: Serializer, digest: string -> string, req: Request, now: int,
                               records: seq<Record>)
    requires Screen(cfg, codec, req, now).Proceed? && !Truthy(Screen(cfg, codec, req, now).slot)
    ensures Decide(cfg, codec, digest, req, now, records) == AlreadyRecorded
            <==> exists i :: 0 <= i < |records| && records[i].deviceCid == RequestCid(digest, req)
  {
    DuplicateIff(cfg, codec, digest, req, now, records);
  }

  /** With a truthy slot, only that slot's rows count: rows of the device under other slots do not block it. */
  lemma NamedSlotSeesOnlyItself(cfg: Config, codec: Serializer, digest: string -> string, req: Request, now: int,
                                records: seq<Record>)
    requires Screen(cfg, codec, req, now).Proceed? && Truthy(Screen(cfg, codec, req, now).slot)
    ensures Decide(cfg, codec, digest, req, now, records) == AlreadyRecorded
            <==> exists i :: 0 <= i < |records| && records[i].slot == Screen(cfg, codec, req, now).slot
                                                && records[i].deviceCid == RequestCid(digest, req)
  {
    DuplicateIff(cfg, codec, digest, req, now, records);
  }

  /**
   * Once a device is recorded for a slot, every later request from it for that slot that passes
   * the checks is refused as a duplicate, whatever its name, roll or time and whatever rows came after.
   */
  lemma DuplicateIsPermanent(cfg: Config, codec: Serializer, digest: string -> string, req: Request, now: int,
                             records: seq<Record>, req2: Request, now2: int, more: seq<Record>)
    requires Decide(cfg, codec, digest, req, now, records).Recorded?
    requires Screen(cfg, codec, req2, now2).Proceed?
    requires Screen(cfg, codec, req2, now2).slot == Screen(cfg, codec, req, now).slot
    requires RequestCid(digest, req2) == RequestCid(digest, req)
    ensures Decide(cfg, codec, digest, req2, now2,
                   records + [Decide(cfg, codec, digest, req, now, records).record] + more) == AlreadyRecorded
  {
    var rec := Decide(cfg, codec, digest, req, now, records).record;
    var later := records + [rec] + more;
    assert later[|records|] == rec;
    assert DeviceSeen(later, rec.slot, rec.deviceCid);
    DuplicateIff(cfg, codec, digest, req2, now2, later);
  }

  /** A recorded row does not block a different device: its decision is as if the row were not there. */
  lemma OtherDeviceUnaffected(cfg: Config, codec: Serializer, digest: string -> string, req: Request, now: int,
                              records: seq<Record>, req2: Request, now2: int)
    requires Decide(cfg, codec, digest, req, now, records).Recorded?
    requires RequestCid(digest, req2) != RequestCid(digest, req)
    requires Screen(cfg, codec, req2, now2).Proceed?
    ensures Decide(cfg, codec, digest, req2, now2, records + [Decide(cfg, codec, digest, req, now, records).record]).Recorded?
            <==> Decide(cfg, codec, digest, req2, now2, records).Recorded?
  {
    var rec := Decide(cfg, codec, digest, req, now, records).record;
    var slot2, cid2 := Screen(cfg, codec, req2, now2).slot, RequestCid(digest, req2);
    DuplicateIff(cfg, codec, digest, req2, now2, records);
    DuplicateIff(cfg, codec, digest, req2, now2, records + [rec]);
    DeviceSeenIgnoresOtherDevices(records, rec, slot2, cid2);
  }

  /**
   * End to end: a token made for `slotId` and still within its lifetime, sent in the query string
   * of a non-GET request with the right PIN from a device not yet seen for that slot, records the
   * trimmed name and roll for that slot.
   */
  lemma FreshTokenRecords(cfg: Config, codec: Serializer, digest: string -> string, req: Request, now: int,
                          records: seq<Record>, slotId: string, issuedAt: int)
    requires OpensWhatItSeals(codec)
    requires Get(req.args, "token") == Some(CreateToken(codec, slotId, issuedAt)) && CreateToken(codec, slotId, issuedAt) != ""
    requires now - issuedAt <= cfg.ttlSeconds
    requires req.verb != "GET" && FormField(req, "teacher_pin") == cfg.teacherPin
    requires !DeviceSeen(records, Some(slotId), RequestCid(digest, req))
    ensures Decide(cfg, codec, digest, req, now, records) == Recorded(Record(
              |records| + 1, FormField(req, "student_name"), FormField(req, "roll"), Some(slotId), now,
              RequestCid(digest, req), OrEmpty(req.remoteAddr), OrEmpty(req.userAgent)))
  {
    TokenRoundTrip(codec, slotId, issuedAt, cfg.ttlSeconds, now);
    RecordedIff(cfg, codec, digest, req, now, records);
  }

  /** The same token past its lifetime answers the expiry message, whatever the PIN, device and table. */
  lemma StaleTokenExpires(cfg: Config, codec: Serializer, digest: string -> string, req: Request, now: int,
                          records: seq<Record>, slotId: string, issuedAt: int)
    requires OpensWhatItSeals(codec)
    requires Get(req.args, "token") == Some(CreateToken(codec, slotId, issuedAt)) && CreateToken(codec, slotId, issuedAt) != ""
    requires now - issuedAt > cfg.ttlSeconds
    ensures Decide(cfg, codec, digest, req, now, records) == TokenExpired
  {
    TokenRoundTrip(codec, slotId, issuedAt, cfg.ttlSeconds, now);
  }

  /** Leading and trailing whitespace around the teacher PIN is forgiven. */
  lemma PaddedPinAccepted(req: Request, pin: string, lead: string, trail: string)
    requires AllSpace(lead) && AllSpace(trail)
    requires pin == [] || (!IsSpace(pin[0]) && !IsSpace(pin[|pin| - 1]))
    requires Get(req.form, "teacher_pin") == Some(lead + pin + trail)
    ensures FormField(req, "teacher_pin") == pin
  {
    StripPadded(lead, pin, trail);
  }

  /** A recorded row takes the next AUTOINCREMENT id, which no earlier row carries, and keeps the numbering. */
  lemma RecordedIdIsFresh(cfg: Config, codec: Serializer, digest: string -> string, req: Request, now: int,
                          records: seq<Record>)
    requires NumberedFromOne(records)
    requires Decide(cfg, codec, digest, req, now, records).Recorded?
    ensures forall i :: 0 <= i < |records| ==> records[i].id != Decide(cfg, codec, digest, req, now, records).record.id
    ensures NumberedFromOne(records + [Decide(cfg, codec, digest, req, now, records).record])
  {
    var rec := Decide(cfg, codec, digest, req, now, records).record;
    NumberedIdsAreUnique(records);
    assert forall i :: 0 <= i < |records| ==> (records + [rec])[i] == records[i];
  }

  /**
   * With the default settings (PIN '0000', 600 seconds), a token issued at 0 still records a
   * correct-PIN submission from an unseen device at 600, and gets the expiry answer at 601.
   */
  lemma DefaultConfigScenario(codec: Serializer, digest: string -> string, req: Request, records: seq<Record>,
                              slotId: string)
    requires OpensWhatItSeals(codec)
    requires Get(req.args, "token") == Some(CreateToken(codec, slotId, 0)) && CreateToken(codec, slotId, 0) != ""
    requires req.verb != "GET" && FormField(req, "teacher_pin") == "0000"
    requires !DeviceSeen(records, Some(slotId), RequestCid(digest, req))
    ensures Decide(DefaultConfig, codec, digest, req, 600, records).Recorded?
    ensures Decide(DefaultConfig, codec, digest, req, 600, records).record.slot == Some(slotId)
    ensures Decide(DefaultConfig, codec, digest, req, 601, records) == TokenExpired
  {
    FreshTokenRecords(DefaultConfig, codec, digest, req, 600, records, slotId, 0);
    StaleTokenExpires(DefaultConfig, codec, digest, req, 601, records, slotId, 0);
  }
}
