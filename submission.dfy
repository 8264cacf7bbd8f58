/**
 * The `/submit` route: choose the token, decode it, show the form on GET, and on any other
 * method trim the fields, check the teacher PIN, compute the device id, reject a device already
 * recorded for the slot, and otherwise append one row.
 */
module Submission {
  import opened Options
  import opened Text
  import opened Fingerprint
  import opened TokenCodec
  import opened Ledger

  /** The deployment settings the route reads: TEACHER_PIN and QR_TTL_SECONDS. */
  datatype Config = Config(teacherPin: string, ttlSeconds: int)

  /** The defaults used when the environment sets nothing. */
  const DefaultConfig: Config := Config("0000", DefaultTtlSeconds)

  /**
   * The parts of an HTTP request the route reads: the method, the query string, the form body,
   * `remote_addr` and the User-Agent header (each of the last two possibly absent).
   */
  datatype Request = Request(
    verb: string,
    args: map<string, string>,
    form: map<string, string>,
    remoteAddr: Option<string>,
    userAgent: Option<string>)

  /** What the route answers. */
  datatype Outcome =
    | MissingToken                       // 'Missing token', 400
    | TokenExpired                       // 'Token expired (QR TTL passed).', 400
    | InvalidToken                       // 'Invalid token.', 400
    | ShowForm(slot: Option<string>)     // the attendance form for the slot
    | IncorrectPin(slot: Option<string>) // the form again, with 'Incorrect teacher PIN'
    | AlreadyRecorded                    // 'Attendance already recorded from this device for this slot.', 400
    | Recorded(record: Record)           // 'Attendance recorded for ...', after appending `record`

  /** `request.args.get('token') or request.form.get('token')`, with a falsy result read as no token. */
  function SelectToken(req: Request): (token: Option<string>)
    ensures token.None? <==> !Truthy(Get(req.args, "token")) && !Truthy(Get(req.form, "token"))
    ensures token.Some? ==> token.value != "" && (token == Get(req.args, "token") || token == Get(req.form, "token"))
    ensures Truthy(Get(req.args, "token")) ==> token == Get(req.args, "token")
  {
    if Truthy(Get(req.args, "token")) then Get(req.args, "token")
    else if Truthy(Get(req.form, "token")) then Get(req.form, "token")
    else None
  }

  /** `request.form.get(key, '').strip()`. */
  function FormField(req: Request, key: string): string {
    Strip(OrEmpty(Get(req.form, key)))
  }

  /** The device id of the request. */
  function RequestCid(digest: string -> string, req: Request): string {
    DeviceCid(digest, req.remoteAddr, req.userAgent)
  }

  /** The checks made before the ledger is read: an answer, or the slot and trimmed fields to go on with. */
  datatype Screening = Answer(outcome: Outcome) | Proceed(slot: Option<string>, studentName: string, roll: string)

  /** The token, method and PIN checks, in the route's order. None of them reads the ledger. */
  function Screen(cfg: Config, codec: Serializer, req: Request, now: int): (s: Screening)
    ensures s.Proceed? ==> req.verb != "GET" && FormField(req, "teacher_pin") == cfg.teacherPin
    ensures s.Proceed? ==> s.studentName == FormField(req, "student_name") && s.roll == FormField(req, "roll")
    ensures s.Answer? ==> !s.outcome.Recorded? && !s.outcome.AlreadyRecorded?
  {
    match SelectToken(req)
    case None => Answer(MissingToken)
    case Some(token) =>
      match DecodeToken(codec, token, cfg.ttlSeconds, now)
      case Expired => Answer(TokenExpired)
      case Invalid => Answer(InvalidToken)
      case Ok(data) =>
        var slot := SlotOf(data);
        if req.verb == "GET" then Answer(ShowForm(slot))
        else
          var studentName := FormField(req, "student_name");
          var roll := FormField(req, "roll");
          var pin := FormField(req, "teacher_pin");
          if pin != cfg.teacherPin then Answer(IncorrectPin(slot))
          else Proceed(slot, studentName, roll)
  }

  /**
   * The duplicate check and the write: a device already seen under `slot` is refused, otherwise
   * the next row is recorded.
   */
  function Register(records: seq<Record>, slot: Option<string>, studentName: string, roll: string,
                    cid: string, ip: string, userAgent: string, now: int): (o: Outcome)
    ensures o.Recorded? || o.AlreadyRecorded?
    ensures o.Recorded? ==> o.record == Record(|records| + 1, studentName, roll, slot, now, cid, ip, userAgent)
  {
    if HasDevice(QueryRecords(records, slot), cid) then AlreadyRecorded
    else Recorded(Record(|records| + 1, studentName, roll, slot, now, cid, ip, userAgent))
  }

  /** The route's answer to `req` at time `now` against the table rows `records`. */
  function Decide(cfg: Config, codec: Serializer, digest: string -> string, req: Request, now: int,
                  records: seq<Record>): (o: Outcome)
  {
    match Screen(cfg, codec, req, now)
    case Answer(o) => o
    case Proceed(slot, studentName, roll) =>
      Register(records, slot, studentName, roll, RequestCid(digest, req),
               OrEmpty(req.remoteAddr), OrEmpty(req.userAgent), now)
  }

  /**
   * submit(): answers as Decide says; the table gains exactly the recorded row on success and is
   * unchanged otherwise; at most one row per (slot, device id) stays so.
   */
  method Submit(table: AttendanceTable, cfg: Config, codec: Serializer, digest: string -> string,
                req: Request, now: int) returns (o: Outcome)
    requires table.Valid()
    modifies table
    ensures table.Valid()
    ensures o == Decide(cfg, codec, digest, req, now, old(table.records))
    ensures table.records == old(table.records) + (if o.Recorded? then [o.record] else [])
    ensures o.Recorded? ==> forall i :: 0 <= i < |old(table.records)| ==> old(table.records)[i].id != o.record.id
    ensures old(OneRecordPerDevice(table.records)) ==> OneRecordPerDevice(table.records)
  {
    var token := SelectToken(req);
    if token.None? {
      return MissingToken;
    }
    var data := DecodeToken(codec, token.value, cfg.ttlSeconds, now);
    if data.Expired? {
      return TokenExpired;
    }
    if data.Invalid? {
      return InvalidToken;
    }
    var slot := SlotOf(data.payload);
    if req.verb == "GET" {
      return ShowForm(slot);
    }
    var studentName := FormField(req, "student_name");
    var roll := FormField(req, "roll");
    var pin := FormField(req, "teacher_pin");
    if pin != cfg.teacherPin {
      return IncorrectPin(slot);
    }
    o := RecordAttendance(table, slot, studentName, roll, RequestCid(digest, req),
                          OrEmpty(req.remoteAddr), OrEmpty(req.userAgent), now);
  }

  /** The POST tail of submit(): query the slot's rows, refuse a device already there, else insert. */
  method RecordAttendance(table: AttendanceTable, slot: Option<string>, studentName: string, roll: string,
                          cid: string, ip: string, userAgent: string, now: int) returns (o: Outcome)
    requires table.Valid()
    modifies table
    ensures table.Valid()
    ensures o == Register(old(table.records), slot, studentName, roll, cid, ip, userAgent, now)
    ensures table.records == old(table.records) + (if o.Recorded? then [o.record] else [])
    ensures o.Recorded? ==> forall i :: 0 <= i < |old(table.records)| ==> old(table.records)[i].id != o.record.id
    ensures old(OneRecordPerDevice(table.records)) ==> OneRecordPerDevice(table.records)
  {
    ghost var before := table.records;
    var rows := QueryRecords(table.records, slot);
    if HasDevice(rows, cid) {
      return AlreadyRecorded;
    }
    HasDeviceInQuery(before, slot, cid);
    table.Insert(studentName, roll, slot, cid, ip, userAgent, now);
    o := Recorded(table.records[|table.records| - 1]);
    if OneRecordPerDevice(before) {
      AppendUnseenKeepsOneRecordPerDevice(before, o.record);
    }
  }
}
