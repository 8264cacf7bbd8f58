# QR attendance: the submission decision and the attendance ledger

A model, in Dafny, of the attendance submission path of the single-file Flask application
`app3.py`. A teacher gives students a link with a signed, time-limited token naming a class
slot. A student opens the link (GET, which shows the form) and posts a name, a roll number and
the teacher PIN. The route then:

1. takes the token from the query string if it is non-empty, otherwise from the form;
2. decodes it: missing, expired, invalid, or a payload from which `data.get('slot')` is read;
3. on a GET, shows the form and writes nothing;
4. on any other method, trims the name, roll and PIN with `str.strip()`;
5. compares the trimmed PIN with the teacher PIN;
6. computes the device id, a digest of `"{ip}|{ua}"`;
7. refuses the request if any row that `query_records(slot)` returns has that device id;
8. otherwise appends one row to the `attendance` table.

The modules follow the pieces of the program:

- `Options` (options.dfy): `None`-or-value, Python truthiness of an optional string, `dict.get`.
- `Text` (text.dfy): `str.strip()` over Python's whitespace characters.
- `Fingerprint` (fingerprint.dfy): `make_device_cid`. The SHA-256 hex digest is a parameter `digest`.
- `TokenCodec` (token_codec.dfy): `create_token` and `decode_token` over an abstract serializer.
  `dumps` seals a payload and its issue time. `loads` opens a token, or answers `None` for any
  token whose signature or payload does not check. A token older than `max_age` seconds is
  expired, which is the serializer's rule.
- `Ledger` (ledger.dfy): the `attendance` rows as a sequence in insertion order, `query_records`
  (slot filter and newest-first order), and the class `AttendanceTable`, whose `Insert` is
  `insert_record`.
- `Submission` (submission.dfy): `Screen`, the token, method and PIN checks, which never read
  the table; `Register`, the duplicate check and the new row; `Decide`, the whole answer; and
  `Submit`, the route as a method on an `AttendanceTable`, proved to answer as `Decide` says and
  to change the table only by appending the recorded row.
- `SubmissionProperties` (submission_properties.dfy): what the route guarantees, for every
  request and every table.

Notable facts about the code that the model proves:

- The PIN check comes before the duplicate check. A device that already has a row for the slot
  still gets the PIN error when its PIN is wrong.
- The duplicate check looks at device ids only. Names, rolls and timestamps play no part. The
  code comment speaks of 24 hours, but there is no time window.
- `query_records` filters only when the slot is truthy. A submission whose slot is `''` (a
  token made for an empty slot name) or `None` is therefore refused when its device has a row
  in any slot at all. A submission for a named slot is not blocked by the device's rows under
  other slots.
- The table keeps at most one row per (slot, device id): every recorded submission preserves it.
- When neither of two ips contains `|` (as holds for remote addresses), the raw fingerprints
  `ip|ua` of the two requests are equal exactly when both ips and both user agents are equal.
  Any ip of the form `p|q` shares its raw string with the different pair whose ip is `p`.

Token revocation, an active-slot registry and record purging belong to other versions of this
application. `app3.py` has none of them, and the model follows `app3.py`.

## Model

| member | source | states |
|---|---|---|
| `Text.TrimStartIsSuffix` | app3.py:187-189 | removing leading whitespace leaves the suffix after an all-whitespace prefix, starting with a non-space |
| `Text.TrimEndIsPrefix` | app3.py:187-189 | removing trailing whitespace leaves the prefix before an all-whitespace suffix, ending with a non-space |
| `Text.StripTrimsBothEnds` | app3.py:187-189 | a stripped field neither starts nor ends with whitespace, and is empty exactly when the field was all whitespace |
| `Text.StripRemovesOnlyPadding` | app3.py:187-189 | strip removes whitespace at the two ends and nothing else: the result is an infix with whitespace on both sides |
| `Text.StripPadded` | app3.py:187-189 | whitespace added around a value with non-space ends is removed exactly |
| `Text.StripIdempotent` | app3.py:187-189 | stripping twice is stripping once |
| `Fingerprint.DeviceCidDependsOnlyOnIpAndAgent` | app3.py:100-104 | the device id depends only on the ip and the user agent; a missing one gives the same id as `''` |
| `Fingerprint.BarPosition` | app3.py:103 | in the raw string, with no bar character in the ip, the separator sits exactly at the ip's length |
| `Fingerprint.RawFingerprintInjective` | app3.py:103 | with no bar character in either ip, two raw strings are equal exactly when both ips and both user agents are |
| `Fingerprint.RawFingerprintAmbiguousWithBar` | app3.py:103 | for every p, q and ua, the pair (p + bar + q, ua) and the different pair (p, q + bar + ua) share one raw string |
| `Fingerprint.DeviceCidSeparatesDevices` | app3.py:100-104 | with an injective digest and ips free of the bar character, two requests share a device id exactly when they share ip and user agent |
| `TokenCodec.DecodeMonotoneInTime` | app3.py:112-119 | an expired token stays expired later, a token that decodes now decodes to the same payload at every earlier time, and invalidity does not depend on time or lifetime |
| `TokenCodec.TokenRoundTrip` | app3.py:107-119 | a token from create_token decodes to `{'slot': slot_id}` (so `get('slot')` is the slot) within its lifetime, and is expired after it |
| `TokenCodec.DefaultTtlScenario` | app3.py:51 | with the 600-second default, a token issued at 0 decodes at 599 and 600 and is expired at 601 |
| `Ledger.SlotFilter` | app3.py:90 | `WHERE slot=?` keeps each row of that slot as often as the table holds it, and no other row |
| `Ledger.InsertByTime` | app3.py:90 | inserting into a newest-first sequence keeps it newest first and adds exactly that row |
| `Ledger.SortNewestFirst` | app3.py:90-92 | `ORDER BY timestamp DESC` yields a newest-first permutation of its input |
| `Ledger.QueryRecords` | app3.py:86-97 | query_records(slot) returns newest first exactly the rows of `slot` when it is truthy, every row when it is `None` or `''` |
| `Ledger.HasDeviceInQuery` | app3.py:194-198 | the device test on the query's result holds exactly when a row the query selects has that device id |
| `Ledger.DeviceSeenPersists` | app3.py:194-200 | appending rows never un-sees a device |
| `Ledger.DeviceSeenIgnoresOtherDevices` | app3.py:194-200 | a row of another device does not change whether a device is seen |
| `Ledger.AppendUnseenKeepsOneRecordPerDevice` | app3.py:194-200 | appending a row whose device is not seen under its slot keeps one row per (slot, device id) |
| `Ledger.NumberedIdsAreUnique` | app3.py:65 | rows numbered 1, 2, 3, ... have pairwise different ids, and the next id is used by none of them |
| `Ledger.AttendanceTable.constructor` | app3.py:60-76 | a fresh table is empty and its ids are in order |
| `Ledger.AttendanceTable.Insert` | app3.py:78-84 | insert_record appends exactly one row, with the next id (carried by no earlier row), the given fields and the time; earlier rows are unchanged |
| `Submission.SelectToken` | app3.py:174-176 | there is no token exactly when neither the query string nor the form has a non-empty one; a chosen token is non-empty and comes from one of the two; a non-empty query-string token wins |
| `Submission.Screen` | app3.py:174-191 | the checks before the table is read: passing them needs a non-GET method and the right trimmed PIN, and yields the trimmed name and roll; no early answer is a record or a duplicate refusal |
| `Submission.Register` | app3.py:192-200 | past the checks, the answer is a duplicate refusal or the next row, holding the given fields |
| `Submission.RecordAttendance` | app3.py:192-201 | the query-then-insert tail answers as Register, appends exactly the recorded row or nothing, gives it a fresh id, and keeps one row per (slot, device id) |
| `Submission.Submit` | app3.py:172-201 | the route answers as Decide, appends exactly the recorded row on success and nothing otherwise, gives that row an id no earlier row has, and keeps one row per (slot, device id) |
| `SubmissionProperties.MissingTokenIff` | app3.py:174-176 | the answer is 'Missing token' exactly when neither the query string nor the form has a non-empty token |
| `SubmissionProperties.QueryTokenWins` | app3.py:174 | a non-empty query-string token is chosen over the form's |
| `SubmissionProperties.ExpiredIff` | app3.py:177-180 | the expiry answer comes exactly from an expired token, whatever the PIN and the table |
| `SubmissionProperties.InvalidIff` | app3.py:177-182 | 'Invalid token.' comes exactly from a token that does not open, whatever the PIN and the table |
| `SubmissionProperties.GetShowsForm` | app3.py:183-185 | the form is shown exactly for a GET with a good token, for the slot the token names |
| `SubmissionProperties.PinCheckedBeforeDuplicate` | app3.py:187-191 | past the token checks, a non-GET request gets the PIN error exactly when its trimmed PIN is not the teacher PIN, whatever the table holds |
| `SubmissionProperties.ScreeningIgnoresLedger` | app3.py:174-191 | every answer given before the table is read is the same for every table and is never a record |
| `SubmissionProperties.DuplicateIff` | app3.py:192-199 | past the checks, the duplicate refusal comes exactly when a row the slot's query selects has the request's device id |
| `SubmissionProperties.RecordedIff` | app3.py:172-201 | a row is recorded exactly when all checks pass and the device is unseen; it holds the trimmed name and roll, the slot, the device id, the raw ip and user agent or `''`, the time and the next id |
| `SubmissionProperties.RecordingKeepsOneRecordPerDevice` | app3.py:194-200 | a recorded row keeps one row per (slot, device id) |
| `SubmissionProperties.FalsySlotSeesEverySlot` | app3.py:89-92 | with a `None` or `''` slot, the request is refused exactly when its device has a row in any slot |
| `SubmissionProperties.NamedSlotSeesOnlyItself` | app3.py:89-90 | with a truthy slot, the request is refused exactly when its device has a row for that slot |
| `SubmissionProperties.DuplicateIsPermanent` | app3.py:192-200 | after a device is recorded for a slot, every later request from it for that slot that passes the checks is refused, whatever its name, roll, time or later rows |
| `SubmissionProperties.OtherDeviceUnaffected` | app3.py:192-200 | a recorded row does not change the answer to a request from another device |
| `SubmissionProperties.FreshTokenRecords` | app3.py:107-201 | a token made for a slot, within its lifetime, with the right PIN from an unseen device, records the trimmed fields for that slot |
| `SubmissionProperties.StaleTokenExpires` | app3.py:107-180 | the same token past its lifetime gets the expiry answer whatever the PIN, device and table |
| `SubmissionProperties.PaddedPinAccepted` | app3.py:189 | whitespace around the submitted PIN is forgiven |
| `SubmissionProperties.RecordedIdIsFresh` | app3.py:65 | a recorded row takes an id no earlier row carries, and the table stays numbered 1, 2, 3, ... |
| `SubmissionProperties.DefaultConfigScenario` | app3.py:50-51 | with PIN '0000' and 600 seconds, a token issued at 0 records a correct submission from an unseen device at 600 and gets the expiry answer at 601 |

## Left out

- HTTP routing and rendering: templates, the HTML constants, status codes. The outcome carries
  the answer's kind and, for a write, the row. In the code the PIN error is rendered with
  status 200, while the token, missing-token and duplicate answers are 400.
- The `/generate` route and QR image generation (PNG, base64): a foreign library and bytes.
  `create_token` itself is modelled.
- The signing, timestamping and URL-safe encoding of itsdangerous. The serializer is abstract;
  only the round trip (`OpensWhatItSeals`) is assumed where a lemma needs it.
- `TokenCodec.DecodeToken`: a token whose timestamp lies in the future is accepted here. Whether
  the serializer rejects a negative age depends on its version, which app3.py does not pin.
- `TokenCodec.SlotOf`: payload values are strings. create_token always receives a string
  (app3.py:150), so any other payload needs QR_SECRET to forge. Such payloads would behave
  differently from the model: a non-dict payload fails at `data.get`. A number or boolean slot
  is shown on GET, and on POST it is bound into the query and the insert, so it records
  attendance; `0` or `false` is falsy and takes the unfiltered query. A list or object slot
  fails only on POST, when the database binds it.
- SHA-256 and UTF-8 encoding: the digest is the parameter `digest`. Only
  `Fingerprint.DeviceCidSeparatesDevices` assumes anything of it, namely injectivity. SHA-256
  cannot be injective on all strings, so the "same id, therefore same ip and user agent"
  direction of that lemma idealises collision resistance.
- SQLite connections, the pandas DataFrame, the admin pages, the admin password, the session
  cookie and the Excel export: I/O and web-session plumbing.
- `Ledger.AttendanceTable.constructor`: models `init_db` on a fresh database only; the
  `CREATE TABLE IF NOT EXISTS` on an existing database keeps its rows.
- Timestamps are integers. The code stores `datetime.utcnow().isoformat()` text, whose string
  order is the time order. The route reads the clock twice, once in the token check and once in
  `insert_record`; the model uses one instant `now` for both.
- `Ledger.QueryRecords`: rows with equal timestamps come in an order SQLite does not fix; the
  contract states the order only up to such ties.
- Environment configuration: TEACHER_PIN and QR_TTL_SECONDS are the `Config` parameter, with
  the defaults `'0000'` and 600 in `Submission.DefaultConfig`.
- Which HTTP methods reach the route is Flask's business. The method is a string, and every
  method other than `GET` takes the POST path, as the code's comparison does.
- Concurrent submissions racing between the duplicate check and the insert: the code has no
  locking, and concurrency is outside the model.
