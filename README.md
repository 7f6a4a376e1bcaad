# smockron in Dafny

smockron is a distributed rate limiter built from two parts. *Gatekeepers* sit in front of a web service. Each one keeps a table of identifiers that must wait until a given millisecond, and decides per request: pass it (ACCEPTED), hold it until that time (DELAYED), or refuse it when the wait would exceed 5000 ms (REJECTED). It then publishes an accounting record of the decision. The *master* receives those records, charges each access against a per-identifier "next allowed" time kept in a key-value store, and publishes a `DELAY_UNTIL` control message when that time lies in the future.

This project models the JavaScript/Go code of that design and proves properties of the model:

- **`Admission`, `Gatekeeper`, `Middleware`** — the gatekeepers' delay table and verdict.
  - `_delayUntil` is a maximum-merge and `_cleanup` sweeps expired entries.
  - The request handler of both the plain gatekeeper and the Express middleware is modelled.
  - The middleware's one-slot wait queue and its timers are included.
  - Both gatekeepers are classes over maps with the clock as a parameter; a timer firing is an explicit method call.
- **`ZmqWire`, `Text`** — the ZeroMQ multipart messages between gatekeeper and master:
  - the connection-string rule that puts the control socket on the next port;
  - `sendAccounting` and `_parseAccounting`;
  - `sendControl` and `_parseControl`;
  - the older variants of `master/lib/index.js`.
- **`Rates`** — `parseInterval`, `parseRate` and `configureDomains` of the master. Both regular expressions are modelled by explicit scanning, with grammar lemmas in both directions: every string of the documented shape is accepted with its value, and every accepted string has that shape.
- **`Store`, `Master`**:
  - `Store` holds the key layout, the next-allowed rule (the Lua script), and the `max(ts, now)` clamp of `execScript` and of the Go `LogAccess`, including the NaN that a missing time writes before the script fails. It also models the key-prefix removal of `getAllForDomain`, and a store class whose keys expire.
  - `Master` models `_onAccounting`, which charges an access and publishes `DELAY_UNTIL` when the result is in the future.
- **`Bytes`, `Timestamp`, `Socket`, the message modules and `Protocol`** — the binary UDP protocol iteration:
  - packet framing;
  - the 8-byte timestamp codec, including its in-place write into a caller's buffer;
  - the accounting, delay, hello, sync and hello-reply messages;
  - dispatch by message type.

  Several of these codecs are broken as written. The model keeps each broken version, proves that it fails (see "Findings"), and proves the round trip of the corrected version.
- **`Prototype`** — the sliding-window prototype of `misc/prototype/test.js`: a bounded history of admitted times, the `until` threshold and the verdict.

Duplicated source text is modelled once. This covers:
- the connection-string parser, which appears in four files;
- `_delayUntil` and `_cleanup`, which appear in both gatekeepers;
- `parseInterval`/`parseRate`/`configureDomains`/`_onAccounting`, which appear in two masters;
- the Lua script, which appears three times.

The rows below cite one copy; the module comments name the others.

## Model

| member | source | states |
|---|---|---|
| Admission.Raise | lib/smockron/gatekeeper/index.js:41-44 | after `_delayUntil(id, ts)` the entry is the maximum of the old entry (if any) and `ts`; the key set gains only `id`; every other identifier keeps its entry |
| Admission.RaiseIdempotent | lib/smockron/gatekeeper/index.js:41-44 | applying the same update twice leaves the table of applying it once |
| Admission.RaiseCommutes | lib/smockron/gatekeeper/index.js:41-44 | two control updates commute, so delivery order does not matter |
| Admission.RaiseAllIsMaximum | lib/smockron/gatekeeper/index.js:41-44 | after any run of updates an identifier is present iff it was or was named; its entry is at least every time sent for it and at least its old entry, and is one of those values |
| Admission.Unexpired | lib/smockron/gatekeeper/index.js:19-26 | the table after `_cleanup(now)` holds exactly the entries whose time is not before `now`, with their values |
| Admission.SweepExpired | lib/smockron/gatekeeper/index.js:22-25 | the deleting loop over the keys leaves exactly `Unexpired(m, now)` |
| Admission.Classify | lib/smockron/gatekeeper/index.js:63-75 | ACCEPTED iff the entry is absent, zero or not after `now`; REJECTED iff it is after `now + 5000`; DELAYED iff `now < entry <= now + 5000`, until the entry, wait in (0, 5000] |
| Admission.RecordFor | lib/smockron/gatekeeper/index.js:58-73 | the accounting record carries the identifier and `rcvTS = now`; `delayTS` is set exactly for DELAYED, to the hold time |
| Gatekeeper.Gatekeeper.constructor | lib/smockron/gatekeeper/index.js:11 | the table starts empty |
| Gatekeeper.Gatekeeper.DelayUntil | lib/smockron/gatekeeper/index.js:41-44 | the new table is the maximum-merge `Raise` of the old one |
| Gatekeeper.Gatekeeper.OnControl | lib/smockron/gatekeeper/index.js:32-39 | a command other than `DELAY_UNTIL` (or without a readable time) leaves the table unchanged; `DELAY_UNTIL` raises the identifier's entry |
| Gatekeeper.Gatekeeper.Cleanup | lib/smockron/gatekeeper/index.js:19-26 | the table loses exactly its entries before `now` |
| Gatekeeper.Gatekeeper.Handle | lib/smockron/gatekeeper/index.js:54-78 | one record per request, for the identifier at `rcvTS = now`: ACCEPTED iff the entry is not after `now`, REJECTED iff after `now + 5000`, DELAYED iff after `now`, with `delayTS` the entry |
| Gatekeeper.ControlThenRequest | lib/smockron/gatekeeper/index.js:32-74 | once a `DELAY_UNTIL` for a later time has arrived from the master, a request from that identifier is never accepted before that time |
| Middleware.TimerWait | gatekeeper/node-middleware/lib/index.js:159-165 | the wait is the time left until a truthy entry, otherwise 10 ms |
| Middleware.Smockron.constructor | gatekeeper/node-middleware/lib/index.js:107-109 | table, queue and timers start empty, and the queue invariant holds |
| Middleware.Smockron.DelayUntil | gatekeeper/node-middleware/lib/index.js:139-142 | maximum-merge on `delayed[identifier]`; queue and timers untouched |
| Middleware.Smockron.Cleanup | gatekeeper/node-middleware/lib/index.js:117-124 | exactly the entries before `now` are deleted; queue and timers untouched |
| Middleware.Smockron.EnsureTimer | gatekeeper/node-middleware/lib/index.js:156-171 | the identifier's timer is replaced by one armed with `TimerWait`; nothing else changes |
| Middleware.Smockron.Enqueue | gatekeeper/node-middleware/lib/index.js:144-154 | returns false and changes nothing when the slot is taken; otherwise returns true, the queue holds exactly the one callback and the timer is armed; every queued identifier keeps one callback and a timer |
| Middleware.Smockron.Dequeue | gatekeeper/node-middleware/lib/index.js:173-186 | releases at most one callback (the last queued); when the queue empties both queue and timer entries are deleted, otherwise the timer is re-armed; the invariant is kept |
| Middleware.Smockron.Handle | gatekeeper/node-middleware/lib/index.js:196-219 | REJECTED iff the entry is beyond `now + 5000` or it is after `now` and the slot is taken (the too-far case never touches the queue); DELAYED requests are enqueued with their timer; ACCEPTED iff no later entry |
| ZmqWire.ParseAddress | lib/smockron/gatekeeper/client.js:15-37 | the connection-string expression matches (otherwise the parser throws) exactly when the string has no line terminator, since `.` stops at one |
| ZmqWire.ParseConnectionString | lib/smockron/gatekeeper/client.js:15-37 | succeeds exactly when a string without line terminators is given; an undefined argument throws "Invalid connection string" |
| ZmqWire.AddressRoundTrip | lib/smockron/gatekeeper/client.js:17-32 | a rendered `scheme://host:port` (word scheme, any host without line terminators) parses back to the same scheme, host and port |
| ZmqWire.ControlIsNextPort | lib/smockron/master/server.js:14-36 | the control endpoint has the accounting endpoint's scheme and host and port + 1, and parsing the accounting endpoint again gives the same pair |
| ZmqWire.DefaultsApply | lib/smockron/gatekeeper/client.js:22-29 | any host without `:` or line terminators (a dotted name or an IPv4 address included) gets scheme `tcp` and port 10004, and keeps its text |
| ZmqWire.ParseControl | lib/smockron/gatekeeper/client.js:58-76 | succeeds iff there are at least three parts; the domain loses one trailing NUL, the command and identifier are parts 1 and 2, the arguments the rest in order; `ts` only for `DELAY_UNTIL` with an argument |
| ZmqWire.SendAccounting | lib/smockron/gatekeeper/client.js:78-92 | six frames: the domain with a NUL, the status name, the identifier, `rcvTS` in decimal, `delayTS` in decimal or empty exactly when not supplied, and `logInfo` or empty when not supplied |
| ZmqWire.StatusFromName | lib/smockron/master/server.js:75 | the three status names and no other text are recognised, and the lookup inverts the naming |
| ZmqWire.ParseAccounting | lib/smockron/master/server.js:62-98 | fewer than two parts throw; `RESYNC` gives a resync for the domain whatever follows; a status with fewer than five parts throws; any other text throws "Unknown message"; `delayTS` only from a non-empty part 4 |
| ZmqWire.SendControl | lib/smockron/master/server.js:100-112 | frames are domain with NUL, command, the identifier only when non-empty, then the arguments |
| ZmqWire.DelayUntilReachesGatekeeper | lib/smockron/master/server.js:100-112 | the gatekeeper parses a `DELAY_UNTIL` from the master back to its domain, identifier, argument and time |
| ZmqWire.ControlRoundTrip | lib/smockron/gatekeeper/client.js:58-76 | control frames with an identifier parse back to domain, command, identifier and arguments |
| ZmqWire.EmptyIdentifierShiftsArguments | lib/smockron/master/server.js:105-107 | with an empty identifier the frame is left out and the first argument is read as the identifier |
| ZmqWire.AccountingRoundTrip | lib/smockron/master/server.js:62-98 | the master parses a gatekeeper's six frames back to its domain, status, identifier, receive time, delay time and whether log information was sent |
| ZmqWire.ParseAccountingLegacy | master/lib/index.js:63-84 | the older parser succeeds iff there are five parts; status unchecked; domain without NUL; `delayTS` only from a non-empty part 4 |
| ZmqWire.SendControlLegacy | master/lib/index.js:86-95 | the older frames always carry the identifier: `[domain+NUL, command, identifier] ++ args`, which the gatekeeper always parses |
| ZmqWire.LegacyControlRoundTrip | master/lib/index.js:86-95 | the older control frames parse back to domain, command, identifier and arguments, even for an empty identifier |
| ZmqWire.LegacyAccountingRoundTrip | master/lib/index.js:63-84 | the older master parses a gatekeeper's frames back to its domain, status name, identifier and times |
| Text.NatToString | lib/smockron/gatekeeper/client.js:78-92 | a number is written as a non-empty run of digits without a leading zero |
| Text.ParseDecimal | lib/smockron/gatekeeper/client.js:73 | a number exactly for a non-empty run of digits, with the value of those digits; NaN (`None`) for anything else (round trip: `DecimalRoundTrip`) |
| Text.DecimalRoundTrip | lib/smockron/gatekeeper/client.js:72-74 | every number written into a frame is read back unchanged |
| Text.StripNul | lib/smockron/gatekeeper/client.js:67 | exactly one trailing NUL is dropped, and nothing else changes |
| Text.StripNulAfterNul | lib/smockron/gatekeeper/client.js:67 | a domain sent with its NUL comes back as the domain |
| Rates.ParseInterval | lib/smockron/master/index.js:16-18 | a number is returned unchanged |
| Rates.IntervalGrammar | lib/smockron/master/index.js:20-45 | every string of the shape space, optional count, space, unit of the table, space is accepted, with value count (1 when omitted) times the unit's multiplier |
| Rates.ParseIntervalText | lib/smockron/master/index.js:40-48 | accepts exactly when the trimmed unit is in the suffix table, and otherwise throws "bad interval"; the value is stated by `IntervalGrammar` and `ParsedIntervalHasShape` |
| Rates.ParsedIntervalHasShape | lib/smockron/master/index.js:40-48 | every accepted string has that shape, and the value returned is the shape's value (anything else throws "bad interval") |
| Rates.RoundDivNearest | lib/smockron/master/index.js:57 | the rounded quotient is the nearest integer to `interval / N`, halves rounded up |
| Rates.RateGrammar | lib/smockron/master/index.js:51-58 | a string `N per X` or `N/X` reads as `round(parseInterval(X) / N)`, and fails exactly when `X` is not an interval or `N` is 0 |
| Rates.RateParts | lib/smockron/master/index.js:52 | no match without a leading count; the interval text matched runs to the end of the line and starts with no white space (its shape both ways: `RatePartsHaveShape`, `RatePartsOfShape`) |
| Rates.ParseRateText | lib/smockron/master/index.js:51-58 | no match throws "bad rate"; an accepted rate has a count above 0 and an interval text that parses, and its value is the nearest integer to interval / count, halves up; with a valid interval it fails exactly on a 0 count |
| Rates.RatePartsHaveShape | lib/smockron/master/index.js:52-54 | every string the rate expression matches splits as `N per X` or `N/X`, read with that count and interval text |
| Rates.ParsedRateHasShape | lib/smockron/master/index.js:51-58 | every accepted rate has that shape, with `N > 0`, `X` an interval, and the value `round(parseInterval(X) / N)` (anything else throws "bad rate") |
| Rates.DomainBurst | lib/smockron/master/index.js:68-73 | a numeric or all-digit burst is that count of intervals (NaN, here `None`, without an interval); any other string is parsed as an interval, and throws exactly when that parse throws; a missing burst throws |
| Rates.ConfigureDomain | lib/smockron/master/index.js:63-73 | configures exactly when its interval derivation succeeds and then its burst derivation succeeds; a truthy rate gives the interval `parseRate(rate)`, else a truthy interval gives `parseInterval(interval)`, else the interval is undefined; a counting burst is interval × count, any other burst string is `parseInterval(burst)`; a missing burst throws |
| Rates.RateInterval | lib/smockron/master/index.js:64-65 | a numeric rate throws (numbers have no `match`); a string rate gives `Some(parseRate(rate))` and throws exactly when `parseRate` does |
| Rates.DomainInterval | lib/smockron/master/index.js:64-67 | a truthy rate decides the interval; else a truthy interval is parsed, throwing exactly when its parse does; else the interval is undefined |
| Rates.ConfigureFrom | lib/smockron/master/index.js:62-74 | no domains leaves the table as it was, and a domain that throws makes the whole configuration throw (contents: `ConfigureSucceeds`, `ConfigureContents`) |
| Rates.ConfigureRejects | lib/smockron/master/index.js:64-73 | a domain is refused when its truthy rate is a number or does not parse, when its truthy interval does not parse (with no truthy rate), when a burst string that is not a count does not parse, or when it has no burst |
| Rates.ConfigureDomains | lib/smockron/master/index.js:60-76 | the loop over the configured domains computes `ConfigureFrom(map[], specs)` |
| Rates.ConfigureSucceeds | lib/smockron/master/index.js:60-76 | configuration succeeds exactly when every domain configures |
| Rates.ConfigureContents | lib/smockron/master/index.js:60-76 | with distinct names the table holds every domain's configuration under its name and nothing else changes |
| Rates.RateOverridesInterval | lib/smockron/master/index.js:64-67 | a truthy `rate` decides the interval whatever `interval` says |
| Rates.BurstDigitsSame | lib/smockron/master/index.js:68-71 | an all-digit burst string derives the same burst as that number |
| Rates.BurstDigitsEqualsCount | lib/smockron/master/index.js:68-71 | a domain with an all-digit burst string configures exactly as with that number of intervals |
| Rates.BurstWithoutInterval | lib/smockron/master/index.js:64-73 | without rate or interval a numeric burst is undefined, while a burst given as an interval string stands |
| Store.Key | lib/smockron/master/datastore.js:9-11 | the key is `throttle;`, the domain, `;` and the identifier, each at its position |
| Store.NextAllowed | lib/smockron/master/datastore.js:17-21 | the new value is one interval after the later of the previous value and the burst-window start `now - burst` (no previous value: after the window start) |
| Store.NextAllowedGrows | lib/smockron/master/datastore.js:17-21 | with a non-negative interval the value never decreases, and `new >= prev + interval` |
| Store.NaNErasesCharge | lib/smockron/master/datastore.js:17-22 | a stored NaN is read as no previous value, so a charged time inside the window is forgotten and the next run restarts from the window start |
| Store.AtOneInstantValue | lib/smockron/master/datastore.js:13-25 | `k` accesses at one instant from an empty key leave `now - burst + k * interval` |
| Store.BurstAllowance | lib/smockron/master/datastore.js:13-25 | with a burst of `b` intervals, the result after `k` accesses at one instant is after `now` exactly when `k > b` |
| Store.NanosToMillis | master/datastore.go:51 | the millisecond count is the nanosecond count divided by 10^6, truncated toward zero |
| Store.FindMatch | lib/smockron/master/datastore.js:84 | a match found of `/throttle;[^;]+;/` starts at or after the search position and ends where the expression's match from there ends |
| Store.MatchEnd | lib/smockron/master/datastore.js:84 | a match from a position spans `throttle;`, a non-empty run without `;`, and the `;` that ends it |
| Store.FindMatchLeftmost | lib/smockron/master/datastore.js:84 | the match found is the leftmost one, and none is reported only when no position matches |
| Store.StripKeyPrefix | lib/smockron/master/datastore.js:84 | without a match the key is unchanged; otherwise the leftmost match (`throttle;`, a non-empty run without `;`, and `;`) is cut out and the text on both sides of it is kept |
| Store.StripRecoversIdentifier | lib/smockron/master/datastore.js:84 | for a non-empty domain without `;` removing the prefix from `Key(domain, id)` gives exactly `id` |
| Store.StripNeedsPlainDomain | lib/smockron/master/datastore.js:84 | with a `;` in the domain, or an empty domain, the identifier is not recovered |
| Store.DataStore.constructor | lib/smockron/master/datastore.js:3-6 | the store starts empty |
| Store.DataStore.Get | lib/smockron/master/datastore.js:15-23 | a key reads as its value (a number or a NaN) exactly while it is stored and its expiry time has not passed |
| Store.DataStore.RunScript | lib/smockron/master/datastore.js:13-25 | the script returns `NextAllowed` of the value read (a NaN read like an absent value), stores it and sets the key's expiry to `now + burst`; when that time is not after the clock, `pexpireat` deletes the key instead; no other key changes |
| Store.DataStore.LogAccess | lib/smockron/master/datastore.js:13-43 | the script runs on the key of domain and identifier with time `max(ts, now)`; an undefined interval or burst writes nothing; a missing time stores NaN under the key, drops its expiry and yields no value; otherwise the key gets the result with expiry `max(ts, now) + burst`, or is deleted when that expiry is not after `now` (burst 0 and `ts <= now`) |
| Store.DataStore.LogAccessNanos | master/datastore.go:45-52 | the Go store keeps the later of the two times, truncates it to milliseconds and runs the same rule, storing the result with its expiry or deleting the key when that expiry is not after the clock |
| Store.DataStore.GetAllForDomain | lib/smockron/master/datastore.js:65-90 | one entry per key, in order: the key with its prefix removed and the value stored under it |
| Store.ListedIdentifiers | lib/smockron/master/datastore.js:65-90 | listing a plain domain's keys gives back the identifiers they were stored under |
| Master.ChargedTime | lib/smockron/master/index.js:92-98 | ACCEPTED is charged at its receive time, DELAYED at the time it was held until, and any other status at no time |
| Master.Charge | lib/smockron/master/index.js:82-98 | an unknown domain, REJECTED or another status yields no time; a time is yielded exactly when the script writes and a charged time exists, and it is the next-allowed rule at `max(ts, now)` with the domain's interval and burst |
| Master.ChargeAdvances | lib/smockron/master/index.js:92-108 | an ACCEPTED access reported at once moves the identifier's time at least one interval past its previous time and past the window start |
| Master.DelayedChargedAtDelayTime | lib/smockron/master/index.js:96-97 | a DELAYED request is charged from the time it was held until |
| Master.Master.constructor | lib/smockron/master/index.js:5-14 | a master starts with its configured domains, an empty store and nothing sent |
| Master.Master.Account | lib/smockron/master/index.js:82-124 | the result is `Charge`; an unknown domain, REJECTED or an undefined interval or burst leaves the store unchanged; a missing charged time leaves NaN without expiry; otherwise the new time is stored with expiry `max(ts, now) + burst`, and the key is deleted when that expiry is not after `now`; a `DELAY_UNTIL` is published exactly when the new time is after `now` |
| Master.Master.OnAccounting | lib/smockron/master/index.js:82-124 | a parsed accounting message is charged by its status as in `Account`: the result, NaN without expiry for a message without its time, the stored time with expiry `max(ts, now) + burst` (or the key deleted when that is not after `now`), and the publish rule; REJECTED changes nothing and sends nothing |
| Master.Master.OnAccountingLegacy | master/lib/index.js:262-304 | the older master charges on its unchecked status text exactly as `Account` does: the same result, the same stored values and expiry times (NaN without expiry, the stored time with expiry `max(ts, now) + burst` or the key deleted), and the same publish rule |
| Master.DelayFramesReachGatekeeper | lib/smockron/master/index.js:109-117 | every published `DELAY_UNTIL` reaches the gatekeeper as that command and time for the charged identifier (with the newer master, when the identifier is non-empty) |
| Bytes.U16Bytes | lib/smockron/socket.js:70 | two bytes, high first, whose value is the number |
| Bytes.U16BytesLE | lib/smockron/message/hello.js:16 | two bytes, low first, whose value is the number |
| Bytes.U16RoundTrip | lib/smockron/socket.js:22 | reading a written word gives the number, and writing a read word gives the bytes |
| Bytes.U32Bytes | lib/smockron/message/ts.js:19 | four bytes |
| Bytes.U32RoundTrip | lib/smockron/message/ts.js:3 | reading a written 32-bit word gives the number, and writing a read word gives the bytes |
| Bytes.U32Pair | lib/smockron/message/ts.js:3 | the two words of an 8-byte value read back separately |
| Timestamp.EncodeStamp | lib/smockron/message/ts.js:9-21 | absent or zero writes 8 zero bytes; the write succeeds iff the high word fits in 32 bits; the result is 8 bytes |
| Timestamp.ReadStamp | lib/smockron/message/ts.js:2-8 | fewer than 8 bytes throw; a time read is never zero (zero reads as absent) |
| Timestamp.Canon | lib/smockron/message/ts.js:4-5 | a positive time is kept, and what is kept is never zero |
| Timestamp.StampRoundTrip | lib/smockron/message/ts.js:2-21 | reading a written time gives it back, a zero time as absent |
| Timestamp.StampBytesRoundTrip | lib/smockron/message/ts.js:2-21 | writing a time read from 8 bytes gives those bytes back |
| Timestamp.WriteTimestamp | lib/smockron/message/ts.js:9-21 | succeeds iff the time is writable and 8 bytes fit at `offset`; then only bytes `offset..offset+7` change, to the encoding; with room for one word only, that word is written before the throw; otherwise nothing changes |
| Socket.DecodePacket | lib/smockron/socket.js:19-44 | fewer than 4 bytes throw "too-short"; the type is the first big-endian word |
| Socket.ParsePacket | lib/smockron/socket.js:19-44 | the while loop over the segments computes `DecodePacket` |
| Socket.Encode | lib/smockron/socket.js:65-85 | fails iff some part is longer than 0xffff bytes |
| Socket.MakePacket | lib/smockron/socket.js:65-85 | the for loop over the parts computes `Encode` |
| Socket.EncodePartsSnoc | lib/smockron/socket.js:73-79 | appending a part appends its length word and bytes |
| Socket.EncodedLength | lib/smockron/socket.js:65-85 | the packet length is 2 + the sum of (2 + part length) + 2 |
| Socket.EncodePartsLength | lib/smockron/socket.js:73-79 | the encoded parts are as long as their lengths plus two bytes each |
| Socket.SegmentsOfEncoding | lib/smockron/socket.js:24-35 | the loop reads encoded parts back in wire order, stopping at the trailer whatever follows it |
| Socket.PacketRoundTrip | lib/smockron/socket.js:19-85 | parsing a made packet, with any bytes appended, gives back its type and parts when every part is shorter than 0xffff bytes |
| Socket.MaxLengthPartEndsPacket | lib/smockron/socket.js:26-29 | a part of exactly 0xffff bytes is written, but its length reads as the trailer and the parts are lost |
| Socket.RouteOf | lib/smockron/socket.js:51-63 | type 0x0001 goes to hello, 0x0101 to accounting, 0x8001 to delay, 0x8101 to sync, and each route to that type only |
| AccountingMessage.StatusTablesInverse | lib/smockron/message/accounting.js:7-17 | the status tables are inverse: ACCEPTED 0, DELAYED 1, REJECTED 2, and no other code |
| AccountingMessage.ParseAccounting | lib/smockron/message/accounting.js:19-33 | a status code above 2 throws "invalid status"; a parsed message carries the domain, identifier and log parts and the status of its code |
| AccountingMessage.FormatAccounting | lib/smockron/message/accounting.js:35-54 | type 0x0101, six parts; a one-byte status and two 8-byte timestamps; fails iff a time cannot be written |
| AccountingMessage.AccountingRoundTrip | lib/smockron/message/accounting.js:19-54 | parsing a formatted message gives every field back, a zero time as absent |
| DelayUntilMessage.FormatDelayUntilAsWritten | lib/smockron/message/delayuntil.js:15-26 | as written, formatting always throws |
| DelayUntilMessage.ParseDelayUntilAsWritten | lib/smockron/message/delayuntil.js:7-13 | as written, parsing always throws |
| DelayUntilMessage.DelayUntilAsWrittenFails | lib/smockron/message/delayuntil.js:7-26 | neither half of the delay codec as written ever succeeds |
| DelayUntilMessage.FormatDelayUntil | lib/smockron/message/delayuntil.js:15-26 | type 0x8001 and exactly three parts: domain, identifier, 8-byte time; fails iff the time cannot be written |
| DelayUntilMessage.ParseDelayUntil | lib/smockron/message/delayuntil.js:7-13 | succeeds iff there are three parts and the third has 8 bytes; domain and identifier are parts 0 and 1 |
| DelayUntilMessage.DelayUntilRoundTrip | lib/smockron/message/delayuntil.js:7-26 | parsing a formatted delay gives it back, a zero time as absent |
| HelloMessage.FirstNul | lib/smockron/message/hello.js:10 | the position found holds a NUL and none comes before it; none found means the text has no NUL |
| HelloMessage.Split | lib/smockron/message/hello.js:10 | splitting on NUL gives at least one piece |
| HelloMessage.ParseHello | lib/smockron/message/hello.js:5-12 | succeeds iff two parts are there and the first has two bytes; `syncReq` is bit 0 of the big-endian flags |
| HelloMessage.FormatHelloAsWritten | lib/smockron/message/hello.js:14-25 | type 0x0001 and two parts: the flag bytes little-endian (`01 00` for a sync request, `00 00` otherwise) and the domains joined with NUL |
| HelloMessage.SyncRequestLost | lib/smockron/message/hello.js:6-16 | a sync request is written as bytes 01 00 and parsed back as no request |
| HelloMessage.FormatHello | lib/smockron/message/hello.js:14-25 | type 0x0001 and two parts: the flag bytes big-endian (`00 01` for a sync request, `00 00` otherwise) and the domains joined with NUL |
| HelloMessage.SplitJoin | lib/smockron/message/hello.js:10-22 | splitting the NUL-joined text of a non-empty list of NUL-free names gives the list |
| HelloMessage.HelloRoundTrip | lib/smockron/message/hello.js:5-25 | flag and domains round-trip; an empty list comes back as one empty name |
| SyncMessage.DelayParts | lib/smockron/message/sync.js:32-35 | the delays' parts succeed iff every delay's time can be written, three parts per delay (with the corrected delay format) |
| SyncMessage.DelayPartsAt | lib/smockron/message/sync.js:32-35 | delay `k`'s formatted parts sit at `3k..3k+2`, in list order |
| SyncMessage.DelayPartsFailurePrefix | lib/smockron/message/sync.js:32-35 | the first delay that cannot be written makes the whole list fail with its error |
| SyncMessage.SyncPacket | lib/smockron/message/sync.js:26-41 | type 0x8101, `1 + 3n` parts, the first the big-endian flags word with bit 0 = `more` (with the corrected delay format) |
| SyncMessage.FormatSync | lib/smockron/message/sync.js:26-41 | the loop over the delays computes `SyncPacket` (with the corrected delay format) |
| SyncMessage.ParseSyncAsWritten | lib/smockron/message/sync.js:8-24 | as written, parsing always throws |
| SyncMessage.TriplesFromFlagsFail | lib/smockron/message/sync.js:12-18 | reading triples from part 0 of a `1 + 3n`-part message always fails |
| SyncMessage.ParseSync | lib/smockron/message/sync.js:8-24 | `more` is bit 0 of the big-endian flags |
| SyncMessage.ParseSyncParts | lib/smockron/message/sync.js:8-24 | the stepping loop over the triples computes `ParseSync` |
| SyncMessage.CanonAll | lib/smockron/message/ts.js:4-5 | each delay's time is normalised as the timestamp codec gives it back |
| SyncMessage.TriplesOfFormat | lib/smockron/message/sync.js:12-18 | the triples from part `1 + 3k` of a formatted sync are the delays from `k` on |
| SyncMessage.SyncRoundTrip | lib/smockron/message/sync.js:8-41 | parsing a formatted sync gives back its flag and its delays (with the corrected delay format) |
| HelloReplyMessage.FormatHelloReply | lib/smockron/message/helloreply.js:26-43 | without delays the message is the flags part alone; otherwise it is the sync packet of the delays (with the corrected delay format) |
| HelloReplyMessage.ParseHelloReplyAsWritten | lib/smockron/message/helloreply.js:8-24 | as written, parsing always throws |
| HelloReplyMessage.ParseHelloReply | lib/smockron/message/helloreply.js:8-24 | succeeds exactly when the sync parse does; the list is present and `more` is bit 0 of the flags |
| HelloReplyMessage.HelloReplyRoundTrip | lib/smockron/message/helloreply.js:8-43 | a formatted reply parses back with its flag and delays; an absent list comes back empty (with the corrected delay format) |
| HelloReplyMessage.HelloReplyReadAsSync | lib/smockron/message/helloreply.js:39-40 | a reply is routed to the sync parser, which gives back its flag and delays |
| Protocol.Dispatch | lib/smockron/socket.js:51-63 | an unknown type is passed on unchanged; each message kind comes only from its own type |
| Protocol.Receive | lib/smockron/socket.js:46-49 | a datagram that does not decode is an error; one that does is dispatched by its type (what arrives: the `…Arrives` lemmas) |
| Protocol.AccountingArrives | lib/smockron/socket.js:46-49 | an accounting message sent as a packet is received as that message |
| Protocol.DelayUntilArrives | lib/smockron/socket.js:46-49 | a delay sent as a packet is received as that delay (with the corrected delay format) |
| Protocol.HelloArrives | lib/smockron/socket.js:46-49 | a greeting sent as a packet is received with its flag and domains |
| Protocol.HelloReplyArrivesAsSync | lib/smockron/socket.js:46-49 | a reply to a greeting is received as a sync with the same flag and delays (with the corrected delay format) |
| Prototype.Judge | misc/prototype/test.js:29-41 | rejected iff `until > now + 5000`, retry `floor((until - now) / 1000)`; held by `until - now` iff `now + 5 < until <= now + 5000`; allowed otherwise |
| Prototype.Recent | misc/prototype/test.js:22-24 | the filter keeps exactly the times within the window, each as often as the history holds it, and no other time |
| Prototype.RecentMembers | misc/prototype/test.js:22-24 | every kept time is one of the history's, and every time of the history within the window is kept |
| Prototype.ComputeUntil | misc/prototype/test.js:7-11 | defined exactly when the history holds at least `burst` times, and then the `burst`-th most recent time plus the window |
| Prototype.Trimmed | misc/prototype/test.js:19-27 | the trimmed history is exactly the filter of the last `burst - 1` times (the second splice never cuts), so it holds at most `burst - 1` times, each within the window and taken from the history (order: `TrimmedBounds`) |
| Prototype.KeepLast | misc/prototype/test.js:19-21 | the splice keeps the last `min(n, length)` entries |
| Prototype.RecentIsSubseq | misc/prototype/test.js:22-24 | the filter keeps the original order |
| Prototype.SubseqOfKeepLast | misc/prototype/test.js:19-21 | the splice keeps the original order |
| Prototype.TrimmedBounds | misc/prototype/test.js:19-27 | after trimming and filtering the history has at most `burst - 1` entries, all within the window, in their original order |
| Prototype.Limiter.constructor | misc/prototype/test.js:3-13 | empty history, `until` undefined, no timers |
| Prototype.Limiter.RateLimit | misc/prototype/test.js:15-51 | the verdict is `Judge(until, now)`; the history is trimmed; unless rejected it gains `max(until, now)` and a timer for `compute_until` is scheduled |
| Prototype.Limiter.TimerFires | misc/prototype/test.js:48 | the oldest timer publishes its value as `until` |
| Prototype.AdmittedHistory | misc/prototype/test.js:43-47 | after an admitted request the history has at most `burst` entries, the last not before `now`; the next `until` is set exactly when it is full, to its oldest entry plus the window |

## Left out

- Transport and storage I/O are not modelled, and the Redis connection appears only as a map with expiry times. This covers:
  - ZeroMQ sockets (bind, connect, subscribe, send);
  - the UDP socket;
  - the Redis client, script loading and the NOSCRIPT retry of `logAccess`;
  - the `KEYS`/`MGET` lookup of `getAllForDomain`, which becomes a parameter listing the keys.
- Timers and the clock are not modelled. `new Date()` is a `now` parameter. A timer firing is an explicit call (`Middleware.Smockron.Dequeue`, `Prototype.Limiter.TimerFires`). The Redis clock is taken to be the master's clock.
- The asynchronous ordering of promise callbacks (`logAccess(...).then(...)`) is not modelled. Each accounting message is handled to completion before the next one.
- Statistics are not modelled (`stats.js`, the `Stats` object of `master/lib/index.js`). Neither are the nginx module, the bootstrap and demo scripts, or `getNext`/`shouldDelay`, which is a plain read that nothing calls.
- Express `req`/`res`, `rejectCB` and `identifierCB` are abstracted to an identifier and a verdict. A held request's `next` is an opaque callback handle.
- Texts of the binary protocol are kept as their UTF-8 bytes, so there is no encoding or decoding. ZeroMQ frames are strings.
- `readTimestamp` returns a `Date` in the source; here it returns the millisecond count.
- The object that `message.Sync` names is not modelled: `sync.js` exports `DelayUntil`. `lib/smockron/message/index.js` is not part of this model.
- The Go `getKey` is not part of this model; it is taken to build the same key as `_getKey`. The Go file's compilation problems (a missing `time` import, a return from a function without a result type) are not modelled.
- Text.ParseDecimal: `parseFloat` also accepts signs, fractions, exponents, leading white space and trailing junk. The model reads only a run of digits and treats anything else as NaN (`None`).
- ZmqWire.ParseAccounting: `logInfo` goes through `parseFloat`; the model records only whether it is present.
- Gatekeeper.Gatekeeper.OnControl: a `DELAY_UNTIL` whose time is NaN is ignored. The source stores NaN for an identifier without an entry. That entry is falsy (so requests are accepted, as modelled) but is never swept.
- Middleware.Smockron.EnsureTimer: the wait is stored as computed. Node clamps a wait below 1 ms to 1 ms.
- Timestamp.EncodeStamp: times are unbounded naturals. JavaScript numbers lose precision above 2^53, and `ms & 0xffffffff` is written with `writeInt32BE`, which gives the same bytes only for such exact integers.
- Rates.ParseRateText: a count of 0 is an error here. In the source it gives `Infinity` or NaN as the interval.
- Rates.ParseInterval: configuration numbers are naturals. Fractions and negative numbers are not modelled.
- AccountingMessage.ParseAccounting: which exception a message with missing parts throws first is not distinguished. Every such message fails.
- Master.Charge: a domain name that is a property of `Object.prototype` (such as `constructor`) counts as configured in the source; here only configured names do.
- Admission.Raise: the delay table of both gatekeepers is a plain object. An identifier that names an `Object.prototype` property (`constructor`, `toString`, `__proto__`, ...) reads as an inherited function rather than `undefined`, so `msg.ts > fn` is false and no delay is stored. The model treats every identifier as an ordinary key.
- Admission.Classify: for such an identifier the entry read is an inherited function, `delayTS > now` is false, and the request is accepted. The model reads only the entries it stored.
- Gatekeeper.ControlThenRequest: the promise that an identifier is held or refused until the time sent does not hold in the source for identifiers that name `Object.prototype` properties, because the delay is never stored for them. Such identifiers are not modelled.
- Middleware.Smockron.Handle: the middleware's `delayed`, `queue` and `timer` objects are plain objects too. For an identifier that names an `Object.prototype` property, no delay is stored, and the queue slot reads as an inherited function. That behaviour is not modelled.
- Prototype.Limiter.RateLimit: the console output and the HTTP server around `rate_limit` are not modelled.

## Findings

| source | as written | input that shows it | evidently intended | confidence | as-written member | corrected member |
|---|---|---|---|---|---|---|
| lib/smockron/message/delayuntil.js:22 | `format` builds the identifier part from `this.idneitifer`, which is `undefined`, so `new Buffer` throws | any delay, e.g. domain "d", identifier "u", time 1 | `this.identifier` | high, not executed | DelayUntilMessage.FormatDelayUntilAsWritten | DelayUntilMessage.FormatDelayUntil |
| lib/smockron/message/delayuntil.js:11 | `parse` calls `this.readTimestamp`, which `DelayUntil` does not define, so every parse throws | any three-part delay message | `ts.readTimestamp` | high, not executed | DelayUntilMessage.ParseDelayUntilAsWritten | DelayUntilMessage.ParseDelayUntil |
| lib/smockron/message/hello.js:16 | `format` writes the flags with `writeUInt16LE` while `parse` reads them with `readUInt16BE` | `syncReq = true` is written as 01 00 and read back as false | `writeUInt16BE`, as in sync.js | high, not executed | HelloMessage.SyncRequestLost | HelloMessage.HelloRoundTrip |
| lib/smockron/message/sync.js:12-16 | `parse` walks triples from part 0 (the flags) and calls `this.readTimestamp`, so it throws on every message; even with the reader fixed, the last triple of a `1 + 3n`-part message is cut short | `Sync(more = false, delays = [])`, whose one part is 00 00 | walk from part 1 and read times with `ts.readTimestamp` | high, not executed | SyncMessage.ParseSyncAsWritten | SyncMessage.SyncRoundTrip |
| lib/smockron/message/helloreply.js:12-16 | the same loop as `Sync.parse`: from part 0 with `this.readTimestamp`, so it throws on every message | `HelloReply(more = true, delays absent)`, whose one part is 00 01 | walk from part 1 and read times with `ts.readTimestamp` | high, not executed | HelloReplyMessage.ParseHelloReplyAsWritten | HelloReplyMessage.HelloReplyRoundTrip |
