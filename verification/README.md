# tractive-location-share-map: the live-position stream in Dafny

This project models the one self-contained piece of logic in `main.ts`:
the path a tracker position takes from the key-value store to every open
`/live` connection. It has four parts.

- **`checksum`**: the position fingerprint. The string is UTF-8 encoded, hashed with
  SHA-1, and the 20 digest bytes are written as lower-case hex, two digits
  per byte (`Hex`, `Hashing`). The encoder and SHA-1 are platform calls.
  They arrive as the function fields of a `Crypto` value, so nothing is
  assumed about them beyond the 20-byte digest length.
- **The fingerprint input** `time + ',' + latitude + ',' + longitude`
  (`Position`). Each field is kept as the text JavaScript renders it.
- **`createEvent`**: it writes one server-sent-events record (`EventStream`).
  The module also holds a reference reader for the event-stream format,
  following section 9.2 (Server-sent events) of the WHATWG HTML Living
  Standard. It is used to state what a browser's `EventSource` makes of the
  frames.
- **The watcher and one connection** (`Live`).
  - `Observe` turns the store's watch batches into the published
    `location-update` events.
  - `Session` is one connection's listener. It frames every event whose
    checksum differs from the `Last-Event-ID` the connection was opened with.
  - `Live` composes the two.

Points where `main.ts` behaves in ways a reader might not expect, and that
the model keeps as written:

- **The watcher does not deduplicate.** `observeLocationUpdates`
  (main.ts:126-140) publishes one event for every readable batch, with no
  comparison against the previous checksum. An unchanged position written
  twice is published twice. `Live.ObserveRepeatsUnchangedPosition` and
  `Live.LiveRepeatsUnchangedPosition` state this.
- **The cursor never moves.** `lastEventId` is read once from the request
  (main.ts:145) and only compared afterwards (main.ts:153). A connection
  therefore forwards every later event that does not carry exactly that
  checksum. `Live.SessionAppend` and `Live.SessionCount` state this.
- **The payload carries no position.** The listener serialises
  `{ lat: e.detail.lat, long: e.detail.long }` (main.ts:154). The detail built
  at main.ts:133-139 only has `latitude`, `longitude`, `positionUncertainty`,
  `time` and `checksum`. Both properties are therefore `undefined`, and every
  frame carries the same payload. The page script that consumes the stream
  (main.ts:102-106) reads `data.latitude`, `data.longitude` and
  `data.positionUncertainty`, none of which the payload has.
  `Live.PayloadOf` and `Live.FrameFor` state this.
- **A failing batch ends the watcher.** `entries.pop()` on an empty batch, or a
  `null` value, makes the destructuring throw. That rejects the watcher's
  promise, so `Observe` stops at the first batch that is not `Readable`.
  `handleLive` starts the watcher without `await` or `.catch` (main.ts:147), so
  the rejection goes unhandled. By default Deno then terminates the whole
  process, closing every connection. The model covers only the published
  sequence up to that point.

`JSON.stringify` is a parameter (`stringify`) as well, so the payload is an
opaque string.

## Model

| member | source | states |
|---|---|---|
| Hex.ToRadix16 | main.ts:7 | `b.toString(16)` for a non-negative integer (every `Uint8Array` element is one): at least one lower-case hex digit, the digits denote the number, and there is no leading zero except in `"0"` itself |
| Hex.PadStart | main.ts:7 | `padStart(2, '0')`: the result is the target length, or the original length if that is longer. It ends with the original string, and every position before it holds the fill character |
| Hex.ByteHex | main.ts:7 | each byte becomes exactly two lower-case hex digits, high nibble then low nibble, so a byte below 16 gets a leading `'0'` |
| Hex.HexEncode | main.ts:6-7 | the hex string has exactly two characters per digest byte, and every one is a lower-case hex digit |
| Hex.HexEncodeAt | main.ts:7 | byte `i` of the digest appears, as its two digits, at positions `2i` and `2i+1` of the hex string |
| Hex.DecodeEncode | main.ts:6-7 | reading the hex string back in pairs recovers exactly the digest bytes |
| Hex.EncodeDecode | main.ts:6-7 | any string the pairwise reader accepts is exactly the encoding of the bytes it returns, so the encoding is a bijection onto well-formed hex strings |
| Hex.HexEncodeInjective | main.ts:6-7 | two byte sequences have the same hex string if and only if they are equal |
| Hashing.Checksum | main.ts:3-9 | a checksum is forty lower-case hex digits that read back as the SHA-1 digest of the UTF-8 encoding of the input |
| Hashing.DigestOf | main.ts:4-5 | the digest `crypto.subtle.digest('SHA-1', …)` computes for the UTF-8 encoding of the input, both platform calls being parameters; a `Digest` is exactly twenty bytes |
| Hashing.ChecksumsAgreeIffDigestsAgree | main.ts:3-9 | two inputs get the same checksum if and only if the platform gives them the same digest |
| Position.FingerprintInputIsJoin | main.ts:130 | the hashed string is time, latitude and longitude joined by single commas |
| Position.FingerprintInput | main.ts:130 | the hashed string `time + ',' + latitude + ',' + longitude`; for comma-free renderings, cutting it at its commas gives back exactly time, latitude and longitude |
| Position.Fingerprint | main.ts:130 | a record's fingerprint is forty lower-case hex digits that read back as the digest of its fingerprint input |
| Position.FingerprintInputInjective | main.ts:129-130 | comma-free records have the same hashed string if and only if they agree on time, latitude and longitude |
| Position.FingerprintIgnoresUncertainty | main.ts:129-130 | two records that differ only in `positionUncertainty` have the same fingerprint |
| EventStream.CreateEvent | main.ts:56-57 | the frame starts with an `id:` line if and only if the id is truthy (present and non-empty), and it always ends with a blank line |
| EventStream.CreateEventLayout | main.ts:56-57 | a truthy id gives the frame the first line `"id: " + id + "\n"`, and every frame ends with `"event: " + eventName + "\ndata: " + data + "\n\n"` |
| EventStream.CreateEventIsUnlines | main.ts:57 | a frame is its optional `id:` line, then its `event:` line, its `data:` line and an empty line, each ended by a line feed |
| EventStream.FrameFiresOnce | main.ts:56-57 | a reader with empty data and type buffers fires exactly one event for a frame's lines. The event has the frame's type and data. The last event ID is updated only for a truthy, NUL-free id. Both buffers are empty again afterwards |
| EventStream.FrameThenRest | main.ts:56-57 | a frame at the head of a stream fires its one event and leaves the reader as if starting afresh on the rest, keeping only the new last event ID |
| EventStream.ParseCreateEvent | main.ts:56-57 | a fresh `EventSource` reading one frame fires exactly one event with the frame's id, type and data, an empty type being read as `message` |
| Live.LatestRecord | main.ts:127-129 | `entries.pop()` then destructuring its `value`: the record of the batch's last entry, absent when the batch is empty or that value is `null` |
| Live.Readable | main.ts:127-129 | a batch the watcher gets through without throwing: it has a last entry and that entry holds a record |
| Live.UpdateFor | main.ts:132-139 | the detail of the dispatched event: the record's four fields and its checksum, which is forty hex digits reading back as the digest of the fingerprint input |
| Live.Observe | main.ts:126-140 | the watcher publishes, in order, one event per batch until the first batch it cannot read. Each event carries the batch's last record's four fields and that record's fingerprint |
| Live.ObserveOnePerBatch | main.ts:126-140 | when every batch is readable, exactly one event is published per batch |
| Live.ObserveRepeatsUnchangedPosition | main.ts:126-140 | the same batch arriving twice is published twice, identically: there is no comparison with the previous checksum |
| Live.Property | main.ts:154 | a lookup among the detail's own properties is defined exactly for the five set at main.ts:133-139; `lat` and `long`, read at main.ts:154, are neither own properties nor inherited from `Object.prototype`, so they read as `undefined` |
| Live.PayloadOf | main.ts:154 | the serialised object reads `lat` and `long`, which the event detail does not have, so both are absent for every event |
| Live.FrameFor | main.ts:154 | the enqueued frame is `createEvent('location', …, checksum)` with the same serialised payload for every event: only the id varies |
| Live.Forwards | main.ts:153 | an event is enqueued when its checksum differs from the connection's `Last-Event-ID`, which is always the case when the header is absent |
| Live.Session | main.ts:151-157 | a connection never enqueues more frames than events were published |
| Live.SessionWithoutCursor | main.ts:145-155 | without a `Last-Event-ID` header, every published event is framed, one frame each, in order |
| Live.ForwardedIsFilteredSubsequence | main.ts:153 | the forwarded events are the published ones at strictly ascending indices, and an index is chosen exactly when its event's checksum differs from the cursor |
| Live.SessionFramesForwarded | main.ts:151-157 | the frames are exactly the forwarded events, each framed with type `location`, the payload and its checksum as id |
| Live.SessionIsFilteredSubsequence | main.ts:145-157 | the frames are those of an order-preserving subsequence of the published events, and event `j` is in it if and only if its checksum differs from the fixed `Last-Event-ID` |
| Live.SessionAppend | main.ts:145-157 | the cursor never advances: the frames for two runs of events in a row are the frames for each run on its own, concatenated |
| Live.SessionNothingForwarded | main.ts:153 | a connection whose cursor equals the checksum of every published event enqueues nothing |
| Live.SessionCount | main.ts:153 | with a cursor, the number of frames is the number of published events minus those carrying exactly that checksum |
| Live.HexIdWritable | main.ts:154 | a checksum is a truthy id with no line break and no NUL, so the `id:` line always takes effect |
| Live.SessionReadsBack | main.ts:151-157 | a client reading a connection's body fires one `location` event per forwarded event, in order. Each has that event's checksum as its last event ID and the same payload |
| Live.Live | main.ts:126-157 | the frames one connection sends for a run of watch batches: at most one per batch, and exactly one per batch when there is no `Last-Event-ID` and every batch is readable |
| Live.LiveFramesBatches | main.ts:126-157 | with readable batches, the frames come from strictly ascending batch indices. Batch `j` is framed, with its latest record's fingerprint as id, if and only if that fingerprint differs from the cursor |
| Live.LiveUpToDateCursor | main.ts:126-157 | a connection whose cursor matches the fingerprint of every batch receives nothing |
| Live.LiveRepeatsUnchangedPosition | main.ts:126-157 | an unchanged position written twice reaches a connection whose cursor differs as two identical frames |
| Live.LiveReadsBack | main.ts:126-157 | end to end: a fresh client sees one `location` event per forwarded batch, carrying that batch's fingerprint as its last event ID |

The hex reader (`Hex.HexDecode`) and the event-stream reader
(`EventStream.Run`, `EventStream.Parse`) are not in `main.ts`. They are the
reference definitions the encoders are checked against. The Text module's
`Split` and `Join` do the same job for the fingerprint input.

## Left out

- SHA-1 (`crypto.subtle.digest`) and `TextEncoder.encode` are parameters: `Hashing.Checksum` states only the hex step and the 20-byte digest length, not which digest SHA-1 computes.
- `JSON.stringify` is a parameter, and the payload is an opaque string.
- Live.Property: covers only the detail's own properties. Members inherited from `Object.prototype` (`toString`, `constructor`, `valueOf`, ...) are defined on the detail in JavaScript but are `None` here. The listener reads only `lat` and `long`, which the prototype does not have either, so `Live.PayloadOf` is unaffected.
- `EventStream.CreateEvent` produces characters. The UTF-8 bytes `TextEncoder` makes of them are not modelled.
- `EventStream.ParseCreateEvent` and `EventStream.FrameThenRest` require event name, data and id to be free of line breaks. The source does not check this, and a line break inside a field would split the record. On the live path the name is the literal `location`, the id is a hex checksum, and JSON text has no raw line breaks.
- `Live.LiveReadsBack` requires the serialised payload to be a single line, for the same reason.
- The reference reader splits lines on LF only and ignores the byte-order mark, CR and CRLF line endings, and the `retry` field. `createEvent` never writes any of these.
- Deno KV (`openKv`, `get`, `set`, `watch`) is storage I/O. The watch stream is the input sequence of batches.
- The cron ingestion, the environment checks and the `tractive` client (main.ts:14-52) are network and configuration I/O.
- The HTML page and the Leaflet client script (main.ts:59-119) are UI. The client's `JSON.parse` of the payload is not modelled.
- `EventTarget`, `ReadableStream`, and the watcher that every `/live` request starts again (main.ts:12, 147, 149-159) are concurrency and async lifecycle. One connection sees one published sequence. A second watcher, which duplicates every event, is not modelled.
- Latitude, longitude, uncertainty and time are numbers in the source. They are kept as the strings their concatenation produces, with no floating-point behaviour.
- HTTP routing and response headers (main.ts:161-181) are transport plumbing.
