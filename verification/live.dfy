/**
 * The path from the store's watch stream to one `/live` connection: the
 * watcher turns each watch batch into a `location-update` event, and the
 * connection's listener frames every event whose checksum differs from the
 * `Last-Event-ID` it was opened with.
 */
module Live {
  import opened Wrappers
  import opened Text
  import opened Hex
  import opened Hashing
  import opened Position
  import opened EventStream

  /** One entry of a watch batch: the key's value, `None` while the key holds nothing. */
  datatype KvEntry = KvEntry(value: Option<PositionRecord>)

  /** The `detail` of a dispatched `location-update` event. */
  datatype LocationUpdate = LocationUpdate(
    latitude: string,
    longitude: string,
    positionUncertainty: string,
    time: string,
    checksum: string)

  /**
   * `const { value } = entries.pop()` followed by destructuring `value`: the
   * batch's last record, or `None` where either step throws (no entry, or a
   * `null` value).
   */
  function LatestRecord(entries: seq<KvEntry>): Option<PositionRecord> {
    if entries == [] then None else entries[|entries| - 1].value
  }

  /** A batch the watcher gets through without throwing. */
  predicate Readable(entries: seq<KvEntry>) {
    LatestRecord(entries).Some?
  }

  /**
   * The event built for a record: its four fields and its fingerprint, whose
   * forty hex digits read back as the digest of the fingerprint input.
   */
  function UpdateFor(crypto: Crypto, r: PositionRecord): (u: LocationUpdate)
    ensures |u.checksum| == 40 && AllHex(u.checksum)
    ensures HexDecode(u.checksum) == Some(DigestOf(crypto, FingerprintInput(r)))
  {
    LocationUpdate(r.latitude, r.longitude, r.positionUncertainty, r.time, Fingerprint(crypto, r))
  }

  /**
   * The events the watcher dispatches for a run of watch batches, in order.
   * A batch whose destructuring throws rejects the watcher's promise, so
   * nothing after it is dispatched.
   */
  function Observe(crypto: Crypto, batches: seq<seq<KvEntry>>): (published: seq<LocationUpdate>)
    ensures |published| <= |batches|
    ensures forall i :: 0 <= i < |published| ==>
      Readable(batches[i]) && published[i] == UpdateFor(crypto, LatestRecord(batches[i]).value)
    ensures |published| < |batches| ==> !Readable(batches[|published|])
  {
    if batches == [] then []
    else
      match LatestRecord(batches[0])
      case None => []
      case Some(r) => [UpdateFor(crypto, r)] + Observe(crypto, batches[1..])
  }

  /** With every batch readable, the watcher publishes exactly one event per batch. */
  lemma ObserveOnePerBatch(crypto: Crypto, batches: seq<seq<KvEntry>>)
    requires forall i :: 0 <= i < |batches| ==> Readable(batches[i])
    ensures |Observe(crypto, batches)| == |batches|
  {
  }

  /** The watcher does not compare with the previous checksum: a repeated batch is published again. */
  lemma ObserveRepeatsUnchangedPosition(crypto: Crypto, batch: seq<KvEntry>)
    requires Readable(batch)
    ensures var u := UpdateFor(crypto, LatestRecord(batch).value);
      Observe(crypto, [batch, batch]) == [u, u]
  {
    assert [batch, batch][1..] == [batch];
  }

  // ---------------------------------------------------------------------
  // One live connection
  // ---------------------------------------------------------------------

  /** The object the listener serialises: `{ lat: e.detail.lat, long: e.detail.long }`. */
  datatype LivePayload = LivePayload(lat: Option<string>, long: Option<string>)

  /** The own properties the watcher puts on an event's detail. */
  const DetailProperties: set<string> := {"latitude", "longitude", "positionUncertainty", "time", "checksum"}

  /**
   * A lookup among the detail's own properties: defined exactly for the five
   * the watcher sets. Members inherited from `Object.prototype` (`toString`,
   * `constructor`, ...) are not modelled; `lat` and `long` are neither own nor
   * inherited, so for them `None` is JavaScript's `undefined`.
   */
  function Property(u: LocationUpdate, name: string): (v: Option<string>)
    ensures v.Some? <==> name in DetailProperties
  {
    if name == "latitude" then Some(u.latitude)
    else if name == "longitude" then Some(u.longitude)
    else if name == "positionUncertainty" then Some(u.positionUncertainty)
    else if name == "time" then Some(u.time)
    else if name == "checksum" then Some(u.checksum)
    else None
  }

  /**
   * The object the listener serialises, `{ lat: e.detail.lat, long: e.detail.long }`.
   * The detail has no `lat` or `long`, so it carries no position at all.
   */
  function PayloadOf(u: LocationUpdate): (p: LivePayload)
    ensures p == LivePayload(None, None)
  {
    LivePayload(Property(u, "lat"), Property(u, "long"))
  }

  /**
   * The frame enqueued for an event: type `location`, the serialised payload
   * and the checksum as id. Only the checksum varies from event to event.
   */
  function FrameFor(stringify: LivePayload -> string, u: LocationUpdate): (frame: string)
    ensures frame == CreateEvent("location", stringify(LivePayload(None, None)), Some(u.checksum))
  {
    CreateEvent("location", stringify(PayloadOf(u)), Some(u.checksum))
  }

  /** `e.detail.checksum !== lastEventId`, with `None` for a request without the header. */
  predicate Forwards(lastEventId: Option<string>, u: LocationUpdate) {
    lastEventId != Some(u.checksum)
  }

  /**
   * The frames one connection enqueues for the events published while it is
   * open. `lastEventId` is read once from the request and never changes.
   */
  function Session(stringify: LivePayload -> string, lastEventId: Option<string>, published: seq<LocationUpdate>)
    : (frames: seq<string>)
    ensures |frames| <= |published|
  {
    if published == [] then []
    else
      (if Forwards(lastEventId, published[0]) then [FrameFor(stringify, published[0])] else [])
        + Session(stringify, lastEventId, published[1..])
  }

  /** The published events a connection forwards, in order. */
  function Forwarded(lastEventId: Option<string>, published: seq<LocationUpdate>): seq<LocationUpdate> {
    if published == [] then []
    else
      (if Forwards(lastEventId, published[0]) then [published[0]] else [])
        + Forwarded(lastEventId, published[1..])
  }

  /** How many published events carry checksum `c`. */
  function Occurrences(published: seq<LocationUpdate>, c: string): nat {
    if published == [] then 0
    else (if published[0].checksum == c then 1 else 0) + Occurrences(published[1..], c)
  }

  /** Without a `Last-Event-ID` every published event is framed, one frame each, in order. */
  lemma SessionWithoutCursor(stringify: LivePayload -> string, published: seq<LocationUpdate>)
    ensures |Session(stringify, None, published)| == |published|
    ensures forall i :: 0 <= i < |published| ==>
      Session(stringify, None, published)[i] == FrameFor(stringify, published[i])
  {
    SessionFramesForwarded(stringify, None, published);
    ForwardedWithoutCursor(published);
  }

  /** Without a `Last-Event-ID` nothing is held back. */
  lemma {:induction false} ForwardedWithoutCursor(published: seq<LocationUpdate>)
    ensures Forwarded(None, published) == published
  {
    if published != [] {
      ForwardedWithoutCursor(published[1..]);
      assert published == [published[0]] + published[1..];
    }
  }

  /** Indices strictly increasing and below `bound`. */
  predicate Ascending(picked: seq<nat>, bound: nat) {
    && (forall k :: 0 <= k < |picked| ==> picked[k] < bound)
    && (forall k, l :: 0 <= k < l < |picked| ==> picked[k] < picked[l])
  }

  /** Every index one higher. */
  function Shift(picked: seq<nat>): (shifted: seq<nat>)
    ensures |shifted| == |picked|
    ensures forall k :: 0 <= k < |picked| ==> shifted[k] == picked[k] + 1
  {
    seq(|picked|, k requires 0 <= k < |picked| => picked[k] + 1)
  }

  /** An index is among the shifted ones exactly when the one below it was picked. */
  lemma ShiftMembers(picked: seq<nat>, j: nat)
    ensures j in Shift(picked) <==> (j >= 1 && j - 1 in picked)
  {
    var shifted := Shift(picked);
    if j in shifted {
      var k :| 0 <= k < |shifted| && shifted[k] == j;
      assert picked[k] == j - 1;
    }
    if j >= 1 && j - 1 in picked {
      var k :| 0 <= k < |picked| && picked[k] == j - 1;
      assert shifted[k] == j;
    }
  }

  /** `picked` lists, in ascending order, the indices of exactly the published events the cursor lets through. */
  predicate Picks(lastEventId: Option<string>, published: seq<LocationUpdate>, picked: seq<nat>) {
    && |picked| == |Forwarded(lastEventId, published)|
    && Ascending(picked, |published|)
    && (forall k :: 0 <= k < |picked| ==> Forwarded(lastEventId, published)[k] == published[picked[k]])
    && (forall j :: 0 <= j < |published| ==> (j in picked <==> Forwards(lastEventId, published[j])))
  }

  /** Putting index 0 in front of shifted ascending indices keeps them ascending. */
  lemma AscendingHead(rest: seq<nat>, bound: nat)
    requires Ascending(rest, bound)
    ensures Ascending([0] + Shift(rest), bound + 1)
  {
    var picked := [0] + Shift(rest);
    forall k | 0 < k < |picked|
      ensures picked[k] == rest[k - 1] + 1
    {
    }
    forall k, l | 0 <= k < l < |picked|
      ensures picked[k] < picked[l]
    {
      if k > 0 {
        assert rest[k - 1] < rest[l - 1];
      }
    }
  }

  /** Extending the picks of the tail when the head is let through. */
  lemma PicksHead(lastEventId: Option<string>, published: seq<LocationUpdate>, rest: seq<nat>)
    requires published != [] && Forwards(lastEventId, published[0])
    requires Picks(lastEventId, published[1..], rest)
    ensures Picks(lastEventId, published, [0] + Shift(rest))
  {
    AscendingHead(rest, |published| - 1);
    PicksHeadOrder(lastEventId, published, rest);
    PicksHeadMembers(lastEventId, published, rest);
  }

  lemma PicksHeadOrder(lastEventId: Option<string>, published: seq<LocationUpdate>, rest: seq<nat>)
    requires published != [] && Forwards(lastEventId, published[0])
    requires Picks(lastEventId, published[1..], rest)
    ensures var picked := [0] + Shift(rest);
      forall k :: 0 <= k < |picked| ==> Forwarded(lastEventId, published)[k] == published[picked[k]]
  {
    var tail := Forwarded(lastEventId, published[1..]);
    assert Forwarded(lastEventId, published) == [published[0]] + tail;
    ShiftedPicks(published, tail, rest);
  }

  /** Prepending the head to a list of picks from the tail, with the indices shifted past the head. */
  lemma ShiftedPicks<T>(xs: seq<T>, tail: seq<T>, rest: seq<nat>)
    requires xs != [] && |tail| == |rest|
    requires forall k :: 0 <= k < |rest| ==> rest[k] < |xs| - 1 && tail[k] == xs[1..][rest[k]]
    ensures forall k :: 0 <= k < |rest| + 1 ==> ([xs[0]] + tail)[k] == xs[([0] + Shift(rest))[k]]
  {
    forall k | 0 < k < |rest| + 1
      ensures ([xs[0]] + tail)[k] == xs[([0] + Shift(rest))[k]]
    {
      var r := rest[k - 1];
      assert ([0] + Shift(rest))[k] == r + 1;
      assert tail[k - 1] == xs[r + 1];
    }
  }

  lemma PicksHeadMembers(lastEventId: Option<string>, published: seq<LocationUpdate>, rest: seq<nat>)
    requires published != [] && Forwards(lastEventId, published[0])
    requires Picks(lastEventId, published[1..], rest)
    ensures var picked := [0] + Shift(rest);
      forall j :: 0 <= j < |published| ==> (j in picked <==> Forwards(lastEventId, published[j]))
  {
    var picked := [0] + Shift(rest);
    forall j | 0 <= j < |published|
      ensures j in picked <==> Forwards(lastEventId, published[j])
    {
      ShiftMembers(rest, j);
      assert j in picked <==> j == 0 || j in Shift(rest);
      if j >= 1 {
        assert published[j] == published[1..][j - 1];
      }
    }
  }

  /** Keeping the picks of the tail when the head is held back. */
  lemma PicksSkip(lastEventId: Option<string>, published: seq<LocationUpdate>, rest: seq<nat>)
    requires published != [] && !Forwards(lastEventId, published[0])
    requires Picks(lastEventId, published[1..], rest)
    ensures Picks(lastEventId, published, Shift(rest))
  {
    var picked := Shift(rest);
    var tail := Forwarded(lastEventId, published[1..]);
    assert Forwarded(lastEventId, published) == tail;
    forall k | 0 <= k < |picked|
      ensures picked[k] < |published| && tail[k] == published[picked[k]]
    {
      assert published[picked[k]] == published[1..][rest[k]];
    }
    forall j | 0 <= j < |published|
      ensures j in picked <==> Forwards(lastEventId, published[j])
    {
      ShiftMembers(rest, j);
      if j >= 1 {
        assert published[j] == published[1..][j - 1];
      }
    }
  }

  /** The forwarded events are the published ones at ascending indices, chosen by the cursor test alone. */
  lemma {:induction false} ForwardedIsFilteredSubsequence(lastEventId: Option<string>, published: seq<LocationUpdate>)
    returns (picked: seq<nat>)
    ensures Picks(lastEventId, published, picked)
  {
    if published == [] {
      picked := [];
    } else {
      var rest := ForwardedIsFilteredSubsequence(lastEventId, published[1..]);
      if Forwards(lastEventId, published[0]) {
        PicksHead(lastEventId, published, rest);
        picked := [0] + Shift(rest);
      } else {
        PicksSkip(lastEventId, published, rest);
        picked := Shift(rest);
      }
    }
  }

  /**
   * The frames are those of an order-preserving subsequence of the published
   * events, and an event is in it exactly when its checksum differs from the
   * fixed `Last-Event-ID`.
   */
  lemma SessionIsFilteredSubsequence(
    stringify: LivePayload -> string, lastEventId: Option<string>, published: seq<LocationUpdate>)
    returns (picked: seq<nat>)
    ensures |picked| == |Session(stringify, lastEventId, published)|
    ensures Ascending(picked, |published|)
    ensures forall k :: 0 <= k < |picked| ==>
      Session(stringify, lastEventId, published)[k] == FrameFor(stringify, published[picked[k]])
    ensures forall j :: 0 <= j < |published| ==> (j in picked <==> Forwards(lastEventId, published[j]))
  {
    picked := ForwardedIsFilteredSubsequence(lastEventId, published);
    SessionFramesForwarded(stringify, lastEventId, published);
  }

  /** What a connection enqueues for one event followed by more. */
  lemma SessionPrepend(
    stringify: LivePayload -> string, lastEventId: Option<string>, u: LocationUpdate, rest: seq<LocationUpdate>)
    ensures Session(stringify, lastEventId, [u] + rest)
      == (if Forwards(lastEventId, u) then [FrameFor(stringify, u)] else []) + Session(stringify, lastEventId, rest)
  {
    assert ([u] + rest)[0] == u;
    assert ([u] + rest)[1..] == rest;
  }

  /** The cursor never advances: a connection treats a later batch of events exactly as a fresh one would. */
  lemma {:induction false} SessionAppend(
    stringify: LivePayload -> string, lastEventId: Option<string>, xs: seq<LocationUpdate>, ys: seq<LocationUpdate>)
    ensures Session(stringify, lastEventId, xs + ys)
      == Session(stringify, lastEventId, xs) + Session(stringify, lastEventId, ys)
  {
    if xs == [] {
      assert xs + ys == ys;
    } else {
      var head := if Forwards(lastEventId, xs[0]) then [FrameFor(stringify, xs[0])] else [];
      var left, right := Session(stringify, lastEventId, xs[1..]), Session(stringify, lastEventId, ys);
      SessionAppend(stringify, lastEventId, xs[1..], ys);
      ConsAppend(xs, ys);
      SessionPrepend(stringify, lastEventId, xs[0], xs[1..] + ys);
      Associative(head, left, right);
    }
  }

  /** A connection that forwards none of the published events enqueues nothing. */
  lemma {:induction false} SessionNothingForwarded(
    stringify: LivePayload -> string, lastEventId: Option<string>, published: seq<LocationUpdate>)
    requires forall i :: 0 <= i < |published| ==> !Forwards(lastEventId, published[i])
    ensures Session(stringify, lastEventId, published) == []
  {
    if published != [] {
      assert forall i :: 0 <= i < |published[1..]| ==> published[1..][i] == published[i + 1];
      SessionNothingForwarded(stringify, lastEventId, published[1..]);
    }
  }

  /** With a `Last-Event-ID`, every published event but those carrying that checksum is framed. */
  lemma {:induction false} SessionCount(
    stringify: LivePayload -> string, cursor: string, published: seq<LocationUpdate>)
    ensures |Session(stringify, Some(cursor), published)| == |published| - Occurrences(published, cursor)
  {
    if published != [] {
      SessionCount(stringify, cursor, published[1..]);
    }
  }

  /** The frames are exactly the forwarded events, framed one by one. */
  lemma {:induction false} SessionFramesForwarded(
    stringify: LivePayload -> string, lastEventId: Option<string>, published: seq<LocationUpdate>)
    ensures var frames := Session(stringify, lastEventId, published);
      var sent := Forwarded(lastEventId, published);
      |frames| == |sent| && forall k :: 0 <= k < |sent| ==> frames[k] == FrameFor(stringify, sent[k])
  {
    if published != [] {
      var u := published[0];
      var frames := Session(stringify, lastEventId, published[1..]);
      var sent := Forwarded(lastEventId, published[1..]);
      SessionFramesForwarded(stringify, lastEventId, published[1..]);
      if Forwards(lastEventId, u) {
        assert Session(stringify, lastEventId, published) == [FrameFor(stringify, u)] + frames;
        assert Forwarded(lastEventId, published) == [u] + sent;
        ConsPointwise(FrameFor(stringify, u), u, frames, sent, stringify);
      } else {
        assert Session(stringify, lastEventId, published) == [] + frames;
        assert Forwarded(lastEventId, published) == [] + sent;
      }
    }
  }

  /** Frames that match events one by one still do with one more of each in front. */
  lemma ConsPointwise(
    f: string, u: LocationUpdate, frames: seq<string>, sent: seq<LocationUpdate>, stringify: LivePayload -> string)
    requires f == FrameFor(stringify, u)
    requires |frames| == |sent| && forall k :: 0 <= k < |sent| ==> frames[k] == FrameFor(stringify, sent[k])
    ensures forall k :: 0 <= k < |sent| + 1 ==> ([f] + frames)[k] == FrameFor(stringify, ([u] + sent)[k])
  {
    forall k | 0 < k < |sent| + 1
      ensures ([f] + frames)[k] == FrameFor(stringify, ([u] + sent)[k])
    {
      assert ([f] + frames)[k] == frames[k - 1];
      assert ([u] + sent)[k] == sent[k - 1];
    }
  }

  /** A checksum can always go on an `id:` line: it is non-empty and has no line break or NUL. */
  lemma HexIdWritable(h: string)
    requires |h| == 40
    requires AllHex(h)
    ensures HasId(Some(h)) && SingleLine(h) && NUL !in h
  {
  }

  /** Events whose checksums can stand as ids, and a payload that fits on its line. */
  predicate StreamSafe(stringify: LivePayload -> string, published: seq<LocationUpdate>) {
    && SingleLine(stringify(LivePayload(None, None)))
    && forall i :: 0 <= i < |published| ==>
         HasId(Some(published[i].checksum)) && SingleLine(published[i].checksum) && NUL !in published[i].checksum
  }

  /** The events a browser fires for the forwarded events: each a `location` event with the checksum as id. */
  function Announced(payload: string, sent: seq<LocationUpdate>): (read: seq<Dispatched>)
    ensures |read| == |sent|
    ensures forall k :: 0 <= k < |sent| ==> read[k] == Dispatched(sent[k].checksum, "location", payload)
  {
    if sent == [] then []
    else [Dispatched(sent[0].checksum, "location", payload)] + Announced(payload, sent[1..])
  }

  /** The body of a connection is its frames one after another. */
  lemma SessionCons(stringify: LivePayload -> string, lastEventId: Option<string>, published: seq<LocationUpdate>)
    requires published != []
    ensures var rest := Session(stringify, lastEventId, published[1..]);
      Concat(Session(stringify, lastEventId, published))
        == if Forwards(lastEventId, published[0]) then FrameFor(stringify, published[0]) + Concat(rest) else Concat(rest)
  {
    var rest := Session(stringify, lastEventId, published[1..]);
    if Forwards(lastEventId, published[0]) {
      var frames := [FrameFor(stringify, published[0])] + rest;
      assert Session(stringify, lastEventId, published) == frames;
      assert frames[1..] == rest;
    } else {
      assert Session(stringify, lastEventId, published) == [] + rest;
      assert [] + rest == rest;
    }
  }

  lemma StreamSafeTail(stringify: LivePayload -> string, published: seq<LocationUpdate>)
    requires published != [] && StreamSafe(stringify, published)
    ensures StreamSafe(stringify, published[1..])
  {
    assert forall i :: 0 <= i < |published[1..]| ==> published[1..][i] == published[i + 1];
  }

  /** Reading a forwarded head event's frame, then the rest of the body. */
  lemma ReadsBackForwarded(
    stringify: LivePayload -> string, lastEventId: Option<string>, published: seq<LocationUpdate>, b: Buffers)
    requires published != [] && Forwards(lastEventId, published[0])
    requires StreamSafe(stringify, published)
    requires b.data == "" && b.eventType == ""
    requires Run(Buffers("", "", published[0].checksum),
                 Lines(Concat(Session(stringify, lastEventId, published[1..])))).fired
      == Announced(stringify(LivePayload(None, None)), Forwarded(lastEventId, published[1..]))
    ensures Run(b, Lines(Concat(Session(stringify, lastEventId, published)))).fired
      == Announced(stringify(LivePayload(None, None)), Forwarded(lastEventId, published))
  {
    var u := published[0];
    var payload := stringify(LivePayload(None, None));
    var tail := Forwarded(lastEventId, published[1..]);
    var restBody := Concat(Session(stringify, lastEventId, published[1..]));
    SessionCons(stringify, lastEventId, published);
    assert Concat(Session(stringify, lastEventId, published))
      == CreateEvent("location", payload, Some(u.checksum)) + restBody;
    assert HasId(Some(u.checksum)) && SingleLine(u.checksum) && NUL !in u.checksum;
    assert IdAfter(b.lastEventId, Some(u.checksum)) == u.checksum;
    assert EventType("location") == "location";
    FrameThenRest(b, "location", payload, Some(u.checksum), restBody);
    assert Forwarded(lastEventId, published) == [u] + tail;
    assert ([u] + tail)[1..] == tail;
    assert Announced(payload, [u] + tail) == [Dispatched(u.checksum, "location", payload)] + Announced(payload, tail);
  }

  /**
   * What the client's `EventSource` makes of a connection's body: one
   * `location` event per forwarded event, with that event's checksum as its
   * last event ID and the same payload every time.
   */
  lemma {:induction false} SessionReadsBack(
    stringify: LivePayload -> string, lastEventId: Option<string>, published: seq<LocationUpdate>, b: Buffers)
    requires StreamSafe(stringify, published)
    requires b.data == "" && b.eventType == ""
    ensures Run(b, Lines(Concat(Session(stringify, lastEventId, published)))).fired
      == Announced(stringify(LivePayload(None, None)), Forwarded(lastEventId, published))
  {
    if published == [] {
      assert Lines("") == [];
    } else {
      var u := published[0];
      StreamSafeTail(stringify, published);
      if Forwards(lastEventId, u) {
        SessionReadsBack(stringify, lastEventId, published[1..], Buffers("", "", u.checksum));
        ReadsBackForwarded(stringify, lastEventId, published, b);
      } else {
        SessionReadsBack(stringify, lastEventId, published[1..], b);
        SessionCons(stringify, lastEventId, published);
        assert Forwarded(lastEventId, published) == [] + Forwarded(lastEventId, published[1..]);
      }
    }
  }

  // ---------------------------------------------------------------------
  // Watcher and connection together
  // ---------------------------------------------------------------------

  /**
   * The frames a `/live` connection with cursor `lastEventId` sends for a run
   * of watch batches: at most one per batch, and exactly one per batch when
   * there is no cursor and every batch is readable.
   */
  function Live(crypto: Crypto, stringify: LivePayload -> string, lastEventId: Option<string>, batches: seq<seq<KvEntry>>)
    : (frames: seq<string>)
    ensures |frames| <= |batches|
    ensures lastEventId == None && (forall i :: 0 <= i < |batches| ==> Readable(batches[i])) ==> |frames| == |batches|
  {
    var published := Observe(crypto, batches);
    SessionWithoutCursor(stringify, published);
    Session(stringify, lastEventId, published)
  }

  /**
   * With every batch readable, the frames are those of an order-preserving
   * subsequence of the batches: batch `j` is framed, with its latest record's
   * fingerprint as id, exactly when that fingerprint differs from the cursor.
   */
  lemma LiveFramesBatches(
    crypto: Crypto, stringify: LivePayload -> string, lastEventId: Option<string>, batches: seq<seq<KvEntry>>)
    returns (picked: seq<nat>)
    requires forall i :: 0 <= i < |batches| ==> Readable(batches[i])
    ensures var frames := Live(crypto, stringify, lastEventId, batches);
      && |picked| == |frames|
      && (forall k :: 0 <= k < |picked| ==>
            picked[k] < |batches|
            && frames[k] == CreateEvent("location", stringify(LivePayload(None, None)),
                                        Some(Fingerprint(crypto, LatestRecord(batches[picked[k]]).value))))
      && (forall k, l :: 0 <= k < l < |picked| ==> picked[k] < picked[l])
      && (forall j :: 0 <= j < |batches| ==>
            (j in picked <==> lastEventId != Some(Fingerprint(crypto, LatestRecord(batches[j]).value))))
  {
    var published := Observe(crypto, batches);
    ObserveOnePerBatch(crypto, batches);
    picked := SessionIsFilteredSubsequence(stringify, lastEventId, published);
  }

  /** A connection whose cursor matches every position written receives nothing. */
  lemma LiveUpToDateCursor(
    crypto: Crypto, stringify: LivePayload -> string, cursor: string, batches: seq<seq<KvEntry>>)
    requires forall i :: 0 <= i < |batches| ==>
      Readable(batches[i]) && Fingerprint(crypto, LatestRecord(batches[i]).value) == cursor
    ensures Live(crypto, stringify, Some(cursor), batches) == []
  {
    ObserveOnePerBatch(crypto, batches);
    SessionNothingForwarded(stringify, Some(cursor), Observe(crypto, batches));
  }

  /** An unchanged position written twice reaches a connection twice: nothing deduplicates. */
  lemma LiveRepeatsUnchangedPosition(
    crypto: Crypto, stringify: LivePayload -> string, lastEventId: Option<string>, batch: seq<KvEntry>)
    requires Readable(batch)
    requires lastEventId != Some(Fingerprint(crypto, LatestRecord(batch).value))
    ensures var frames := Live(crypto, stringify, lastEventId, [batch, batch]);
      |frames| == 2 && frames[0] == frames[1]
  {
    ObserveRepeatsUnchangedPosition(crypto, batch);
    var u := UpdateFor(crypto, LatestRecord(batch).value);
    var f := FrameFor(stringify, u);
    assert [u, u][1..] == [u] && [u][1..] == [];
    assert Session(stringify, lastEventId, [u]) == [f];
    assert Session(stringify, lastEventId, [u, u]) == [f] + [f];
  }

  /**
   * End to end: a client reading the connection from scratch sees one
   * `location` event per batch whose fingerprint differs from its cursor,
   * each carrying that fingerprint as its last event ID.
   */
  lemma LiveReadsBack(
    crypto: Crypto, stringify: LivePayload -> string, lastEventId: Option<string>, batches: seq<seq<KvEntry>>)
    requires SingleLine(stringify(LivePayload(None, None)))
    ensures Parse(Concat(Live(crypto, stringify, lastEventId, batches)))
      == Announced(stringify(LivePayload(None, None)), Forwarded(lastEventId, Observe(crypto, batches)))
  {
    var published := Observe(crypto, batches);
    forall i | 0 <= i < |published|
      ensures HasId(Some(published[i].checksum)) && SingleLine(published[i].checksum) && NUL !in published[i].checksum
    {
      HexIdWritable(published[i].checksum);
    }
    SessionReadsBack(stringify, lastEventId, published, Initial);
  }
}
