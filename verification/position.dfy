/**
 * The position record the watcher reads from the store, and the string that
 * is hashed to fingerprint it. Every field is kept as the text JavaScript's
 * string concatenation renders it; the numbers behind them are not modelled.
 */
module Position {
  import opened Wrappers
  import opened Text
  import opened Hex
  import opened Hashing

  /** One stored fix of the tracker, each field as its string rendering. */
  datatype PositionRecord = PositionRecord(
    time: string,
    latitude: string,
    longitude: string,
    positionUncertainty: string)

  /**
   * `time + ',' + latitude + ',' + longitude`: the text fed to the checksum.
   * Cut at its commas it gives back the three fields, when they have none.
   */
  function FingerprintInput(r: PositionRecord): (s: string)
    ensures CommaFree(r) ==> Split(s, ',') == [r.time, r.latitude, r.longitude]
  {
    var s := r.time + "," + r.latitude + "," + r.longitude;
    JoinThree(r.time, r.latitude, r.longitude);
    if CommaFree(r) then
      SplitJoin([r.time, r.latitude, r.longitude], ',');
      s
    else s
  }

  /** The checksum of a record: forty hex digits that read back as the digest of its input. */
  function Fingerprint(crypto: Crypto, r: PositionRecord): (h: string)
    ensures |h| == 40 && AllHex(h)
    ensures HexDecode(h) == Some(DigestOf(crypto, FingerprintInput(r)))
  {
    Checksum(crypto, FingerprintInput(r))
  }

  /** Renderings without commas, as numbers always render. */
  predicate CommaFree(r: PositionRecord) {
    ',' !in r.time && ',' !in r.latitude && ',' !in r.longitude
  }

  /** Three strings glued with commas are their `Join`. */
  lemma JoinThree(a: string, b: string, c: string)
    ensures a + "," + b + "," + c == Join([a, b, c], ',')
  {
    assert [a, b, c][1..] == [b, c];
    assert [b, c][1..] == [c];
    assert Join([b, c], ',') == b + [','] + c;
    assert a + "," + b + "," + c == a + [','] + (b + [','] + c);
  }

  /** The input is exactly the three fields joined by single commas. */
  lemma FingerprintInputIsJoin(r: PositionRecord)
    ensures FingerprintInput(r) == Join([r.time, r.latitude, r.longitude], ',')
  {
    JoinThree(r.time, r.latitude, r.longitude);
  }

  /** Comma-free records with the same input agree on time, latitude and longitude. */
  lemma FingerprintInputInjective(r: PositionRecord, s: PositionRecord)
    requires CommaFree(r) && CommaFree(s)
    ensures FingerprintInput(r) == FingerprintInput(s) <==>
      (r.time, r.latitude, r.longitude) == (s.time, s.latitude, s.longitude)
  {
    var x, y := FingerprintInput(r), FingerprintInput(s);
    assert Split(x, ',') == [r.time, r.latitude, r.longitude];
    assert Split(y, ',') == [s.time, s.latitude, s.longitude];
  }

  /** The uncertainty radius never reaches the fingerprint. */
  lemma FingerprintIgnoresUncertainty(crypto: Crypto, r: PositionRecord, uncertainty: string)
    ensures Fingerprint(crypto, r.(positionUncertainty := uncertainty)) == Fingerprint(crypto, r)
  {
  }
}
