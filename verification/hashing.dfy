/**
 * `checksum(data)`: UTF-8 encode the string, take its SHA-1 digest and write
 * the digest in lower-case hex. The encoder and the digest are calls into the
 * platform, so they arrive as parameters; only their shapes are known.
 */
module Hashing {
  import opened Wrappers
  import opened Hex

  /** A SHA-1 digest: exactly twenty bytes. */
  type Digest = d: seq<byte> | |d| == 20
    witness [0, 0, 0, 0, 0, 0, 0, 0, 0, 0, 0, 0, 0, 0, 0, 0, 0, 0, 0, 0]

  /** The platform primitives `checksum` relies on: `TextEncoder.encode` and SHA-1. */
  datatype Crypto = Crypto(utf8: string -> seq<byte>, sha1: seq<byte> -> Digest)

  /** The digest the platform computes for `data`. */
  function DigestOf(crypto: Crypto, data: string): Digest {
    crypto.sha1(crypto.utf8(data))
  }

  /** The hex checksum of `data`: forty lower-case hex digits that read back as its digest. */
  function Checksum(crypto: Crypto, data: string): (h: string)
    ensures |h| == 40
    ensures AllHex(h)
    ensures HexDecode(h) == Some(DigestOf(crypto, data))
  {
    var d := DigestOf(crypto, data);
    DecodeEncode(d);
    HexEncode(d)
  }

  /** Two inputs share a checksum exactly when the platform gives them the same digest. */
  lemma ChecksumsAgreeIffDigestsAgree(crypto: Crypto, a: string, b: string)
    ensures Checksum(crypto, a) == Checksum(crypto, b) <==> DigestOf(crypto, a) == DigestOf(crypto, b)
  {
    HexEncodeInjective(DigestOf(crypto, a), DigestOf(crypto, b));
  }
}
