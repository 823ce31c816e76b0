/** The shared layout parameters and the two hash-derived pieces of a
    license: the key chunks of the payload and the checksum. The SHA-256
    digest is a parameter `sha` of every member that hashes, so each law
    below holds for every function from byte strings to 32-byte digests. */
module Lib {
  import opened Bytes

  /** Length in bytes of the checksum that ends every license. */
  const CHECKSUM_LEN: nat := 2

  /** Length in bytes of a SHA-256 digest. */
  const DIGEST_LEN: nat := 32

  type Digest = d: seq<byte> | |d| == DIGEST_LEN witness seq(32, _ => 0)

  /** The digest function (SHA-256 in the source), left uninterpreted. */
  type Sha256 = seq<byte> -> Digest

  /** The binary layout shared by generator and checker. */
  datatype LicenseStructParameters = LicenseStructParameters(
    seedLength: nat,      // seed length in bytes
    payloadLength: nat,   // payload length in chunks
    chunkSize: nat)       // chunk size in bytes

  /** The byte length of every license laid out by `params`:
      seed, then the payload chunks, then the checksum. */
  function RequiredLength(params: LicenseStructParameters): nat
  {
    params.seedLength + params.payloadLength * params.chunkSize + CHECKSUM_LEN
  }

  /** The default parameters: 6-byte seed, 10 chunks of 2 bytes each. */
  function DefaultParameters(): (p: LicenseStructParameters)
    ensures RequiredLength(p) == 28
    ensures p.chunkSize <= DIGEST_LEN
  {
    LicenseStructParameters(6, 10, 2)
  }

  /** The checksum: the first CHECKSUM_LEN bytes of the digest of the seed
      followed by every payload chunk. */
  function GenerateChecksum(sha: Sha256, seed: seq<byte>, payload: seq<seq<byte>>): (r: seq<byte>)
    ensures |r| == CHECKSUM_LEN
  {
    sha(seed + Flatten(payload))[..CHECKSUM_LEN]
  }

  /** A key chunk: the first `chunkSize` bytes of the digest of `iv ++ seed`.
      The source panics when `chunkSize` exceeds the digest length. */
  function GenerateKeyChunk(sha: Sha256, iv: seq<byte>, seed: seq<byte>, chunkSize: nat): (r: seq<byte>)
    requires chunkSize <= DIGEST_LEN
    ensures |r| == chunkSize
  {
    sha(iv + seed)[..chunkSize]
  }

  /** A key chunk depends on the IV and the seed only through their
      concatenation. */
  lemma KeyChunkOfConcatenation(sha: Sha256, iv1: seq<byte>, seed1: seq<byte>,
                                iv2: seq<byte>, seed2: seq<byte>, chunkSize: nat)
    requires chunkSize <= DIGEST_LEN
    requires iv1 + seed1 == iv2 + seed2
    ensures GenerateKeyChunk(sha, iv1, seed1, chunkSize) == GenerateKeyChunk(sha, iv2, seed2, chunkSize)
  {
  }

  /** A shorter key chunk is a prefix of a longer one. */
  lemma KeyChunkPrefix(sha: Sha256, iv: seq<byte>, seed: seq<byte>, k: nat, m: nat)
    requires k <= m <= DIGEST_LEN
    ensures GenerateKeyChunk(sha, iv, seed, k) == GenerateKeyChunk(sha, iv, seed, m)[..k]
  {
  }

  /** The checksum depends on the payload only through its bytes: splitting
      the same bytes into different chunks gives the same checksum. */
  lemma ChecksumIgnoresChunking(sha: Sha256, seed: seq<byte>, p1: seq<seq<byte>>, p2: seq<seq<byte>>)
    requires Flatten(p1) == Flatten(p2)
    ensures GenerateChecksum(sha, seed, p1) == GenerateChecksum(sha, seed, p2)
  {
  }

  /** Moving bytes between the seed and the payload leaves the checksum
      unchanged as long as the whole hashed string is the same: the hashed
      bytes carry no lengths, so only the fixed layout of the parser tells
      the seed from the first chunk. */
  lemma {:induction false} ChecksumOfShiftedSeed(sha: Sha256, seed: seq<byte>, first: seq<byte>,
                                                 rest: seq<seq<byte>>)
    ensures GenerateChecksum(sha, seed + first, rest) == GenerateChecksum(sha, seed, [first] + rest)
  {
    assert ([first] + rest)[1..] == rest;
    assert Flatten([first] + rest) == first + Flatten(rest);
    assert (seed + first) + Flatten(rest) == seed + (first + Flatten(rest));
  }
}
