/** The admin side: choosing IVs, generating licenses, and writing them out
    as bytes and as dashed base64 text. */
module Gen {
  import opened Wrappers
  import opened Bytes
  import opened Lib
  import opened Blockers
  import opened Check
  import Base64

  /** The IV length range `gen_range(10..16)` of the stand-alone generator,
      lower bound included, upper bound excluded. */
  const IV_MIN_LEN: nat := 10
  const IV_MAX_LEN: nat := 16

  /** The range `gen_range(1..10)` of the generator inlined in the crate root. */
  const INLINE_IV_MIN_LEN: nat := 1
  const INLINE_IV_MAX_LEN: nat := 10

  /** The generator: the layout and one IV per payload chunk. */
  datatype AdminGenerator = AdminGenerator(parameters: LicenseStructParameters, ivs: seq<seq<byte>>)

  datatype LicenseGenError = InvalidSeedLen

  /** `AdminGenerator::new_with_random_ivs`: one IV per payload chunk, each of
      a random length in `minLen..maxLen` and then overwritten with random
      bytes of the same length. The operating system's generator is modelled
      by nondeterministic choice. */
  method NewWithRandomIvs(parameters: LicenseStructParameters, minLen: nat, maxLen: nat)
    returns (g: AdminGenerator)
    requires minLen < maxLen
    ensures g.parameters == parameters
    ensures |g.ivs| == parameters.payloadLength
    ensures forall k :: 0 <= k < |g.ivs| ==> minLen <= |g.ivs[k]| < maxLen
  {
    var ivs: seq<seq<byte>> := [];
    for k := 0 to parameters.payloadLength
      invariant |ivs| == k
      invariant forall j :: 0 <= j < k ==> minLen <= |ivs[j]| < maxLen
    {
      assert minLen <= minLen < maxLen;
      var rngLen: nat :| minLen <= rngLen < maxLen;
      var iv: seq<byte> := [];
      for j := 0 to rngLen
        invariant |iv| == j
      {
        var single: byte :| 0 <= single < 256;
        iv := iv + [single];
      }
      // fill_bytes: fresh contents, same length
      for j := 0 to |iv|
        invariant |iv| == rngLen
      {
        var b: byte :| 0 <= b < 256;
        iv := iv[j := b];
      }
      ivs := ivs + [iv];
    }
    g := AdminGenerator(parameters, ivs);
  }

  /** `AdminGenerator::new_with_random_ivs` of the stand-alone generator:
      IVs of 10 to 15 bytes. */
  method NewStandaloneGenerator(parameters: LicenseStructParameters) returns (g: AdminGenerator)
    ensures g.parameters == parameters
    ensures |g.ivs| == parameters.payloadLength
    ensures forall k :: 0 <= k < |g.ivs| ==> 10 <= |g.ivs[k]| <= 15
  {
    g := NewWithRandomIvs(parameters, IV_MIN_LEN, IV_MAX_LEN);
  }

  /** The payload a generator derives from a seed: chunk `k` is the key chunk
      of IV `k`. */
  function KeyChunks(sha: Sha256, ivs: seq<seq<byte>>, seed: seq<byte>, chunkSize: nat): seq<seq<byte>>
    requires chunkSize <= DIGEST_LEN
  {
    seq(|ivs|, k requires 0 <= k < |ivs| => GenerateKeyChunk(sha, ivs[k], seed, chunkSize))
  }

  /** `AdminGenerator::generate_license` as a function of the generator and
      the seed. */
  function GeneratedLicense(sha: Sha256, g: AdminGenerator, seed: seq<byte>): (r: Result<License, LicenseGenError>)
    requires g.parameters.chunkSize <= DIGEST_LEN
    ensures r.Err? <==> |seed| != g.parameters.seedLength
  {
    if |seed| != g.parameters.seedLength then Err(InvalidSeedLen)
    else
      var payload := KeyChunks(sha, g.ivs, seed, g.parameters.chunkSize);
      Ok(License(seed, payload, GenerateChecksum(sha, seed, payload)))
  }

  /** `AdminGenerator::generate_license`: reject a seed of the wrong length,
      then push one key chunk per IV and close with the checksum. */
  method GenerateLicense(sha: Sha256, g: AdminGenerator, seed: seq<byte>)
    returns (r: Result<License, LicenseGenError>)
    requires g.parameters.chunkSize <= DIGEST_LEN
    ensures r == GeneratedLicense(sha, g, seed)
  {
    if |seed| != g.parameters.seedLength {
      return Err(InvalidSeedLen);
    }
    var payload: seq<seq<byte>> := [];
    for k := 0 to |g.ivs|
      invariant |payload| == k
      invariant forall j :: 0 <= j < k ==> payload[j] == GenerateKeyChunk(sha, g.ivs[j], seed, g.parameters.chunkSize)
    {
      payload := payload + [GenerateKeyChunk(sha, g.ivs[k], seed, g.parameters.chunkSize)];
    }
    assert payload == KeyChunks(sha, g.ivs, seed, g.parameters.chunkSize);
    var checksum := GenerateChecksum(sha, seed, payload);
    r := Ok(License(seed, payload, checksum));
  }

  /** What a generated license holds: the seed unchanged, chunk `k` derived
      from IV `k`, and a checksum that `verify_checksum` accepts. */
  lemma GeneratedLicenseContents(sha: Sha256, g: AdminGenerator, seed: seq<byte>)
    requires g.parameters.chunkSize <= DIGEST_LEN
    requires |seed| == g.parameters.seedLength
    ensures var license := GeneratedLicense(sha, g, seed).value;
            && license.seed == seed
            && |license.payload| == |g.ivs|
            && (forall k :: 0 <= k < |g.ivs| ==>
                  license.payload[k] == GenerateKeyChunk(sha, g.ivs[k], seed, g.parameters.chunkSize))
            && VerifyChecksum(sha, license) == Ok(())
  {
  }

  /** With one IV per payload chunk, a generated license has the layout of
      the generator's parameters. */
  lemma GeneratedWellFormed(sha: Sha256, g: AdminGenerator, seed: seq<byte>)
    requires g.parameters.chunkSize <= DIGEST_LEN
    requires |seed| == g.parameters.seedLength
    requires |g.ivs| == g.parameters.payloadLength
    ensures WellFormed(GeneratedLicense(sha, g, seed).value, g.parameters)
  {
  }

  /** A client that knows IV `k` and its index accepts a generated license,
      unless the blocker objects, in which case it reports the blocker's
      error. */
  lemma GeneratedVerifies(sha: Sha256, g: AdminGenerator, seed: seq<byte>, k: nat,
                          blocker: Blocker, fetched: FetchResult)
    requires g.parameters.chunkSize <= DIGEST_LEN
    requires |seed| == g.parameters.seedLength
    requires k < |g.ivs|
    ensures var license := GeneratedLicense(sha, g, seed).value;
            var info := LicenseCheckInfo(g.ivs[k], k);
            NoPanicOnVerify(sha, license, info) &&
            VerifyLicense(sha, license, info, blocker, fetched) ==
              match CheckBlock(blocker, seed, fetched)
              case Ok(_) => LicenseGood
              case Err(e) => LicenseBlocked(e)
  {
    GeneratedLicenseContents(sha, g, seed);
  }

  /** An index past the generator's IVs is refused as `InvalidIVIndex`. */
  lemma GeneratedIndexOutOfRange(sha: Sha256, g: AdminGenerator, seed: seq<byte>, info: LicenseCheckInfo,
                                 blocker: Blocker, fetched: FetchResult)
    requires g.parameters.chunkSize <= DIGEST_LEN
    requires |seed| == g.parameters.seedLength
    requires info.ivIndex >= |g.ivs|
    ensures var license := GeneratedLicense(sha, g, seed).value;
            NoPanicOnVerify(sha, license, info) &&
            VerifyLicense(sha, license, info, blocker, fetched) == InvalidIVIndex
  {
    GeneratedLicenseContents(sha, g, seed);
  }

  // ---------------------------------------------------------------------------
  // Bytes

  /** `License::to_bytes`: seed, payload chunks, checksum. */
  function ToBytes(license: License): (r: seq<byte>)
    ensures |license.seed| + |license.checksum| <= |r|
    ensures r[..|license.seed|] == license.seed
    ensures r[|r| - |license.checksum| ..] == license.checksum
  {
    license.seed + Flatten(license.payload) + license.checksum
  }

  /** A well-formed license is written out in exactly the length its
      parameters require. */
  lemma ToBytesLength(license: License, params: LicenseStructParameters)
    requires WellFormed(license, params)
    ensures |ToBytes(license)| == RequiredLength(params)
  {
    FlattenLength(license.payload, params.chunkSize);
  }

  /** Cutting the payload bytes into chunks and flattening them again gives
      the payload bytes back. */
  lemma {:induction false} FlattenPayloadChunks(payloadBytes: seq<byte>, count: nat, chunkSize: nat)
    requires |payloadBytes| == count * chunkSize
    ensures Flatten(PayloadChunks(payloadBytes, count, chunkSize)) == payloadBytes
    decreases count
  {
    if chunkSize > 0 && count > 0 {
      MulSucc(count - 1, chunkSize);
      var last := (count - 1) * chunkSize;
      var front := payloadBytes[..last];
      FlattenPayloadChunks(front, count - 1, chunkSize);
      FlattenAppend(PayloadChunks(front, count - 1, chunkSize), [payloadBytes[last..]]);
      assert Flatten([payloadBytes[last..]]) == payloadBytes[last..] by {
        assert [payloadBytes[last..]][1..] == [];
      }
      assert payloadBytes == front + payloadBytes[last..];
    }
  }

  /** Writing a parsed license back out gives the input bytes, for every
      input of the right length. */
  lemma ToBytesOfParse(bytes: seq<byte>, params: LicenseStructParameters)
    requires ParseBytes(bytes, params).Ok?
    ensures ToBytes(ParseBytes(bytes, params).value) == bytes
  {
    var sl, pl, cs := params.seedLength, params.payloadLength, params.chunkSize;
    var og := bytes[sl .. sl + pl * cs];
    FlattenPayloadChunks(og, pl, cs);
    assert bytes == bytes[..sl] + og + bytes[|bytes| - CHECKSUM_LEN ..];
  }

  /** Parsing the bytes of a well-formed license gives the license back. */
  lemma ParseOfToBytes(license: License, params: LicenseStructParameters)
    requires WellFormed(license, params)
    requires params.chunkSize > 0
    ensures ParseBytes(ToBytes(license), params) == Ok(license)
  {
    var bytes := ToBytes(license);
    var sl, pl, cs := params.seedLength, params.payloadLength, params.chunkSize;
    FlattenLength(license.payload, cs);
    var flat := Flatten(license.payload);
    assert bytes[..sl] == license.seed;
    assert bytes[|bytes| - CHECKSUM_LEN ..] == license.checksum;
    assert bytes[sl .. sl + pl * cs] == flat;
    var parsed := PayloadChunks(flat, pl, cs);
    forall i | 0 <= i < pl
      ensures parsed[i] == license.payload[i]
    {
      PayloadChunksAt(flat, pl, cs, i);
      FlattenSlice(license.payload, cs, i);
    }
    assert parsed == license.payload;
  }

  // ---------------------------------------------------------------------------
  // The dashed text form

  /** The dashed form of `s`: a `-` before every character whose index is a
      positive multiple of 4. */
  function InsertDashes(s: seq<byte>): seq<byte>
  {
    if s == [] then []
    else
      var i := |s| - 1;
      InsertDashes(s[..i]) + DashBefore(i) + [s[i]]
  }

  /** What the loop writes before character `i`. */
  function DashBefore(i: nat): seq<byte>
  {
    if i % 4 == 0 && i != 0 then [DASH] else []
  }

  /** `License::to_human_readable`: base64-encode the bytes, then copy them
      one by one, writing a `-` before every fourth. */
  method ToHumanReadable(license: License) returns (dashed: seq<byte>)
    ensures dashed == InsertDashes(Base64.Encode(ToBytes(license)))
  {
    var encoded := Base64.Encode(ToBytes(license));
    dashed := [];
    for i := 0 to |encoded|
      invariant dashed == InsertDashes(encoded[..i])
    {
      if i % 4 == 0 && i != 0 {
        dashed := dashed + [DASH];
      }
      dashed := dashed + [encoded[i]];
      assert encoded[..i + 1][..i] == encoded[..i];
    }
    assert encoded[..|encoded|] == encoded;
  }

  /** The dashed text of a license, as `ToHumanReadable` returns it. */
  function HumanReadable(license: License): seq<byte>
  {
    InsertDashes(Base64.Encode(ToBytes(license)))
  }

  /** `n` characters take `n + (n - 1) / 4` bytes once dashed. */
  lemma {:induction false} InsertDashesLength(s: seq<byte>)
    requires |s| > 0
    ensures |InsertDashes(s)| == |s| + (|s| - 1) / 4
  {
    var i := |s| - 1;
    assert |InsertDashes(s)| == |InsertDashes(s[..i])| + |DashBefore(i)| + 1;
    if i > 0 {
      InsertDashesLength(s[..i]);
      DashCount(i);
    }
  }

  /** One more character adds a dash exactly when it starts a new group. */
  lemma DashCount(i: nat)
    requires i > 0
    ensures (i - 1) / 4 + |DashBefore(i)| == i / 4
  {
    var q, r := i / 4, i % 4;
    assert i == 4 * q + r;
    if r == 0 {
      assert (i - 1) / 4 == q - 1;
    } else {
      assert (i - 1) / 4 == q;
    }
  }

  /** The dashed text starts with the first character and ends with the last,
      so text without dashes never starts or ends with one. */
  lemma InsertDashesEnds(s: seq<byte>)
    requires |s| > 0
    ensures |InsertDashes(s)| > 0
    ensures InsertDashes(s)[0] == s[0]
    ensures InsertDashes(s)[|InsertDashes(s)| - 1] == s[|s| - 1]
  {
    InsertDashesFirst(s);
  }

  lemma {:induction false} InsertDashesFirst(s: seq<byte>)
    requires |s| > 0
    ensures |InsertDashes(s)| > 0 && InsertDashes(s)[0] == s[0]
  {
    var i := |s| - 1;
    if i > 0 {
      InsertDashesFirst(s[..i]);
    }
  }

  /** Every position of the dashed text: each fifth byte is a dash, and the
      others are the characters in order. */
  lemma {:induction false} InsertDashesAt(s: seq<byte>, j: nat)
    requires j < |InsertDashes(s)|
    ensures j - j / 5 < |s|
    ensures InsertDashes(s)[j] == if j % 5 == 4 then DASH else s[j - j / 5]
  {
    var i := |s| - 1;
    var front := s[..i];
    var prefix := InsertDashes(front);
    if i > 0 {
      InsertDashesLength(front);
    }
    assert InsertDashes(s) == prefix + DashBefore(i) + [s[i]];
    if j < |prefix| {
      InsertDashesAt(front, j);
    } else {
      InsertDashesLastPositions(i, |prefix|, j);
    }
  }

  /** The arithmetic behind the last one or two positions. */
  lemma InsertDashesLastPositions(i: nat, p: nat, j: nat)
    requires p == if i == 0 then 0 else i + (i - 1) / 4
    requires p <= j < p + |DashBefore(i)| + 1
    ensures j - j / 5 <= i
    ensures j == p + |DashBefore(i)| ==> j % 5 != 4 && j - j / 5 == i
    ensures j < p + |DashBefore(i)| ==> j % 5 == 4
  {
  }

  /** Removing the dashes undoes inserting them, for text without dashes. */
  lemma {:induction false} RemoveInsertedDashes(s: seq<byte>)
    requires DASH !in s
    ensures RemoveDashes(InsertDashes(s)) == s
  {
    if s != [] {
      var i := |s| - 1;
      NoDashInFront(s);
      RemoveInsertedDashes(s[..i]);
      RemoveInsertedDashesSnoc(s);
      assert s == s[..i] + [s[i]];
    }
  }

  /** The text before the last character has no dash either. */
  lemma NoDashInFront(s: seq<byte>)
    requires s != [] && DASH !in s
    ensures DASH !in s[..|s| - 1] && s[|s| - 1] != DASH
  {
    assert forall k :: 0 <= k < |s| - 1 ==> s[..|s| - 1][k] == s[k];
  }

  /** Dashing and undashing one more character appends just that character. */
  lemma RemoveInsertedDashesSnoc(s: seq<byte>)
    requires s != [] && s[|s| - 1] != DASH
    ensures RemoveDashes(InsertDashes(s)) == RemoveDashes(InsertDashes(s[..|s| - 1])) + [s[|s| - 1]]
  {
    var i := |s| - 1;
    assert InsertDashes(s) == InsertDashes(s[..i]) + DashBefore(i) + [s[i]];
    RemoveDashesStep(InsertDashes(s[..i]), i, s[i]);
  }

  /** One step of the loop, with its dashes removed again. */
  lemma RemoveDashesStep(dashed: seq<byte>, i: nat, c: byte)
    requires c != DASH
    ensures RemoveDashes(dashed + DashBefore(i) + [c]) == RemoveDashes(dashed) + [c]
  {
    RemoveDashesSnoc(dashed + DashBefore(i), c);
    if DashBefore(i) == [] {
      assert dashed + DashBefore(i) == dashed;
    } else {
      RemoveDashesSnoc(dashed, DASH);
    }
  }

  lemma RemoveDashesSnoc(s: seq<byte>, c: byte)
    ensures RemoveDashes(s + [c]) == RemoveDashes(s) + Kept(c)
  {
    assert (s + [c])[..|s|] == s;
  }

  /** The client reads back every well-formed license the admin writes out. */
  lemma FromHumanReadableOfHumanReadable(license: License, params: LicenseStructParameters)
    requires WellFormed(license, params)
    requires params.chunkSize > 0
    ensures FromHumanReadable(HumanReadable(license), params) == Ok(license)
  {
    var bytes := ToBytes(license);
    var encoded := Base64.Encode(bytes);
    Base64.EncodeHasNoSeparator(bytes);
    RemoveInsertedDashes(encoded);
    Base64.DecodeEncode(bytes);
    ParseOfToBytes(license, params);
  }

  /** The whole pipeline: generate, write out as text, read back, verify with
      IV `k`. */
  lemma GeneratedTextVerifies(sha: Sha256, g: AdminGenerator, seed: seq<byte>, k: nat,
                              blocker: Blocker, fetched: FetchResult)
    requires 0 < g.parameters.chunkSize <= DIGEST_LEN
    requires |seed| == g.parameters.seedLength
    requires |g.ivs| == g.parameters.payloadLength
    requires k < |g.ivs|
    ensures var license := GeneratedLicense(sha, g, seed).value;
            var info := LicenseCheckInfo(g.ivs[k], k);
            var read := FromHumanReadable(HumanReadable(license), g.parameters);
            && read == Ok(license)
            && NoPanicOnVerify(sha, read.value, info)
            && (VerifyLicense(sha, read.value, info, blocker, fetched) ==
                  match CheckBlock(blocker, seed, fetched)
                  case Ok(_) => LicenseGood
                  case Err(e) => LicenseBlocked(e))
  {
    GeneratedWellFormed(sha, g, seed);
    FromHumanReadableOfHumanReadable(GeneratedLicense(sha, g, seed).value, g.parameters);
    GeneratedVerifies(sha, g, seed, k, blocker, fetched);
  }
}
