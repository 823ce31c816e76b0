/** The client side: parsing a license from bytes or from its dashed text
    form, and verifying it against one known IV. */
module Check {
  import opened Wrappers
  import opened Bytes
  import opened Lib
  import opened Blockers
  import Base64

  /** What the client knows: one IV and its position in the payload. */
  datatype LicenseCheckInfo = LicenseCheckInfo(knownIv: seq<byte>, ivIndex: nat)

  /** The contents of a license. */
  datatype License = License(seed: seq<byte>, payload: seq<seq<byte>>, checksum: seq<byte>)

  datatype LicenseParseError = InvalidLength

  datatype HumanReadableParseError =
    | Base64DecodeError
    | ParseBytesError(error: LicenseParseError)

  datatype WrongChecksum = WrongChecksum

  /** The outcome of a verification. `LicenseGood` is the `Ok(())` of the
      stand-alone checker and each other outcome its error of the same name. */
  datatype LicenseVerifyResult =
    | InvalidIVIndex
    | ChecksumFailed
    | LicenseGood
    | LicenseForged
    | LicenseBlocked(reason: BlockCheckError)

  /** A license with the shape `params` prescribes. */
  predicate WellFormed(license: License, params: LicenseStructParameters)
  {
    && |license.seed| == params.seedLength
    && |license.payload| == params.payloadLength
    && AllOfSize(license.payload, params.chunkSize)
    && |license.checksum| == CHECKSUM_LEN
  }

  /** `License::verify_checksum`: only the checksum, not the key chunks. */
  function VerifyChecksum(sha: Sha256, license: License): (r: Result<(), WrongChecksum>)
    ensures r.Ok? <==> license.checksum == GenerateChecksum(sha, license.seed, license.payload)
  {
    if GenerateChecksum(sha, license.seed, license.payload) == license.checksum then Ok(())
    else Err(WrongChecksum)
  }

  /** Verification reaches the key-chunk comparison only past the checksum
      and with an index inside the payload; the source panics there when
      that chunk is longer than a digest. */
  predicate NoPanicOnVerify(sha: Sha256, license: License, info: LicenseCheckInfo)
  {
    VerifyChecksum(sha, license).Ok? && info.ivIndex < |license.payload| ==>
      |license.payload[info.ivIndex]| <= DIGEST_LEN
  }

  /** `verify_license`: checksum, then IV index, then the key chunk compared
      at the known IV's position, then the blocker. */
  function VerifyLicense(sha: Sha256, license: License, info: LicenseCheckInfo,
                         blocker: Blocker, fetched: FetchResult): (r: LicenseVerifyResult)
    requires NoPanicOnVerify(sha, license, info)
    ensures r == LicenseGood ==>
              && VerifyChecksum(sha, license).Ok?
              && info.ivIndex < |license.payload|
              && ChunkMatches(sha, license, info)
              && CheckBlock(blocker, license.seed, fetched) == Ok(())
    ensures r.LicenseBlocked? ==> CheckBlock(blocker, license.seed, fetched) == Err(r.reason)
  {
    if VerifyChecksum(sha, license).Err? then ChecksumFailed
    else if info.ivIndex >= |license.payload| then InvalidIVIndex
    else
      var chunk := license.payload[info.ivIndex];
      if chunk == GenerateKeyChunk(sha, info.knownIv, license.seed, |chunk|) then
        match CheckBlock(blocker, license.seed, fetched)
        case Err(e) => LicenseBlocked(e)
        case Ok(_) => LicenseGood
      else LicenseForged
  }

  /** The chunk at the known IV's position is the one derived from that IV. */
  predicate ChunkMatches(sha: Sha256, license: License, info: LicenseCheckInfo)
    requires info.ivIndex < |license.payload|
    requires |license.payload[info.ivIndex]| <= DIGEST_LEN
  {
    var chunk := license.payload[info.ivIndex];
    chunk == GenerateKeyChunk(sha, info.knownIv, license.seed, |chunk|)
  }

  /** The decision ladder: each outcome, and the conditions under which it is
      the one that comes out. */
  lemma VerifyLadder(sha: Sha256, license: License, info: LicenseCheckInfo,
                     blocker: Blocker, fetched: FetchResult)
    requires NoPanicOnVerify(sha, license, info)
    ensures var r := VerifyLicense(sha, license, info, blocker, fetched);
            var checksumOk := VerifyChecksum(sha, license).Ok?;
            var inRange := info.ivIndex < |license.payload|;
            var block := CheckBlock(blocker, license.seed, fetched);
            && (r == ChecksumFailed <==> !checksumOk)
            && (r == InvalidIVIndex <==> checksumOk && !inRange)
            && (r == LicenseForged <==> checksumOk && inRange && !ChunkMatches(sha, license, info))
            && (r.LicenseBlocked? <==> checksumOk && inRange && ChunkMatches(sha, license, info) && block.Err?)
            && (r.LicenseBlocked? ==> block == Err(r.reason))
            && (r == LicenseGood <==> checksumOk && inRange && ChunkMatches(sha, license, info) && block.Ok?)
  {
  }

  /** A wrong checksum is reported whatever the IV, the index or the blocker. */
  lemma ChecksumComesFirst(sha: Sha256, license: License, info: LicenseCheckInfo,
                           blocker: Blocker, fetched: FetchResult)
    requires VerifyChecksum(sha, license).Err?
    ensures VerifyLicense(sha, license, info, blocker, fetched) == ChecksumFailed
  {
  }

  /** Every outcome except `LicenseBlocked` and `LicenseGood` is decided
      without consulting the blocker. */
  lemma BlockerOnlyDecidesLast(sha: Sha256, license: License, info: LicenseCheckInfo,
                               b1: Blocker, f1: FetchResult, b2: Blocker, f2: FetchResult)
    requires NoPanicOnVerify(sha, license, info)
    requires var r := VerifyLicense(sha, license, info, b1, f1); !r.LicenseBlocked? && r != LicenseGood
    ensures VerifyLicense(sha, license, info, b2, f2) == VerifyLicense(sha, license, info, b1, f1)
  {
  }

  // ---------------------------------------------------------------------------
  // Parsing bytes

  /** The chunks that the parsing loop cuts from the payload bytes: `count`
      chunks of `chunkSize` bytes each, and none at all when `chunkSize` is 0
      (the loop then never runs). */
  function PayloadChunks(payloadBytes: seq<byte>, count: nat, chunkSize: nat): (r: seq<seq<byte>>)
    requires |payloadBytes| == count * chunkSize
    ensures |r| == if chunkSize == 0 then 0 else count
    decreases count
  {
    if chunkSize == 0 || count == 0 then []
    else
      MulSucc(count - 1, chunkSize);
      var last := (count - 1) * chunkSize;
      PayloadChunks(payloadBytes[..last], count - 1, chunkSize) + [payloadBytes[last..]]
  }

  /** Chunk `j` of the payload is the `chunkSize` bytes at `j * chunkSize`. */
  lemma {:induction false} PayloadChunksAt(payloadBytes: seq<byte>, count: nat, chunkSize: nat, j: nat)
    requires |payloadBytes| == count * chunkSize
    requires chunkSize > 0
    requires j < count
    ensures |PayloadChunks(payloadBytes, count, chunkSize)| == count
    ensures j * chunkSize + chunkSize <= |payloadBytes|
    ensures PayloadChunks(payloadBytes, count, chunkSize)[j]
              == payloadBytes[j * chunkSize .. j * chunkSize + chunkSize]
  {
    MulSucc(count - 1, chunkSize);
    var last := (count - 1) * chunkSize;
    var front := payloadBytes[..last];
    if j < count - 1 {
      PayloadChunksAt(front, count - 1, chunkSize, j);
      assert front[j * chunkSize .. j * chunkSize + chunkSize]
          == payloadBytes[j * chunkSize .. j * chunkSize + chunkSize];
    } else if count - 1 > 0 {
      PayloadChunksAt(front, count - 1, chunkSize, 0);
    }
  }

  /** `License::from_license_bytes` as a function of its input. */
  function ParseBytes(bytes: seq<byte>, params: LicenseStructParameters): (r: Result<License, LicenseParseError>)
    ensures r.Err? <==> |bytes| != RequiredLength(params)
  {
    if |bytes| != RequiredLength(params) then Err(InvalidLength)
    else
      var payloadEnd := params.seedLength + params.payloadLength * params.chunkSize;
      Ok(License(bytes[..params.seedLength],
                 PayloadChunks(bytes[params.seedLength .. payloadEnd], params.payloadLength, params.chunkSize),
                 bytes[|bytes| - CHECKSUM_LEN ..]))
  }

  /** `License::from_license_bytes`: check the length, then cut the payload
      bytes into chunks in a loop. */
  method FromLicenseBytes(licenseBytes: seq<byte>, params: LicenseStructParameters)
    returns (r: Result<License, LicenseParseError>)
    ensures r == ParseBytes(licenseBytes, params)
  {
    var chunkSize := params.chunkSize;
    var payloadLenInBytes := params.payloadLength * chunkSize;
    var shouldLen := params.seedLength + payloadLenInBytes + CHECKSUM_LEN;
    if |licenseBytes| != shouldLen {
      return Err(InvalidLength);
    }
    var ogPayload := licenseBytes[params.seedLength .. params.seedLength + payloadLenInBytes];
    var chunks: seq<seq<byte>> := [];
    var i := 0;
    while i < |ogPayload|
      invariant i <= |ogPayload|
      invariant i == |chunks| * chunkSize
      invariant chunks == PayloadChunks(ogPayload[..i], |chunks|, chunkSize)
      decreases |ogPayload| - i
    {
      MulCancelLess(|chunks|, params.payloadLength, chunkSize);
      MulStep(|chunks|, params.payloadLength, chunkSize);
      MulSucc(|chunks|, chunkSize);
      var next := ogPayload[..i + chunkSize];
      assert next[..i] == ogPayload[..i];
      assert next[i..] == ogPayload[i .. i + chunkSize];
      chunks := chunks + [ogPayload[i .. i + chunkSize]];
      i := i + chunkSize;
    }
    assert ogPayload[..i] == ogPayload;
    if chunkSize > 0 {
      if |chunks| < params.payloadLength {
        MulStep(|chunks|, params.payloadLength, chunkSize);
      } else if |chunks| > params.payloadLength {
        MulStep(params.payloadLength, |chunks|, chunkSize);
      }
    }
    r := Ok(License(licenseBytes[..params.seedLength], chunks,
                    licenseBytes[|licenseBytes| - CHECKSUM_LEN ..]));
  }

  /** The fixed layout: on success, the seed is the first `seedLength` bytes,
      the checksum the last CHECKSUM_LEN, and chunk `i` the `chunkSize` bytes
      at `seedLength + i * chunkSize`. */
  lemma ParseBytesLayout(bytes: seq<byte>, params: LicenseStructParameters)
    requires ParseBytes(bytes, params).Ok?
    requires params.chunkSize > 0
    ensures var license := ParseBytes(bytes, params).value;
            && license.seed == bytes[..params.seedLength]
            && license.checksum == bytes[|bytes| - CHECKSUM_LEN ..]
            && forall i :: 0 <= i < params.payloadLength ==>
                 params.seedLength + i * params.chunkSize + params.chunkSize <= |bytes| &&
                 license.payload[i] == bytes[params.seedLength + i * params.chunkSize ..
                                             params.seedLength + i * params.chunkSize + params.chunkSize]
  {
    var license := ParseBytes(bytes, params).value;
    var sl, pl, cs := params.seedLength, params.payloadLength, params.chunkSize;
    forall i | 0 <= i < pl
      ensures sl + i * cs + cs <= |bytes|
      ensures license.payload[i] == bytes[sl + i * cs .. sl + i * cs + cs]
    {
      ParseBytesChunk(bytes, params, i);
    }
  }

  /** A successful parse with chunks of at least one byte has the shape the
      parameters give. */
  lemma ParseBytesWellFormed(bytes: seq<byte>, params: LicenseStructParameters)
    requires ParseBytes(bytes, params).Ok?
    requires params.chunkSize > 0
    ensures WellFormed(ParseBytes(bytes, params).value, params)
  {
    var license := ParseBytes(bytes, params).value;
    forall i | 0 <= i < |license.payload|
      ensures |license.payload[i]| == params.chunkSize
    {
      ParseBytesChunk(bytes, params, i);
    }
  }

  lemma ParseBytesChunk(bytes: seq<byte>, params: LicenseStructParameters, i: nat)
    requires ParseBytes(bytes, params).Ok?
    requires params.chunkSize > 0
    requires i < params.payloadLength
    ensures params.seedLength + i * params.chunkSize + params.chunkSize <= |bytes|
    ensures ParseBytes(bytes, params).value.payload[i]
              == bytes[params.seedLength + i * params.chunkSize ..
                       params.seedLength + i * params.chunkSize + params.chunkSize]
  {
    var sl, pl, cs := params.seedLength, params.payloadLength, params.chunkSize;
    var og := bytes[sl .. sl + pl * cs];
    PayloadChunksAt(og, pl, cs, i);
    SliceOfSlice(bytes, sl, sl + pl * cs, i * cs, i * cs + cs);
  }

  /** With `chunkSize` 0 the payload comes out empty, however many chunks
      the parameters name. */
  lemma ParseBytesZeroChunkSize(bytes: seq<byte>, params: LicenseStructParameters)
    requires ParseBytes(bytes, params).Ok?
    requires params.chunkSize == 0
    ensures ParseBytes(bytes, params).value.payload == []
  {
  }

  // ---------------------------------------------------------------------------
  // Parsing the human-readable form

  /** The bytes of `s` with every `-` removed, the others kept in order. */
  function RemoveDashes(s: seq<byte>): (r: seq<byte>)
    ensures DASH !in r
  {
    if s == [] then [] else RemoveDashes(s[..|s| - 1]) + Kept(s[|s| - 1])
  }

  /** What removing the dashes keeps of one byte. */
  function Kept(c: byte): (r: seq<byte>)
    ensures DASH !in r
  {
    if c == DASH then [] else [c]
  }

  lemma {:induction false} RemoveDashesAppend(a: seq<byte>, b: seq<byte>)
    ensures RemoveDashes(a + b) == RemoveDashes(a) + RemoveDashes(b)
  {
    if b == [] {
      assert a + b == a;
    } else {
      var b' := b[..|b| - 1];
      var c := b[|b| - 1];
      assert (a + b)[..|a + b| - 1] == a + b';
      assert (a + b)[|a + b| - 1] == c;
      assert RemoveDashes(a + b) == RemoveDashes(a + b') + Kept(c);
      RemoveDashesAppend(a, b');
      assert RemoveDashes(b) == RemoveDashes(b') + Kept(c);
    }
  }

  /** Every byte other than `-` occurs as often after as before. */
  lemma {:induction false} RemoveDashesKeepsOthers(s: seq<byte>, x: byte)
    requires x != DASH
    ensures multiset(RemoveDashes(s))[x] == multiset(s)[x]
  {
    if s != [] {
      var init, c := s[..|s| - 1], s[|s| - 1];
      var kept: multiset<byte> := multiset(Kept(c));
      var before: multiset<byte> := multiset(init);
      assert multiset(s)[x] == before[x] + kept[x] by {
        assert s == init + [c];
        assert multiset(s) == multiset(init) + multiset{c};
      }
      var after: multiset<byte> := multiset(RemoveDashes(init));
      assert multiset(RemoveDashes(s))[x] == after[x] + kept[x] by {
        assert multiset(RemoveDashes(s)) == multiset(RemoveDashes(init)) + multiset(Kept(c));
      }
      RemoveDashesKeepsOthers(init, x);
    }
  }

  /** Text without a dash is left as it is. */
  lemma {:induction false} RemoveDashesWithoutDash(s: seq<byte>)
    requires DASH !in s
    ensures RemoveDashes(s) == s
  {
    if s != [] {
      RemoveDashesWithoutDash(s[..|s| - 1]);
      assert s == s[..|s| - 1] + [s[|s| - 1]];
    }
  }

  /** `License::from_human_readable`: drop the dashes, base64-decode, parse. */
  function FromHumanReadable(readable: seq<byte>, params: LicenseStructParameters)
    : (r: Result<License, HumanReadableParseError>)
    ensures r.Ok? ==> |r.value.seed| == params.seedLength && |r.value.checksum| == CHECKSUM_LEN
    ensures r.Ok? && params.chunkSize > 0 ==> WellFormed(r.value, params)
  {
    match Base64.Decode(RemoveDashes(readable))
    case None => Err(Base64DecodeError)
    case Some(decoded) =>
      match ParseBytes(decoded, params)
      case Ok(license) =>
        if params.chunkSize > 0 then ParseBytesWellFormed(decoded, params); Ok(license) else Ok(license)
      case Err(e) => Err(ParseBytesError(e))
  }

  /** Dashes anywhere in the text make no difference to the parse. */
  lemma FromHumanReadableIgnoresDashes(a: seq<byte>, b: seq<byte>, params: LicenseStructParameters)
    ensures FromHumanReadable(a + [DASH] + b, params) == FromHumanReadable(a + b, params)
  {
    RemoveDashesAppend(a + [DASH], b);
    assert (a + [DASH])[..|a|] == a;
    assert RemoveDashes(a + [DASH]) == RemoveDashes(a);
    RemoveDashesAppend(a, b);
    assert RemoveDashes(a + [DASH] + b) == RemoveDashes(a + b);
  }

  /** The three ways a text can come out: not base64, base64 of the wrong
      length, or a license exactly as parsed from the decoded bytes. */
  lemma FromHumanReadableOutcome(readable: seq<byte>, params: LicenseStructParameters)
    ensures var decoded := Base64.Decode(RemoveDashes(readable));
            var r := FromHumanReadable(readable, params);
            && (r == Err(Base64DecodeError) <==> decoded.None?)
            && (r == Err(ParseBytesError(InvalidLength)) <==>
                  decoded.Some? && |decoded.value| != RequiredLength(params))
            && (r.Ok? ==> decoded.Some? && ParseBytes(decoded.value, params) == Ok(r.value))
  {
  }
}
