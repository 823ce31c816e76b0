/** The unit tests of the crate root, as methods whose postconditions are
    the tests' assertions, for every digest function. */
module LibTests {
  import opened Wrappers
  import opened Bytes
  import opened Lib
  import opened Blockers
  import opened Check
  import opened Gen

  /** The seed every test licenses. */
  const TEST_SEED: seq<byte> := [5, 100, 42, 69, 3, 90]

  /** `new_test_genner`: the 6/10/2 layout with random IVs of the inlined
      generator. */
  method NewTestGenner() returns (genner: AdminGenerator)
    ensures genner.parameters == LicenseStructParameters(6, 10, 2)
    ensures |genner.ivs| == 10
    ensures forall k :: 0 <= k < |genner.ivs| ==> INLINE_IV_MIN_LEN <= |genner.ivs[k]| < INLINE_IV_MAX_LEN
  {
    genner := NewWithRandomIvs(LicenseStructParameters(6, 10, 2), INLINE_IV_MIN_LEN, INLINE_IV_MAX_LEN);
  }

  /** `new_test_license`: the test seed's license; the `unwrap` cannot fail. */
  method NewTestLicense(sha: Sha256) returns (license: License)
    ensures WellFormed(license, LicenseStructParameters(6, 10, 2))
    ensures license.seed == TEST_SEED
  {
    var genner := NewTestGenner();
    var generated := GenerateLicense(sha, genner, TEST_SEED);
    GeneratedWellFormed(sha, genner, TEST_SEED);
    GeneratedLicenseContents(sha, genner, TEST_SEED);
    license := generated.value;
  }

  /** `checksum_works_for_valid`: a generated license passes the checksum. */
  method ChecksumWorksForValid(sha: Sha256) returns (r: Result<(), WrongChecksum>)
    ensures r == Ok(())
  {
    var genner := NewTestGenner();
    var generated := GenerateLicense(sha, genner, TEST_SEED);
    GeneratedLicenseContents(sha, genner, TEST_SEED);
    r := VerifyChecksum(sha, generated.value);
  }

  /** `license_works`: the license of the test seed, checked with the first
      IV at index 0 and no blocker, is good. The fetch outcome is never
      consulted. */
  method LicenseWorks(sha: Sha256) returns (result: LicenseVerifyResult)
    ensures result == LicenseGood
  {
    var genner := NewTestGenner();
    var generated := GenerateLicense(sha, genner, TEST_SEED);
    var info := LicenseCheckInfo(genner.ivs[0], 0);
    GeneratedVerifies(sha, genner, TEST_SEED, 0, NoBlock, TransportError);
    result := VerifyLicense(sha, generated.value, info, NoBlock, TransportError);
  }
}
