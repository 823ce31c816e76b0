# licenses_pro in Dafny

`licenses_pro` issues and checks offline software licenses. This project models its core in Dafny and proves properties of that model.

An admin holds a `AdminGenerator`: the layout parameters and one secret IV per payload chunk. For a seed, the generator writes a license of three parts:

- the seed;
- one key chunk per IV, each a prefix of SHA-256 of `iv ++ seed`;
- a 2-byte checksum, the prefix of SHA-256 of the seed followed by every chunk.

A license is handed out as dashed base64 text. A client knows one IV and its index. Verification runs a fixed ladder:

1. check the checksum;
2. check the index;
3. compare the chunk at that index with the one derived from the known IV;
4. finally, consult a *blocker*, which says whether the seed has been revoked.

The blocker is either nothing, a built-in list, or a remote file of base64 lines.

Modules:

- `Bytes`: bytes, `concat` and slicing lemmas.
- `Wrappers`: `Option` and `Result`.
- `Base64`: the unpadded standard base64 of RFC 4648 (alphabet of section 4, padding omitted as section 3.2 allows), written out. Canonical decoding rejects non-zero unused bits, a length of 1 mod 4, and `=`. Both round trips are proved.
- `Lib`: the parameters, the checksum and the key chunks.
- `Blockers`: the three blockers, line splitting, and the remote list's verdict.
- `Check`: parsing bytes and text, and verification.
- `Gen`: IV generation, license generation, writing out as bytes and text.
- `LibTests`: the crate root's unit tests as methods.

SHA-256 is a parameter `sha` of every member that hashes. Its type is "any function from byte strings to 32-byte digests", so every law here holds for every such function. Strings are modelled by their bytes (`String::bytes()`).

Two details of the code that the model keeps:

- `gen_range(10..16)` excludes 16, so the IVs of `src/gen.rs` are 10 to 15 bytes long (`Gen.NewStandaloneGenerator`).
- `error_for_status` rejects only 4xx and 5xx statuses. Any other status, a 1xx or 3xx one included, goes on to read the body.

`src/lib.rs` carries inline copies of `check`, `blockers` and `gen`:

- The model's `LicenseVerifyResult` is the one of `src/lib.rs`. `LicenseGood` stands for the `Ok(())` of `src/check.rs`, and the other outcomes for its `LicenseVerifyError` values.
- Both IV ranges are constants of `Gen` (`IV_MIN_LEN`/`IV_MAX_LEN` for `src/gen.rs`, `INLINE_IV_MIN_LEN`/`INLINE_IV_MAX_LEN` for `src/lib.rs`). `NewWithRandomIvs` takes the range as arguments; `Gen.NewStandaloneGenerator` and `LibTests.NewTestGenner` pass the two ranges.

A `chunk_size` of 0 is accepted by the parser, which then returns an empty payload whatever `payload_length` says (`Check.ParseBytesZeroChunkSize`). This is why the parse round trips require `chunkSize > 0`.

## Model

| member | source | states |
|---|---|---|
| Bytes.FlattenSlice | src/gen.rs:52-54 | equal-size chunks concatenate to `count * size` bytes, and chunk `i` is the slice at `i * size` of the concatenation |
| Base64.Encode | src/gen.rs:59 | the unpadded encoding has 4 symbols per full 3-byte group plus `r + 1` for a final group of `r` bytes; that decoding inverts it is `Base64.DecodeEncode` |
| Base64.Decode | src/check.rs:89 | a text of length 1 mod 4 is rejected, and an accepted text gives 3 bytes per full group of 4 symbols plus `r - 1` for a final group of `r`; canonicity is `Base64.EncodeDecode` |
| Base64.SymbolRoundTrip | src/gen.rs:2 | every 6-bit value maps to a symbol of the standard alphabet that maps back to it |
| Base64.ValueRoundTrip | src/check.rs:4 | every symbol of the standard alphabet maps to a 6-bit value that maps back to it |
| Base64.DecodeEncode | src/gen.rs:59 | decoding the unpadded encoding of any byte string gives that byte string |
| Base64.EncodeDecode | src/check.rs:89 | every text the decoder accepts is exactly the encoding of what it decodes to (decoding is canonical) |
| Base64.EncodeSymbols | src/gen.rs:59 | every character of an encoding is in the standard alphabet |
| Base64.EncodeHasNoSeparator | src/gen.rs:59 | an encoding contains neither `-` nor a newline |
| Lib.DefaultParameters | src/lib.rs:222-230 | the default 6/10/2 layout needs 28 bytes and its chunks fit in a digest |
| Lib.GenerateChecksum | src/lib.rs:231-236 | the checksum is exactly CHECKSUM_LEN = 2 bytes |
| Lib.GenerateKeyChunk | src/lib.rs:238-244 | a key chunk is exactly `chunk_size` bytes, for every `chunk_size` up to the digest length |
| Lib.KeyChunkOfConcatenation | src/lib.rs:240 | two IV/seed pairs with equal concatenations give equal key chunks |
| Lib.KeyChunkPrefix | src/lib.rs:241-243 | for `k <= m <= 32` the `k`-byte key chunk is a prefix of the `m`-byte one |
| Lib.ChecksumIgnoresChunking | src/lib.rs:233 | payloads with the same concatenated bytes have the same checksum, however they are chunked |
| Lib.ChecksumOfShiftedSeed | src/lib.rs:233 | moving the first chunk into the seed leaves the checksum unchanged: the hashed bytes carry no lengths, so the checksum alone does not tell seed from payload and relies on the parser's fixed layout |
| Blockers.NoBlockAllows | src/blockers.rs:7-10 | `NoBlock` lets every seed through |
| Blockers.BuiltinBlocklistMembership | src/blockers.rs:14-21 | a builtin list blocks a seed iff it is a member, allows it iff it is not, never reports `BadList` |
| Blockers.CheckBlock | src/blockers.rs:2-21 | `NoBlock` always gives `Ok`, and only the remote blocker can report `BadList`; the builtin list's verdict is `Blockers.BuiltinBlocklistMembership` |
| Blockers.RemoteVerdict | src/blockers.rs:34-60 | any verdict other than `BadList` needs a response without a 4xx/5xx status, a readable body and a fully decodable list; the exact verdict is `Blockers.RemoteVerdictLines` |
| Blockers.Split | src/blockers.rs:39 | splitting always yields at least one piece |
| Blockers.SplitCount | src/blockers.rs:39 | a body splits into one more piece than it has newline bytes |
| Blockers.SplitHasNoNewline | src/blockers.rs:39 | no piece contains a newline byte |
| Blockers.SplitTrailingNewline | src/blockers.rs:39 | a trailing newline adds one empty final piece |
| Blockers.JoinSplit | src/blockers.rs:39 | joining the pieces with newlines gives the body back (splitting loses nothing) |
| Blockers.SplitJoin | src/blockers.rs:39 | newline-free lines joined with newlines split back into exactly those lines |
| Blockers.DecodeAllLines | src/blockers.rs:40-47 | the line decoder succeeds iff every line decodes, and then yields each line's bytes in order |
| Blockers.RemoteCheckBlock | src/blockers.rs:34-60 | the decode loop with its early `BadList` return computes the remote verdict |
| Blockers.RemoteFailsClosed | src/blockers.rs:35-57 | a transport error, a 4xx/5xx status or an unreadable body gives `BadList` |
| Blockers.RemoteVerdictLines | src/blockers.rs:39-50 | for a readable list: `BadList` iff some line fails to decode; otherwise `Blocked` iff some line decodes to the seed, else `Ok` |
| Blockers.RemoteAllOrNothing | src/blockers.rs:41-47 | an undecodable line gives `BadList` even when an earlier line names the seed |
| Blockers.RemoteTrailingNewline | src/blockers.rs:39-50 | a trailing newline blocks the empty seed (when the rest decodes) and changes nothing else |
| Blockers.RemoteEmptyBody | src/blockers.rs:38-50 | an empty body is one empty line, which decodes to the empty seed: it blocks the empty seed and lets every other seed through |
| Blockers.DecodeAllEncodeAll | src/blockers.rs:40-47 | lines that are encodings of seeds decode to exactly those seeds |
| Blockers.RemotePublishedList | src/blockers.rs:24-25 | a list published as one encoded seed per line blocks exactly the listed seeds |
| Check.VerifyLicense | src/check.rs:26-49 | `LicenseGood` only when the checksum passes, the index is in range, the chunk matches and the blocker allows; `LicenseBlocked` carries the blocker's own error; the full ladder is `Check.VerifyLadder` |
| Check.VerifyChecksum | src/check.rs:52-59 | `Ok` iff the stored checksum equals the one computed from seed and payload |
| Check.VerifyLadder | src/lib.rs:50-73 | exactly one outcome, in the order ChecksumFailed, InvalidIVIndex, LicenseForged, LicenseBlocked/LicenseGood, each iff its condition; `LicenseBlocked` carries the blocker's own error |
| Check.ChecksumComesFirst | src/check.rs:31-33 | a wrong checksum gives `ChecksumFailed` whatever the IV, index or blocker |
| Check.BlockerOnlyDecidesLast | src/check.rs:34-48 | every outcome other than blocked/good is the same for every blocker and fetch |
| Check.PayloadChunks | src/check.rs:72-77 | the loop yields `payload_length` chunks, and none when `chunk_size` is 0 |
| Check.PayloadChunksAt | src/check.rs:74-76 | chunk `j` is the `chunk_size` bytes of the payload at `j * chunk_size` |
| Check.ParseBytes | src/check.rs:64-68 | parsing fails with `InvalidLength` exactly when the length is not `seed_length + payload_length * chunk_size + 2` |
| Check.FromLicenseBytes | src/check.rs:60-83 | the chunking `while` loop returns the parse: `i` stays `|chunks| * chunk_size` and within the payload |
| Check.ParseBytesLayout | src/check.rs:69-82 | on success, the seed is the first `seed_length` bytes, the checksum the last 2, chunk `i` the bytes at `seed_length + i * chunk_size` |
| Check.ParseBytesWellFormed | src/check.rs:72-77 | on success with `chunk_size > 0`, the license has `payload_length` chunks of `chunk_size` bytes and a 2-byte checksum |
| Check.ParseBytesZeroChunkSize | src/check.rs:74-77 | with `chunk_size` 0 the payload is empty whatever `payload_length` is |
| Check.RemoveDashes | src/check.rs:88 | the filtered text has no `-` |
| Check.RemoveDashesKeepsOthers | src/check.rs:88 | every byte other than `-` occurs as often after filtering as before |
| Check.RemoveDashesAppend | src/check.rs:88 | filtering distributes over concatenation, so the order of kept bytes is preserved |
| Check.RemoveDashesWithoutDash | src/check.rs:88 | text without `-` is left unchanged |
| Check.FromHumanReadable | src/check.rs:84-97 | on success the seed has `seed_length` bytes and the checksum 2, and with `chunk_size > 0` the license is well-formed; every outcome is `Check.FromHumanReadableOutcome` |
| Check.FromHumanReadableIgnoresDashes | src/check.rs:84-97 | inserting a `-` anywhere does not change the parse |
| Check.FromHumanReadableOutcome | src/check.rs:84-97 | `Base64DecodeError` iff the filtered text does not decode; `ParseBytesError(InvalidLength)` iff it decodes to the wrong length; otherwise the byte parse of the decoded bytes |
| Gen.NewStandaloneGenerator | src/gen.rs:12-28 | the generator keeps the parameters and has one IV per payload chunk, each 10 to 15 bytes long |
| Gen.NewWithRandomIvs | src/gen.rs:12-28 | exactly `payload_length` IVs, each of a length in the range drawn, kept by the final `fill_bytes`; the parameters stored unchanged |
| Gen.GeneratedLicense | src/gen.rs:31-33 | `InvalidSeedLen` iff the seed length differs from `seed_length` |
| Gen.GenerateLicense | src/gen.rs:30-44 | the loop that pushes one chunk per IV returns the generated license (so generation is deterministic in generator and seed) |
| Gen.GeneratedLicenseContents | src/gen.rs:34-43 | seed stored unchanged, one chunk per IV, chunk `k` the key chunk of IV `k`, and `verify_checksum` passes |
| Gen.GeneratedWellFormed | src/gen.rs:34-38 | with one IV per payload chunk the license has the parameters' layout |
| Gen.GeneratedVerifies | src/gen.rs:30-44 | a generated license checked with IV `k` at index `k` is `LicenseGood`, or `LicenseBlocked(e)` when the blocker returns `e` |
| Gen.GeneratedIndexOutOfRange | src/check.rs:34-37 | checking a generated license at an index past the IVs gives `InvalidIVIndex` |
| Gen.ToBytes | src/gen.rs:52-54 | the bytes start with the seed and end with the checksum; that parsing inverts it is `Gen.ParseOfToBytes` |
| Gen.ToBytesLength | src/gen.rs:52-54 | a well-formed license writes out to exactly the `seed_length + payload_length * chunk_size + 2` bytes the parser demands |
| Gen.FlattenPayloadChunks | src/check.rs:72-77 | the chunks cut from the payload bytes concatenate back to those bytes |
| Gen.ToBytesOfParse | src/gen.rs:52-54 | writing out a parsed license gives back the parsed bytes, for every input of valid length |
| Gen.ParseOfToBytes | src/check.rs:60-83 | parsing the bytes of a well-formed license gives the license back |
| Gen.ToHumanReadable | src/gen.rs:58-69 | the enumerate loop returns the encoding with a `-` before each index `i` with `i % 4 == 0 && i != 0` |
| Gen.InsertDashesLength | src/gen.rs:62-67 | `n > 0` encoded characters take `n + (n - 1) / 4` bytes once dashed |
| Gen.InsertDashesEnds | src/gen.rs:62-67 | the dashed text starts with the first encoded character and ends with the last, so it never starts or ends with `-` |
| Gen.InsertDashesAt | src/gen.rs:63-66 | position `j` of the dashed text is `-` iff `j % 5 == 4`, and otherwise encoded character `j - j / 5` |
| Gen.RemoveInsertedDashes | src/gen.rs:63-66 | removing the dashes from a dashed dash-free text gives it back |
| Gen.FromHumanReadableOfHumanReadable | src/gen.rs:58-69 | reading back the text of a well-formed license gives the license |
| Gen.GeneratedTextVerifies | src/lib.rs:4-23 | generate, write as text, read back, verify with IV `k`: good unless the blocker objects |
| LibTests.NewTestGenner | src/lib.rs:377-385 | the test generator has the 6/10/2 layout and ten IVs in the inline range |
| LibTests.NewTestLicense | src/lib.rs:386-391 | the test license has the test seed and a well-formed layout (its `unwrap` cannot fail) |
| LibTests.ChecksumWorksForValid | src/lib.rs:327-330 | a generated license passes `verify_checksum` |
| LibTests.LicenseWorks | src/lib.rs:339-358 | a generated license, checked with `ivs[0]` at index 0 and `NoBlock`, is `LicenseGood` |

## Left out

- SHA-256 (`ring::digest`): uninterpreted. It is a function parameter with 32-byte results, and no property of the hash itself is used.
- The `checksum_detects_invalid` and `forgery_detected` tests: both rely on the truncated hash not colliding, which cannot hold for every hash function.
- The fixed strings of the crate documentation's example: they depend on the real SHA-256 and on random IVs.
- `OsRng`: random lengths and bytes are nondeterministic choices, with no probabilistic claim.
- reqwest's GET: the fetch outcome is an input (`FetchResult`: transport error, or status and body). The URL, redirects and timeouts are not modelled.
- Panics:
  - A chunk longer than a digest (`chunk_size > 32`) becomes a precondition: `GenerateKeyChunk`, `GeneratedLicense`, and `VerifyLicense` through `NoPanicOnVerify`.
  - An empty `gen_range` becomes the precondition `minLen < maxLen`.
- `usize` overflow in `payload_length * chunk_size`: the model uses unbounded naturals.
- The `base64::DecodeError` carried by `Base64DecodeError` is collapsed to a bare error: which symbol or length was wrong is not modelled.
- Error message strings, `thiserror`/`Debug` derives, and the name `ChecksumDoesntMatch` of the inline checksum error are left out; the model has one `WrongChecksum` error for both.
- The `Blocker` trait: only its three implementations are modelled. A user-defined blocker is not.
- `BuiltinBlocklist::check_block` takes `&self`. Leaving the list unchanged holds by construction, since the blocker is an immutable value.
- Text: the readable text is modelled by its bytes. The `u8`-to-`char` conversion in `to_human_readable` is the identity on base64's ASCII output.
