/** Option and Result, the shapes of Rust's `Option` and `Result`. */
module Wrappers {

  datatype Option<+T> = None | Some(value: T)

  datatype Result<+T, +E> = Ok(value: T) | Err(error: E)
}

/** Bytes, byte strings and Rust's `[Vec<u8>]::concat`. */
module Bytes {

  /** A Rust `u8`. */
  type byte = b: int | 0 <= b < 256

  /** ASCII `-`, the separator of the human-readable form. */
  const DASH: byte := 45

  /** ASCII `\n`, the line separator of a remote blocklist. */
  const NEWLINE: byte := 10

  /** `chunks.concat()`: the chunks' bytes, in order. */
  function Flatten(chunks: seq<seq<byte>>): seq<byte>
  {
    if chunks == [] then [] else chunks[0] + Flatten(chunks[1..])
  }

  /** Every chunk of `chunks` is `size` bytes long. */
  predicate AllOfSize(chunks: seq<seq<byte>>, size: nat)
  {
    forall i :: 0 <= i < |chunks| ==> |chunks[i]| == size
  }

  lemma {:induction false} FlattenAppend(a: seq<seq<byte>>, b: seq<seq<byte>>)
    ensures Flatten(a + b) == Flatten(a) + Flatten(b)
  {
    if a == [] {
      assert a + b == b;
    } else {
      assert (a + b)[1..] == a[1..] + b;
      FlattenAppend(a[1..], b);
    }
  }

  /** Chunks of equal size flatten to `|chunks| * size` bytes, and chunk `i`
      is the slice at `i * size` of the flattened bytes. */
  lemma {:induction false} FlattenSlice(chunks: seq<seq<byte>>, size: nat, i: nat)
    requires AllOfSize(chunks, size)
    requires i < |chunks|
    ensures |Flatten(chunks)| == |chunks| * size
    ensures i * size + size <= |Flatten(chunks)|
    ensures Flatten(chunks)[i * size .. i * size + size] == chunks[i]
  {
    FlattenLength(chunks, size);
    var rest := chunks[1..];
    var f := Flatten(chunks);
    assert f == chunks[0] + Flatten(rest);
    if i > 0 {
      assert AllOfSize(rest, size) by {
        assert forall k :: 0 <= k < |rest| ==> rest[k] == chunks[k + 1];
      }
      FlattenSlice(rest, size, i - 1);
      MulSucc(i - 1, size);
      var o := (i - 1) * size;
      assert f[o + size .. o + size + size] == Flatten(rest)[o .. o + size];
    }
  }

  lemma {:induction false} FlattenLength(chunks: seq<seq<byte>>, size: nat)
    requires AllOfSize(chunks, size)
    ensures |Flatten(chunks)| == |chunks| * size
  {
    if chunks != [] {
      var rest := chunks[1..];
      assert AllOfSize(rest, size) by {
        assert forall k :: 0 <= k < |rest| ==> rest[k] == chunks[k + 1];
      }
      FlattenLength(rest, size);
      MulSucc(|rest|, size);
    }
  }

  lemma MulSucc(k: nat, c: nat)
    ensures (k + 1) * c == k * c + c
  {
  }

  /** A slice of a slice is a slice of the original. */
  lemma SliceOfSlice(s: seq<byte>, lo: nat, hi: nat, i: nat, j: nat)
    requires lo <= hi <= |s|
    requires i <= j <= hi - lo
    ensures s[lo..hi][i..j] == s[lo + i .. lo + j]
  {
    var t := s[lo..hi];
    assert forall k :: 0 <= k < j - i ==> t[i..j][k] == t[i + k] == s[lo + i + k];
  }

  /** `k < n` and `c > 0` give room for one more `c`-sized chunk below `n * c`. */
  lemma MulStep(k: nat, n: nat, c: nat)
    requires k < n
    ensures k * c + c <= n * c
  {
    assert n * c - k * c == (n - k) * c;
    assert (n - k) * c == c + (n - k - 1) * c;
  }

  /** Cancelling a positive factor on both sides of `<`. */
  lemma MulCancelLess(k: nat, n: nat, c: nat)
    requires c > 0
    requires k * c < n * c
    ensures k < n
  {
  }
}
