/** Revocation checks. A blocker decides, for a license seed, whether the
    license is allowed (`Ok`), revoked (`Blocked`) or whether the revocation
    data could not be used (`BadList`). */
module Blockers {
  import opened Wrappers
  import opened Bytes
  import Base64

  datatype BlockCheckError = BadList | Blocked

  /** The outcome of the one blocking HTTP GET that `RemoteFileBlocker`
      performs per check: a transport failure, or a response with its status
      and its body (None when reading the body failed). */
  datatype FetchResult =
    | TransportError
    | Response(status: nat, body: Option<seq<byte>>)

  /** The statuses that `error_for_status` turns into an error: client and
      server errors. */
  predicate IsErrorStatus(status: nat)
  {
    400 <= status < 600
  }

  /** The three blockers. The remote one holds only its URL; what fetching it
      returns is an input of each check. */
  datatype Blocker =
    | NoBlock
    | BuiltinBlocklist(seeds: seq<seq<byte>>)
    | RemoteFileBlocker(url: string)

  /** The `Blocker` contract, dispatched over the three variants. `fetched` is
      what the GET returns on this call; only the remote variant reads it. */
  function CheckBlock(blocker: Blocker, seed: seq<byte>, fetched: FetchResult): (r: Result<(), BlockCheckError>)
    ensures blocker.NoBlock? ==> r == Ok(())
    ensures r == Err(BadList) ==> blocker.RemoteFileBlocker?
  {
    match blocker
    case NoBlock => Ok(())
    case BuiltinBlocklist(seeds) => if seed in seeds then Err(Blocked) else Ok(())
    case RemoteFileBlocker(_) => RemoteVerdict(seed, fetched)
  }

  /** `NoBlock` lets every seed through. */
  lemma NoBlockAllows(seed: seq<byte>, fetched: FetchResult)
    ensures CheckBlock(NoBlock, seed, fetched) == Ok(())
  {
  }

  /** A builtin blocklist blocks exactly its members, never reports a bad list
      and does not depend on the network. */
  lemma BuiltinBlocklistMembership(seeds: seq<seq<byte>>, seed: seq<byte>, fetched: FetchResult)
    ensures CheckBlock(BuiltinBlocklist(seeds), seed, fetched) == Err(Blocked) <==> seed in seeds
    ensures CheckBlock(BuiltinBlocklist(seeds), seed, fetched) == Ok(()) <==> seed !in seeds
    ensures CheckBlock(BuiltinBlocklist(seeds), seed, fetched) != Err(BadList)
  {
  }

  // ---------------------------------------------------------------------------
  // Splitting a body into lines

  /** `body.split(|x| *x == b'\n')`: the pieces between newline bytes, empty
      pieces included. */
  function Split(s: seq<byte>): (r: seq<seq<byte>>)
    ensures |r| >= 1
  {
    if s == [] then [[]]
    else
      var init := Split(s[..|s| - 1]);
      if s[|s| - 1] == NEWLINE then init + [[]]
      else init[..|init| - 1] + [init[|init| - 1] + [s[|s| - 1]]]
  }

  /** The lines joined back with newline bytes between them. */
  function JoinLines(lines: seq<seq<byte>>): seq<byte>
    requires |lines| >= 1
  {
    if |lines| == 1 then lines[0]
    else JoinLines(lines[..|lines| - 1]) + [NEWLINE] + lines[|lines| - 1]
  }

  /** There is one more piece than there are newline bytes. */
  lemma {:induction false} SplitCount(s: seq<byte>)
    ensures |Split(s)| == multiset(s)[NEWLINE] + 1
  {
    if s != [] {
      SplitCount(s[..|s| - 1]);
      assert s == s[..|s| - 1] + [s[|s| - 1]];
      assert multiset(s) == multiset(s[..|s| - 1]) + multiset{s[|s| - 1]};
    }
  }

  /** No piece contains a newline byte. */
  lemma {:induction false} SplitHasNoNewline(s: seq<byte>)
    ensures forall j :: 0 <= j < |Split(s)| ==> NEWLINE !in Split(s)[j]
  {
    if s != [] {
      SplitHasNoNewline(s[..|s| - 1]);
    }
  }

  /** A trailing newline adds one empty final piece. */
  lemma SplitTrailingNewline(s: seq<byte>)
    ensures Split(s + [NEWLINE]) == Split(s) + [[]]
  {
    assert (s + [NEWLINE])[..|s|] == s;
  }

  lemma JoinExtendLast(lines: seq<seq<byte>>, c: byte)
    requires |lines| >= 1
    ensures JoinLines(lines[..|lines| - 1] + [lines[|lines| - 1] + [c]]) == JoinLines(lines) + [c]
  {
    var ext := lines[..|lines| - 1] + [lines[|lines| - 1] + [c]];
    if |lines| > 1 {
      assert ext[..|ext| - 1] == lines[..|lines| - 1];
    }
  }

  /** Joining the pieces gives the body back. */
  lemma {:induction false} JoinSplit(s: seq<byte>)
    ensures JoinLines(Split(s)) == s
  {
    if s != [] {
      var prefix := s[..|s| - 1];
      var init := Split(prefix);
      JoinSplit(prefix);
      if s[|s| - 1] == NEWLINE {
        assert (init + [[]])[..|init|] == init;
      } else {
        JoinExtendLast(init, s[|s| - 1]);
      }
      assert s == prefix + [s[|s| - 1]];
    }
  }

  /** Appending bytes without a newline extends the last piece. */
  lemma {:induction false} SplitAppendLine(s: seq<byte>, x: seq<byte>)
    requires NEWLINE !in x
    ensures var init := Split(s);
            Split(s + x) == init[..|init| - 1] + [init[|init| - 1] + x]
  {
    var init := Split(s);
    if x == [] {
      assert s + x == s;
      assert init[|init| - 1] + x == init[|init| - 1];
      assert init[..|init| - 1] + [init[|init| - 1]] == init;
    } else {
      var x', c := x[..|x| - 1], x[|x| - 1];
      assert x == x' + [c];
      assert c in x;
      SplitAppendLine(s, x');
      var mid := Split(s + x');
      assert (s + x)[..|s + x| - 1] == s + x';
      assert (s + x)[|s + x| - 1] == c;
      assert mid[..|mid| - 1] == init[..|init| - 1];
      assert mid[|mid| - 1] == init[|init| - 1] + x';
      assert (init[|init| - 1] + x') + [c] == init[|init| - 1] + x;
    }
  }

  /** Splitting lines that contain no newline byte after joining them gives
      the lines back. */
  lemma {:induction false} SplitJoin(lines: seq<seq<byte>>)
    requires |lines| >= 1
    requires forall j :: 0 <= j < |lines| ==> NEWLINE !in lines[j]
    ensures Split(JoinLines(lines)) == lines
  {
    var last := lines[|lines| - 1];
    if |lines| == 1 {
      SplitAppendLine([], last);
      assert [] + last == last;
      assert lines == [last];
    } else {
      var init := lines[..|lines| - 1];
      assert lines == init + [last];
      SplitJoin(init);
      var prefix := JoinLines(init) + [NEWLINE];
      assert JoinLines(lines) == prefix + last;
      assert Split(prefix) == init + [[]] by {
        SplitTrailingNewline(JoinLines(init));
      }
      assert Split(prefix + last) == init + [last] by {
        SplitAppendLine(prefix, last);
        var pieces := Split(prefix);
        assert pieces[..|pieces| - 1] == init;
        assert pieces[|pieces| - 1] + last == last;
      }
    }
  }

  // ---------------------------------------------------------------------------
  // Decoding a remote list

  /** All lines decoded, in order, or None as soon as one line does not decode. */
  function DecodeAll(lines: seq<seq<byte>>): Option<seq<seq<byte>>>
  {
    if lines == [] then Some([])
    else
      var init := DecodeAll(lines[..|lines| - 1]);
      var last := Base64.Decode(lines[|lines| - 1]);
      if init.Some? && last.Some? then Some(init.value + [last.value]) else None
  }

  /** DecodeAll succeeds exactly when every line decodes, and then holds each
      line's decoding at that line's position. */
  lemma {:induction false} DecodeAllLines(lines: seq<seq<byte>>)
    ensures DecodeAll(lines).Some? <==> forall j :: 0 <= j < |lines| ==> Base64.Decode(lines[j]).Some?
    ensures DecodeAll(lines).Some? ==>
              |DecodeAll(lines).value| == |lines| &&
              forall j :: 0 <= j < |lines| ==> DecodeAll(lines).value[j] == Base64.Decode(lines[j]).value
  {
    if lines != [] {
      var init := lines[..|lines| - 1];
      DecodeAllLines(init);
      assert forall j :: 0 <= j < |init| ==> init[j] == lines[j];
      if DecodeAll(lines).Some? {
        assert DecodeAll(lines).value == DecodeAll(init).value + [Base64.Decode(lines[|lines| - 1]).value];
      }
    }
  }

  /** The verdict of `RemoteFileBlocker::check_block` for a given fetch. */
  function RemoteVerdict(seed: seq<byte>, fetched: FetchResult): (r: Result<(), BlockCheckError>)
    ensures r != Err(BadList) ==>
              && fetched.Response?
              && !IsErrorStatus(fetched.status)
              && fetched.body.Some?
              && DecodeAll(Split(fetched.body.value)).Some?
  {
    match fetched
    case TransportError => Err(BadList)
    case Response(status, body) =>
      if IsErrorStatus(status) || body.None? then Err(BadList)
      else
        match DecodeAll(Split(body.value))
        case None => Err(BadList)
        case Some(seeds) => if seed in seeds then Err(Blocked) else Ok(())
  }

  /** `RemoteFileBlocker::check_block`: decode the fetched list line by line,
      giving up with `BadList` at the first line that does not decode. */
  method RemoteCheckBlock(seed: seq<byte>, fetched: FetchResult) returns (r: Result<(), BlockCheckError>)
    ensures r == RemoteVerdict(seed, fetched)
  {
    if fetched.TransportError? || IsErrorStatus(fetched.status) || fetched.body.None? {
      return Err(BadList);
    }
    var lines := Split(fetched.body.value);
    var seeds: seq<seq<byte>> := [];
    for i := 0 to |lines|
      invariant DecodeAll(lines[..i]) == Some(seeds)
    {
      var decoded := Base64.Decode(lines[i]);
      if decoded.None? {
        DecodeAllLines(lines);
        return Err(BadList);
      }
      assert lines[..i + 1][..i] == lines[..i];
      seeds := seeds + [decoded.value];
    }
    assert lines[..|lines|] == lines;
    if seed in seeds {
      return Err(Blocked);
    }
    return Ok(());
  }

  /** The remote blocker fails closed: no list, no verdict but `BadList`. */
  lemma RemoteFailsClosed(seed: seq<byte>, status: nat)
    ensures RemoteVerdict(seed, TransportError) == Err(BadList)
    ensures IsErrorStatus(status) ==> forall body :: RemoteVerdict(seed, Response(status, body)) == Err(BadList)
    ensures RemoteVerdict(seed, Response(status, None)) == Err(BadList)
  {
  }

  /** Every line decodes. */
  predicate AllLinesDecode(lines: seq<seq<byte>>)
  {
    forall j :: 0 <= j < |lines| ==> Base64.Decode(lines[j]).Some?
  }

  /** Some line decodes to `seed`. */
  predicate SomeLineNames(lines: seq<seq<byte>>, seed: seq<byte>)
  {
    exists j :: 0 <= j < |lines| && Base64.Decode(lines[j]) == Some(seed)
  }

  /** For a fetched list, the verdict line by line: `BadList` exactly when
      some line does not decode; otherwise `Blocked` exactly when some line
      decodes to the seed, and `Ok` exactly when none does. */
  lemma RemoteVerdictLines(seed: seq<byte>, status: nat, body: seq<byte>)
    requires !IsErrorStatus(status)
    ensures var lines := Split(body);
            var r := RemoteVerdict(seed, Response(status, Some(body)));
            && (r == Err(BadList) <==> !AllLinesDecode(lines))
            && (r == Err(Blocked) <==> AllLinesDecode(lines) && SomeLineNames(lines, seed))
            && (r == Ok(()) <==> AllLinesDecode(lines) && !SomeLineNames(lines, seed))
  {
    var lines := Split(body);
    DecodeAllSome(lines);
    if DecodeAll(lines).Some? {
      DecodedSeedNamed(lines, seed);
    }
  }

  lemma DecodeAllSome(lines: seq<seq<byte>>)
    ensures DecodeAll(lines).Some? <==> AllLinesDecode(lines)
  {
    DecodeAllLines(lines);
  }

  lemma DecodedSeedNamed(lines: seq<seq<byte>>, seed: seq<byte>)
    requires DecodeAll(lines).Some?
    ensures seed in DecodeAll(lines).value <==> SomeLineNames(lines, seed)
  {
    DecodeAllLines(lines);
    var seeds := DecodeAll(lines).value;
    if seed in seeds {
      var j :| 0 <= j < |seeds| && seeds[j] == seed;
      assert Base64.Decode(lines[j]) == Some(seed);
    }
    if SomeLineNames(lines, seed) {
      var j :| 0 <= j < |lines| && Base64.Decode(lines[j]) == Some(seed);
      assert seeds[j] == seed;
    }
  }

  /** The list is all or nothing: one undecodable line gives `BadList` even
      when an earlier line names the seed. */
  lemma RemoteAllOrNothing(seed: seq<byte>, status: nat, body: seq<byte>, j: nat, k: nat)
    requires !IsErrorStatus(status)
    requires j < k < |Split(body)|
    requires Base64.Decode(Split(body)[j]) == Some(seed)
    requires Base64.Decode(Split(body)[k]).None?
    ensures RemoteVerdict(seed, Response(status, Some(body))) == Err(BadList)
  {
    RemoteVerdictLines(seed, status, body);
    assert !AllLinesDecode(Split(body));
  }

  /** A trailing newline adds an empty line, which decodes to the empty seed:
      it blocks the empty seed and changes nothing else. */
  lemma RemoteTrailingNewline(seed: seq<byte>, status: nat, body: seq<byte>)
    requires !IsErrorStatus(status)
    ensures RemoteVerdict(seed, Response(status, Some(body + [NEWLINE]))) ==
            if seed == [] && DecodeAll(Split(body)).Some? then Err(Blocked)
            else RemoteVerdict(seed, Response(status, Some(body)))
  {
    var lines := Split(body);
    SplitTrailingNewline(body);
    assert Split(body + [NEWLINE]) == lines + [[]];
    assert (lines + [[]])[..|lines|] == lines;
    assert Base64.Decode([]) == Some([]);
    if DecodeAll(lines).Some? {
      var seeds := DecodeAll(lines).value;
      assert DecodeAll(lines + [[]]) == Some(seeds + [[]]);
      assert seed in seeds + [[]] <==> seed in seeds || seed == [];
    }
  }

  /** An empty body is one empty line, which decodes to the empty seed: the
      empty list blocks the empty seed and lets every other seed through. */
  lemma RemoteEmptyBody(seed: seq<byte>, status: nat)
    requires !IsErrorStatus(status)
    ensures RemoteVerdict(seed, Response(status, Some([]))) == if seed == [] then Err(Blocked) else Ok(())
  {
    assert Split([]) == [[]];
    assert Base64.Decode([]) == Some([]);
    var lines: seq<seq<byte>> := [[]];
    assert lines[..0] == [];
    assert DecodeAll(lines[..0]) == Some([]);
    assert Base64.Decode(lines[0]) == Some([]);
    assert DecodeAll(lines) == Some([] + [[]]);
  }

  /** Every seed base64-encoded, in order. */
  function EncodeAll(seeds: seq<seq<byte>>): (lines: seq<seq<byte>>)
    ensures |lines| == |seeds|
  {
    seq(|seeds|, i requires 0 <= i < |seeds| => Base64.Encode(seeds[i]))
  }

  lemma {:induction false} DecodeAllEncodeAll(seeds: seq<seq<byte>>)
    ensures DecodeAll(EncodeAll(seeds)) == Some(seeds)
  {
    var lines := EncodeAll(seeds);
    forall j | 0 <= j < |lines| ensures Base64.Decode(lines[j]) == Some(seeds[j]) {
      Base64.DecodeEncode(seeds[j]);
    }
    DecodeAllLines(lines);
    assert DecodeAll(lines).value == seeds;
  }

  /** A remote list published as one encoded seed per line blocks exactly the
      listed seeds. */
  lemma RemotePublishedList(seeds: seq<seq<byte>>, seed: seq<byte>, status: nat)
    requires |seeds| >= 1
    requires !IsErrorStatus(status)
    ensures RemoteVerdict(seed, Response(status, Some(JoinLines(EncodeAll(seeds))))) ==
            if seed in seeds then Err(Blocked) else Ok(())
  {
    var lines := EncodeAll(seeds);
    forall j | 0 <= j < |lines| ensures NEWLINE !in lines[j] {
      Base64.EncodeHasNoSeparator(seeds[j]);
    }
    SplitJoin(lines);
    DecodeAllEncodeAll(seeds);
  }
}
