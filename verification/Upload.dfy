/**
 Reading the archive field of an upload (src/upload.rs). The base64 branch decodes byte
 by byte from chunks of any size. Here it is proved against one-shot decoding.
 */
module Upload {
  import opened Wrappers
  import opened Base64

  datatype ReadError = TooLarge | Invalid

  /** `u8::is_ascii_whitespace`: tab, line feed, form feed, carriage return and space. */
  predicate IsWhitespace(c: byte) {
    c == 9 || c == 10 || c == 12 || c == 13 || c == 32
  }

  function Strip(s: seq<byte>): seq<byte> {
    if s == [] then []
    else Strip(s[..|s| - 1]) + if IsWhitespace(s[|s| - 1]) then [] else [s[|s| - 1]]
  }

  /** Tab, line feed, form feed, carriage return and space. */
  const BLANKS := "\t\n\U{C}\r "

  /** A blank anywhere in a text changes nothing, and any other byte stays in its place. */
  lemma OnlyBlanksAreStripped(a: seq<byte>, c: byte, b: seq<byte>)
    ensures Strip(a + [c] + b) == Strip(a) + (if c as char in BLANKS then [] else [c]) + Strip(b)
  {
    StripConcat(a + [c], b);
    StripConcat(a, [c]);
    assert [c][..0] == [];
    assert BLANKS == ['\t', '\n', '\U{C}', '\r', ' '];
    assert c == c as char as int;
  }

  /** No encoding has a blank in it, so an encoding with blanks in it is decoded like one without. */
  lemma {:induction false} EncodingHasNoBlanks(s: seq<byte>)
    requires Decode(s).Some?
    ensures Strip(s) == s
  {
    if s != [] {
      QuadHasNoBlanks(s[..4]);
      StripConcat(s[..4], s[4..]);
      assert s == s[..4] + s[4..];
      if |s| > 4 {
        EncodingHasNoBlanks(s[4..]);
      } else {
        assert s[4..] == [];
      }
    }
  }

  lemma QuadHasNoBlanks(q: seq<byte>)
    requires |q| == 4 && DecodeQuad(q).Some?
    ensures Strip(q) == q
  {
    hide Strip;
    assert forall i :: 0 <= i < 4 ==> !IsWhitespace(q[i]);
    StripNone(q[..1]);
    StripNone(q);
  }

  lemma {:induction false} StripNone(s: seq<byte>)
    requires forall c :: c in s ==> !IsWhitespace(c)
    ensures Strip(s) == s
  {
    if s != [] {
      StripNone(s[..|s| - 1]);
      assert s == s[..|s| - 1] + [s[|s| - 1]];
    }
  }

  /** Most symbols that an archive of `limit` bytes can need. */
  function EncodedLimit(limit: nat): nat {
    SaturatingMul((limit + 2) / 3, 4)
  }

  /** What the decoder holds between two symbols. */
  datatype Decoder =
    | Running(pending: seq<byte>, encodedSize: nat, decodedSize: nat, padded: bool, out: seq<byte>)
    | Stopped(error: ReadError)

  const START := Running([], 0, 0, false, [])

  /** One symbol. */
  function Feed(d: Decoder, c: byte, limit: nat): Decoder {
    if d.Stopped? then d
    else if d.padded then Stopped(Invalid)
    else
      var size := SaturatingAdd(d.encodedSize, 1);
      if size > EncodedLimit(limit) then Stopped(TooLarge)
      else
        var pending := d.pending + [c];
        if |pending| != 4 then d.(pending := pending, encodedSize := size)
        else
          match DecodeQuad(pending)
          case None => Stopped(Invalid)
          case Some(group) =>
            var decodedSize := SaturatingAdd(d.decodedSize, |group|);
            if decodedSize > limit then Stopped(TooLarge)
            else Running([], size, decodedSize, PAD in pending, d.out + group)
  }

  function FeedFrom(d: Decoder, s: seq<byte>, limit: nat): Decoder {
    if s == [] then d else Feed(FeedFrom(d, s[..|s| - 1], limit), s[|s| - 1], limit)
  }

  function FeedAll(s: seq<byte>, limit: nat): Decoder {
    FeedFrom(START, s, limit)
  }

  function Finish(d: Decoder): Result<seq<byte>, ReadError> {
    match d
    case Stopped(error) => Err(error)
    case Running(pending, _, _, _, out) => if pending != [] then Err(Invalid) else Ok(out)
  }

  /** What the decoder makes of a text of symbols, whatever chunks it came in. */
  function DecodeStream(s: seq<byte>, limit: nat): Result<seq<byte>, ReadError> {
    Finish(FeedAll(s, limit))
  }

  /** Saturated counters cannot pass `usize::MAX`, so at this limit every size passes. */
  predicate Passes(size: nat, limit: nat) {
    size <= limit || limit == USIZE_MAX
  }

  ghost predicate NoFitting(s: seq<byte>, limit: nat, error: ReadError) {
    forall x :: Decode(s + x).Some? ==> |Decode(s + x).value| > limit && error == TooLarge
  }

  /** The decoder after the symbols `s`. */
  ghost predicate Follows(d: Decoder, s: seq<byte>, limit: nat) {
    match d
    case Running(pending, encodedSize, decodedSize, padded, out) =>
      && |pending| == |s| % 4
      && s == s[..|s| - |pending|] + pending
      && encodedSize == (if |s| > USIZE_MAX then USIZE_MAX else |s|)
      && Decode(s[..|s| - |pending|]) == Some(out)
      && decodedSize == |out| <= limit
      && (padded <==> PAD in s[..|s| - |pending|])
      && (padded ==> pending == [])
    case Stopped(error) => NoFitting(s, limit, error)
  }

  lemma StoppedStays(s: seq<byte>, c: byte, limit: nat, error: ReadError)
    requires NoFitting(s, limit, error)
    ensures NoFitting(s + [c], limit, error)
  {
    forall x | Decode(s + [c] + x).Some?
      ensures |Decode(s + [c] + x).value| > limit && error == TooLarge
    {
      assert s + [c] + x == s + ([c] + x);
    }
  }

  lemma PaddingEnds(s: seq<byte>, c: byte, limit: nat)
    requires |s| % 4 == 0 && PAD in s
    ensures NoFitting(s + [c], limit, Invalid)
  {
    forall x | Decode(s + [c] + x).Some? ensures false {
      assert s + [c] + x == s + ([c] + x);
      DecodePrefix(s, [c] + x);
    }
  }

  /** The early cut-off: more symbols than `limit` bytes need always means too many bytes. */
  lemma TooManySymbols(s: seq<byte>, limit: nat)
    requires |s| > (limit + 2) / 3 * 4
    ensures NoFitting(s, limit, TooLarge)
  {
    forall x | Decode(s + x).Some? ensures |Decode(s + x).value| > limit {
      DecodedLength(s + x);
      var n := |Decode(s + x).value|;
      assert (n + 2) / 3 > (limit + 2) / 3;
    }
  }

  lemma BadQuad(p: seq<byte>, q: seq<byte>, limit: nat)
    requires |p| % 4 == 0 && |q| == 4 && DecodeQuad(q).None?
    ensures NoFitting(p + q, limit, Invalid)
  {
    forall x | Decode(p + q + x).Some? ensures false {
      DecodePrefix(p + q, x);
      DecodeAppend(p, q);
    }
  }

  lemma TooManyBytes(s: seq<byte>, limit: nat)
    requires |s| % 4 == 0
    requires Decode(s).Some? ==> |Decode(s).value| > limit
    ensures NoFitting(s, limit, TooLarge)
  {
    forall x | Decode(s + x).Some? ensures |Decode(s + x).value| > limit {
      DecodePrefix(s, x);
    }
  }

  lemma FeedFollows(d: Decoder, s: seq<byte>, c: byte, limit: nat)
    requires Follows(d, s, limit) && limit < USIZE_MAX
    ensures Follows(Feed(d, c, limit), s + [c], limit)
  {
    hide Decode, DecodeQuad;
    if d.Stopped? {
      StoppedStays(s, c, limit, d.error);
    } else {
      var whole := s[..|s| - |d.pending|];
      if d.padded {
        PaddingEnds(s, c, limit);
      } else if SaturatingAdd(d.encodedSize, 1) > EncodedLimit(limit) {
        TooManySymbols(s + [c], limit);
      } else {
        var pending := d.pending + [c];
        assert s + [c] == whole + pending;
        if |pending| != 4 {
          assert (s + [c])[..|s| + 1 - |pending|] == whole;
        } else {
          FeedFourth(d, whole, pending, limit);
        }
      }
    }
  }

  lemma FeedFourth(d: Decoder, whole: seq<byte>, pending: seq<byte>, limit: nat)
    requires d.Running? && !d.padded && |pending| == 4 && d.pending == pending[..3]
    requires Follows(d, whole + d.pending, limit) && |whole| % 4 == 0
    requires limit < USIZE_MAX
    requires SaturatingAdd(d.encodedSize, 1) <= EncodedLimit(limit)
    ensures Follows(Feed(d, pending[3], limit), whole + pending, limit)
  {
    hide Decode, DecodeQuad;
    assert d.pending + [pending[3]] == pending;
    assert Decode(whole) == Some(d.out) && PAD !in whole by {
      assert (whole + d.pending)[..|whole|] == whole;
    }
    if DecodeQuad(pending).None? {
      BadQuad(whole, pending, limit);
    } else {
      var group := DecodeQuad(pending).value;
      WholeGroup(whole, pending, d.out);
      if SaturatingAdd(d.decodedSize, |group|) > limit {
        TooManyBytes(whole + pending, limit);
      } else {
        assert (whole + pending)[..|whole + pending| - 0] == whole + pending == whole + pending + [];
      }
    }
  }

  lemma WholeGroup(whole: seq<byte>, q: seq<byte>, out: seq<byte>)
    requires |whole| % 4 == 0 && |q| == 4 && DecodeQuad(q).Some?
    requires Decode(whole) == Some(out) && PAD !in whole
    ensures Decode(whole + q) == Some(out + DecodeQuad(q).value)
    ensures |out + DecodeQuad(q).value| <= |whole + q|
  {
    DecodeAppend(whole, q);
    DecodedLength(whole + q);
  }

  lemma {:induction false} FeedAllFollows(s: seq<byte>, limit: nat)
    requires limit < USIZE_MAX
    ensures Follows(FeedAll(s, limit), s, limit)
  {
    if s != [] {
      FeedAllFollows(s[..|s| - 1], limit);
      FeedFollows(FeedAll(s[..|s| - 1], limit), s[..|s| - 1], s[|s| - 1], limit);
      assert s == s[..|s| - 1] + [s[|s| - 1]];
    }
  }

  lemma FollowsToTheEnd(d: Decoder, s: seq<byte>, limit: nat)
    requires Follows(d, s, limit)
    ensures Finish(d).Ok? <==> Decode(s).Some? && |Decode(s).value| <= limit
    ensures Finish(d).Ok? ==> Finish(d).value == Decode(s).value
    ensures Decode(s).Some? && |Decode(s).value| > limit ==> Finish(d) == Err(TooLarge)
  {
    if d.Stopped? {
      assert s + [] == s;
    } else if d.pending != [] {
      if Decode(s).Some? { DecodedLength(s); }
    } else {
      assert s[..|s| - 0] == s;
    }
  }

  /** At `usize::MAX` no length of input is ever reported as too large. */
  lemma {:induction false} NeverTooLarge(s: seq<byte>)
    ensures DecodeStream(s, USIZE_MAX) != Err(TooLarge)
    ensures FeedAll(s, USIZE_MAX) != Stopped(TooLarge)
  {
    if s != [] {
      NeverTooLarge(s[..|s| - 1]);
    }
  }

  /** The decoder with any counters, after the symbols `s`. */
  ghost predicate FollowsUncounted(d: Decoder, s: seq<byte>) {
    match d
    case Running(pending, _, _, padded, out) =>
      && |pending| == |s| % 4
      && s == s[..|s| - |pending|] + pending
      && Decode(s[..|s| - |pending|]) == Some(out)
      && (padded <==> PAD in s[..|s| - |pending|])
      && (padded ==> pending == [])
    case Stopped(error) => NoFitting(s, 0, Invalid)
  }

  lemma FeedUncounted(d: Decoder, s: seq<byte>, c: byte)
    requires FollowsUncounted(d, s) && Feed(d, c, USIZE_MAX) != Stopped(TooLarge)
    ensures FollowsUncounted(Feed(d, c, USIZE_MAX), s + [c])
  {
    hide Decode, DecodeQuad, NoFitting;
    if d.Stopped? {
      StoppedStays(s, c, 0, Invalid);
    } else {
      var whole, pending := s[..|s| - |d.pending|], d.pending + [c];
      assert s + [c] == whole + pending;
      if d.padded {
        PaddingEnds(s, c, 0);
      } else if |pending| != 4 {
        assert (s + [c])[..|s| + 1 - |pending|] == whole;
      } else if DecodeQuad(pending).None? {
        BadQuad(whole, pending, 0);
      } else {
        WholeGroup(whole, pending, d.out);
        assert pending[..3] == d.pending && (whole + pending)[..|whole|] == whole;
        assert (s + [c])[..|s + [c]| - 0] == s + [c] == s + [c] + [];
      }
    }
  }

  lemma NothingDecoded()
    ensures Decode([]) == Some([])
  {
  }

  lemma {:induction false} FeedAllUncounted(s: seq<byte>)
    ensures FollowsUncounted(FeedAll(s, USIZE_MAX), s)
  {
    hide Decode, DecodeQuad, NoFitting, Feed;
    NeverTooLarge(s);
    if s == [] {
      NothingDecoded();
    } else {
      FeedAllUncounted(s[..|s| - 1]);
      FeedUncounted(FeedAll(s[..|s| - 1], USIZE_MAX), s[..|s| - 1], s[|s| - 1]);
      assert s == s[..|s| - 1] + [s[|s| - 1]];
    }
  }

  /**
   At `usize::MAX` the saturated counters never exceed the limit: bodies of any length are
   decoded, also those of more bytes than that.
   */
  lemma NoLimitAtMax(s: seq<byte>, b: seq<byte>)
    ensures DecodeStream(s, USIZE_MAX) == Ok(b) <==> Encode(b) == s
    ensures DecodeStream(s, USIZE_MAX) != Err(TooLarge)
  {
    hide Decode, Encode, FeedAll;
    NeverTooLarge(s);
    FeedAllUncounted(s);
    DecodeIffEncode(s, b);
    UncountedToTheEnd(FeedAll(s, USIZE_MAX), s);
  }

  lemma UncountedToTheEnd(d: Decoder, s: seq<byte>)
    requires FollowsUncounted(d, s)
    ensures Finish(d).Ok? <==> Decode(s).Some?
    ensures Finish(d).Ok? ==> Finish(d).value == Decode(s).value
  {
    hide Decode;
    if d.Stopped? {
      assert s + [] == s;
    } else if d.pending != [] {
      if Decode(s).Some? { DecodedLength(s); }
    } else {
      assert s[..|s| - 0] == s;
    }
  }

  /**
   The decoder accepts exactly the canonical encodings of archives within the limit, and
   yields the archive. An encoding of a larger archive is reported as too large.
   */
  lemma StreamIsOneShot(s: seq<byte>, limit: nat, b: seq<byte>)
    requires limit <= USIZE_MAX
    ensures DecodeStream(s, limit) == Ok(b) <==> Encode(b) == s && Passes(|b|, limit)
    ensures Encode(b) == s && !Passes(|b|, limit) ==> DecodeStream(s, limit) == Err(TooLarge)
  {
    hide Decode, Encode, FeedAll;
    if limit == USIZE_MAX {
      NoLimitAtMax(s, b);
    } else {
      FeedAllFollows(s, limit);
      DecodeIffEncode(s, b);
      FollowsToTheEnd(FeedAll(s, limit), s, limit);
    }
  }

  lemma {:induction false} StripConcat(a: seq<byte>, b: seq<byte>)
    ensures Strip(a + b) == Strip(a) + Strip(b)
  {
    if b == [] {
      assert a + b == a;
    } else {
      StripConcat(a, b[..|b| - 1]);
      assert (a + b)[..|a + b| - 1] == a + b[..|b| - 1];
    }
  }

  /** `write_multipart_file`: the file it fills, or why it refuses. */
  method WriteMultipartFile(encoded: bool, chunks: seq<seq<byte>>, decodedLimit: nat)
    returns (r: Result<seq<byte>, ReadError>)
    requires decodedLimit <= USIZE_MAX
    ensures encoded ==> r == DecodeStream(Strip(Flatten(chunks)), decodedLimit)
    ensures encoded ==> forall b :: r == Ok(b) <==> Encode(b) == Strip(Flatten(chunks)) && Passes(|b|, decodedLimit)
    ensures !encoded ==>
              r == if Passes(|Flatten(chunks)|, decodedLimit) then Ok(Flatten(chunks)) else Err(TooLarge)
  {
    var output: seq<byte> := [];
    if encoded {
      r := WriteEncoded(chunks, decodedLimit);
      forall b ensures r == Ok(b) <==> Encode(b) == Strip(Flatten(chunks)) && Passes(|b|, decodedLimit) {
        StreamIsOneShot(Strip(Flatten(chunks)), decodedLimit, b);
      }
      return;
    }
    var written: nat := 0;
    for i := 0 to |chunks|
      invariant output == Flatten(chunks[..i])
      invariant decodedLimit < USIZE_MAX ==> written == |output| <= decodedLimit
    {
      FlattenStep(chunks, i);
      FlattenGrows(chunks, i + 1);
      written := SaturatingAdd(written, |chunks[i]|);
      if written > decodedLimit {
        return Err(TooLarge);
      }
      output := output + chunks[i];
    }
    assert chunks[..|chunks|] == chunks;
    return Ok(output);
  }

  lemma FlattenStep<T>(chunks: seq<seq<T>>, i: nat)
    requires i < |chunks|
    ensures Flatten(chunks[..i + 1]) == Flatten(chunks[..i]) + chunks[i]
  {
    assert chunks[..i + 1][..i] == chunks[..i];
  }

  lemma {:induction false} FlattenGrows<T>(chunks: seq<seq<T>>, i: nat)
    requires i <= |chunks|
    ensures |Flatten(chunks[..i])| <= |Flatten(chunks)|
    decreases |chunks| - i
  {
    if i == |chunks| {
      assert chunks[..i] == chunks;
    } else {
      FlattenStep(chunks, i);
      FlattenGrows(chunks, i + 1);
    }
  }

  lemma {:induction false} FeedConcat(d: Decoder, a: seq<byte>, b: seq<byte>, limit: nat)
    ensures FeedFrom(d, a + b, limit) == FeedFrom(FeedFrom(d, a, limit), b, limit)
  {
    if b == [] {
      assert a + b == a;
    } else {
      FeedConcat(d, a, b[..|b| - 1], limit);
      assert (a + b)[..|a + b| - 1] == a + b[..|b| - 1];
    }
  }

  lemma {:induction false} StoppedForGood(error: ReadError, s: seq<byte>, limit: nat)
    ensures FeedFrom(Stopped(error), s, limit) == Stopped(error)
  {
    if s != [] {
      StoppedForGood(error, s[..|s| - 1], limit);
    }
  }

  /** One more chunk of a body. */
  lemma NextChunk(chunks: seq<seq<byte>>, i: nat, limit: nat)
    requires i < |chunks|
    ensures FeedAll(Strip(Flatten(chunks[..i + 1])), limit)
         == FeedFrom(FeedAll(Strip(Flatten(chunks[..i])), limit), Strip(chunks[i]), limit)
  {
    FlattenStep(chunks, i);
    StripConcat(Flatten(chunks[..i]), chunks[i]);
    FeedConcat(START, Strip(Flatten(chunks[..i])), Strip(chunks[i]), limit);
  }

  /** Once stopped, the rest of the body changes nothing. */
  lemma {:induction false} StopsAt(chunks: seq<seq<byte>>, i: nat, limit: nat, error: ReadError)
    requires i <= |chunks| && FeedAll(Strip(Flatten(chunks[..i])), limit) == Stopped(error)
    ensures DecodeStream(Strip(Flatten(chunks)), limit) == Err(error)
    decreases |chunks| - i
  {
    if i == |chunks| {
      assert chunks[..i] == chunks;
    } else {
      NextChunk(chunks, i, limit);
      StoppedForGood(error, Strip(chunks[i]), limit);
      StopsAt(chunks, i + 1, limit, error);
    }
  }

  lemma NothingFed(d: Decoder, chunk: seq<byte>, limit: nat)
    ensures FeedFrom(d, Strip(chunk[..0]), limit) == d
  {
  }

  lemma NextByte(d: Decoder, chunk: seq<byte>, j: nat, limit: nat)
    requires j < |chunk|
    ensures FeedFrom(d, Strip(chunk[..j + 1]), limit) ==
            if IsWhitespace(chunk[j]) then FeedFrom(d, Strip(chunk[..j]), limit)
            else Feed(FeedFrom(d, Strip(chunk[..j]), limit), chunk[j], limit)
  {
    var before := Strip(chunk[..j]);
    assert chunk[..j + 1][..j] == chunk[..j];
    if IsWhitespace(chunk[j]) {
      assert Strip(chunk[..j + 1]) == before;
    } else {
      assert Strip(chunk[..j + 1]) == before + [chunk[j]];
      assert (before + [chunk[j]])[..|before|] == before;
    }
  }

  lemma StopsWithin(d: Decoder, chunk: seq<byte>, j: nat, limit: nat, error: ReadError)
    requires j <= |chunk| && FeedFrom(d, Strip(chunk[..j]), limit) == Stopped(error)
    ensures FeedFrom(d, Strip(chunk), limit) == Stopped(error)
  {
    assert chunk == chunk[..j] + chunk[j..];
    StripConcat(chunk[..j], chunk[j..]);
    FeedConcat(d, Strip(chunk[..j]), Strip(chunk[j..]), limit);
    StoppedForGood(error, Strip(chunk[j..]), limit);
  }

  /** The base64 branch. Bytes of a chunk go to the file once the chunk is done. */
  method WriteEncoded(chunks: seq<seq<byte>>, decodedLimit: nat)
    returns (r: Result<seq<byte>, ReadError>)
    requires decodedLimit <= USIZE_MAX
    ensures r == DecodeStream(Strip(Flatten(chunks)), decodedLimit)
  {
    var output: seq<byte> := [];
    var pending: seq<byte> := [];
    var encodedSize: nat, decodedSize: nat := 0, 0;
    var sawPadding := false;
    for i := 0 to |chunks|
      invariant |pending| < 4
      invariant FeedAll(Strip(Flatten(chunks[..i])), decodedLimit)
             == Running(pending, encodedSize, decodedSize, sawPadding, output)
    {
      var error, decodedChunk;
      NextChunk(chunks, i, decodedLimit);
      error, pending, encodedSize, decodedSize, sawPadding, decodedChunk :=
        DecodeChunk(chunks[i], decodedLimit, pending, encodedSize, decodedSize, sawPadding, output);
      if error.Some? {
        StopsAt(chunks, i + 1, decodedLimit, error.value);
        return Err(error.value);
      }
      output := output + decodedChunk;
    }
    assert chunks[..|chunks|] == chunks;
    if pending != [] {
      return Err(Invalid);
    }
    return Ok(output);
  }

  /** The loop over the bytes of one chunk. */
  method DecodeChunk(chunk: seq<byte>, decodedLimit: nat, pending0: seq<byte>, encodedSize0: nat,
                     decodedSize0: nat, sawPadding0: bool, ghost output: seq<byte>)
    returns (error: Option<ReadError>, pending: seq<byte>, encodedSize: nat,
             decodedSize: nat, sawPadding: bool, decodedChunk: seq<byte>)
    requires decodedLimit <= USIZE_MAX && |pending0| < 4
    ensures |pending| < 4
    ensures FeedFrom(Running(pending0, encodedSize0, decodedSize0, sawPadding0, output), Strip(chunk), decodedLimit)
         == if error.Some? then Stopped(error.value)
            else Running(pending, encodedSize, decodedSize, sawPadding, output + decodedChunk)
  {
    hide DecodeQuad, FeedFrom, Strip;
    ghost var d := Running(pending0, encodedSize0, decodedSize0, sawPadding0, output);
    var encodedLimit := SaturatingMul((decodedLimit + 2) / 3, 4);
    error, pending, encodedSize, decodedSize, sawPadding, decodedChunk :=
      None, pending0, encodedSize0, decodedSize0, sawPadding0, [];
    NothingFed(d, chunk, decodedLimit);
    assert output + decodedChunk == output;
    for j := 0 to |chunk|
      invariant |pending| < 4 && error.None?
      invariant FeedFrom(d, Strip(chunk[..j]), decodedLimit)
             == Running(pending, encodedSize, decodedSize, sawPadding, output + decodedChunk)
    {
      NextByte(d, chunk, j, decodedLimit);
      if IsWhitespace(chunk[j]) {
        continue;
      }
      if sawPadding {
        error := Some(Invalid);
      } else {
        encodedSize := SaturatingAdd(encodedSize, 1);
        if encodedSize > encodedLimit {
          error := Some(TooLarge);
        } else if |pending| < 3 {
          pending := pending + [chunk[j]];
        } else {
          var quad := pending + [chunk[j]];
          var decoded := DecodeQuad(quad);
          pending := [];
          if decoded.None? {
            error := Some(Invalid);
          } else {
            sawPadding := PAD in quad;
            decodedSize := SaturatingAdd(decodedSize, |decoded.value|);
            if decodedSize > decodedLimit {
              error := Some(TooLarge);
            } else {
              assert output + (decodedChunk + decoded.value) == output + decodedChunk + decoded.value;
              decodedChunk := decodedChunk + decoded.value;
            }
          }
        }
      }
      if error.Some? {
        StopsWithin(d, chunk, j + 1, decodedLimit, error.value);
        return;
      }
    }
    assert chunk[..|chunk|] == chunk;
  }
}
