/**
 Base64 with the standard alphabet, section 4 of RFC 4648: padding is required and the
 unused bits of the last symbol must be zero (section 3.5), as the engine used by
 src/upload.rs demands.
 */
module Base64 {
  import opened Wrappers

  const PAD: byte := 61

  /** The symbol for a six-bit value (table 1 of RFC 4648), as an ASCII code. */
  function SymbolOf(v: nat): byte
    requires v < 64
  {
    if v < 26 then 65 + v
    else if v < 52 then 97 + (v - 26)
    else if v < 62 then 48 + (v - 52)
    else if v == 62 then 43
    else 47
  }

  function ValueOf(c: byte): Option<nat> {
    if 65 <= c <= 90 then Some(c - 65)
    else if 97 <= c <= 122 then Some(c - 97 + 26)
    else if 48 <= c <= 57 then Some(c - 48 + 52)
    else if c == 43 then Some(62)
    else if c == 47 then Some(63)
    else None
  }

  lemma SymbolsAreInjective(v: nat)
    requires v < 64
    ensures ValueOf(SymbolOf(v)) == Some(v)
    ensures SymbolOf(v) != PAD
  {
  }

  lemma ValuesAreInjective(c: byte)
    requires ValueOf(c).Some?
    ensures ValueOf(c).value < 64 && SymbolOf(ValueOf(c).value) == c && c != PAD
  {
  }

  /** Encodes one group of one to three bytes as four symbols. */
  function EncodeGroup(g: seq<byte>): (q: seq<byte>)
    requires 1 <= |g| <= 3
    ensures |q| == 4
  {
    var b0, b1, b2 := g[0], if |g| > 1 then g[1] else 0, if |g| > 2 then g[2] else 0;
    [ SymbolOf(b0 / 4),
      SymbolOf(b0 % 4 * 16 + b1 / 16),
      if |g| > 1 then SymbolOf(b1 % 16 * 4 + b2 / 64) else PAD,
      if |g| > 2 then SymbolOf(b2 % 64) else PAD ]
  }

  /** The encoding of a whole byte string: groups of three, then the rest with padding. */
  function Encode(b: seq<byte>): (s: seq<byte>) {
    if b == [] then []
    else if |b| <= 3 then EncodeGroup(b)
    else EncodeGroup(b[..3]) + Encode(b[3..])
  }

  /** What `STANDARD.decode_slice` makes of exactly four symbols. */
  function DecodeQuad(q: seq<byte>): Option<seq<byte>>
    requires |q| == 4
  {
    var v0 :- ValueOf(q[0]);
    var v1 :- ValueOf(q[1]);
    if q[2] == PAD && q[3] == PAD then
      if v1 % 16 == 0 then Some([v0 * 4 + v1 / 16]) else None
    else
      var v2 :- ValueOf(q[2]);
      if q[3] == PAD then
        if v2 % 4 == 0 then Some([v0 * 4 + v1 / 16, v1 % 16 * 16 + v2 / 4]) else None
      else
        var v3 :- ValueOf(q[3]);
        Some([v0 * 4 + v1 / 16, v1 % 16 * 16 + v2 / 4, v2 % 4 * 64 + v3])
  }

  lemma SplitThenJoin(b0: byte, b1: byte, b2: byte)
    ensures var v1, v2 := b0 % 4 * 16 + b1 / 16, b1 % 16 * 4 + b2 / 64;
            && v1 < 64 && v2 < 64
            && b0 / 4 * 4 + v1 / 16 == b0
            && v1 % 16 * 16 + v2 / 4 == b1
            && v2 % 4 * 64 + b2 % 64 == b2
  {
  }

  lemma JoinThenSplit(v0: nat, v1: nat, v2: nat, v3: nat)
    requires v0 < 64 && v1 < 64 && v2 < 64 && v3 < 64
    ensures var b0, b1, b2 := v0 * 4 + v1 / 16, v1 % 16 * 16 + v2 / 4, v2 % 4 * 64 + v3;
            && b0 < 256 && b1 < 256 && b2 < 256
            && b0 / 4 == v0
            && b0 % 4 * 16 + b1 / 16 == v1
            && b1 % 16 * 4 + b2 / 64 == v2
            && b2 % 64 == v3
  {
  }

  lemma DecodeEncodedGroup(g: seq<byte>)
    requires 1 <= |g| <= 3
    ensures DecodeQuad(EncodeGroup(g)) == Some(g)
    ensures PAD in EncodeGroup(g) <==> |g| < 3
  {
    var b0, b1, b2 := g[0], if |g| > 1 then g[1] else 0, if |g| > 2 then g[2] else 0;
    var q := EncodeGroup(g);
    SplitThenJoin(b0, b1, b2);
    SymbolsAreInjective(b0 / 4);
    SymbolsAreInjective(b0 % 4 * 16 + b1 / 16);
    SymbolsAreInjective(b1 % 16 * 4 + b2 / 64);
    SymbolsAreInjective(b2 % 64);
    assert |g| < 3 ==> q[3] == PAD;
    if |g| == 1 {
      assert DecodeQuad(q).value == g;
    } else if |g| == 2 {
      assert DecodeQuad(q).value == g;
    } else {
      assert DecodeQuad(q).value == g;
    }
  }

  lemma EncodeDecodedQuad(q: seq<byte>)
    requires |q| == 4 && DecodeQuad(q).Some?
    ensures var g := DecodeQuad(q).value; 1 <= |g| <= 3 && EncodeGroup(g) == q
  {
    hide ValueOf;
    ValuesAreInjective(q[0]);
    ValuesAreInjective(q[1]);
    var v0, v1 := ValueOf(q[0]).value, ValueOf(q[1]).value;
    if q[2] == PAD && q[3] == PAD {
      JoinThenSplit(v0, v1, 0, 0);
    } else {
      ValuesAreInjective(q[2]);
      var v2 := ValueOf(q[2]).value;
      if q[3] == PAD {
        JoinThenSplit(v0, v1, v2, 0);
      } else {
        ValuesAreInjective(q[3]);
        JoinThenSplit(v0, v1, v2, ValueOf(q[3]).value);
      }
    }
  }

  /** One-shot decoding of a whole text. Only the last four symbols may hold padding. */
  function Decode(s: seq<byte>): Option<seq<byte>> {
    if s == [] then Some([])
    else if |s| < 4 then None
    else
      var head :- DecodeQuad(s[..4]);
      if |s| > 4 && PAD in s[..4] then None
      else
        var tail :- Decode(s[4..]);
        Some(head + tail)
  }

  /** Decoding inverts encoding and nothing else decodes: both round trips at once. */
  lemma {:induction false} DecodeIffEncode(s: seq<byte>, b: seq<byte>)
    ensures Decode(s) == Some(b) <==> Encode(b) == s
    decreases |s| + |b|
  {
    if Encode(b) == s {
      DecodeOfEncode(b);
    }
    if Decode(s) == Some(b) {
      EncodeOfDecode(s);
    }
  }

  lemma {:induction false} DecodeOfEncode(b: seq<byte>)
    ensures Decode(Encode(b)) == Some(b)
  {
    if b == [] {
    } else if |b| <= 3 {
      DecodeEncodedGroup(b);
      assert Encode(b)[..4] == Encode(b) && Encode(b)[4..] == [];
      assert b + [] == b;
    } else {
      DecodeEncodedGroup(b[..3]);
      DecodeOfEncode(b[3..]);
      var s := Encode(b);
      assert s[..4] == EncodeGroup(b[..3]) && s[4..] == Encode(b[3..]);
      assert b == b[..3] + b[3..];
    }
  }

  lemma {:induction false} EncodeOfDecode(s: seq<byte>)
    requires Decode(s).Some?
    ensures Encode(Decode(s).value) == s
  {
    if s != [] {
      var head, tail := DecodeQuad(s[..4]).value, Decode(s[4..]).value;
      EncodeDecodedQuad(s[..4]);
      EncodeOfDecode(s[4..]);
      assert s == s[..4] + s[4..];
      if |s| == 4 {
        assert s[4..] == [];
        assert head + tail == head;
      } else {
        DecodeEncodedGroup(head);
        DecodedLength(s[4..]);
        assert (head + tail)[..3] == head && (head + tail)[3..] == tail;
      }
    }
  }

  /** Every four symbols carry one to three bytes, and all but the last four carry three. */
  lemma {:induction false} DecodedLength(s: seq<byte>)
    requires Decode(s).Some?
    ensures var n := |Decode(s).value|; |s| == (n + 2) / 3 * 4
  {
    hide DecodeQuad, EncodeGroup;
    if s != [] {
      EncodeDecodedQuad(s[..4]);
      var head := DecodeQuad(s[..4]).value;
      DecodeEncodedGroup(head);
      DecodedLength(s[4..]);
    }
  }

  /** Appending four symbols to a text of whole groups decodes them on their own. */
  lemma {:induction false} DecodeAppend(p: seq<byte>, q: seq<byte>)
    requires |p| % 4 == 0 && |q| == 4
    ensures Decode(p + q) ==
            if Decode(p).None? || PAD in p || DecodeQuad(q).None? then None
            else Some(Decode(p).value + DecodeQuad(q).value)
  {
    hide DecodeQuad;
    if p == [] {
      assert p + q == q && q[..4] == q && q[4..] == [];
      if DecodeQuad(q).Some? {
        var d := DecodeQuad(q).value;
        assert [] + d == d && d + [] == d;
      }
    } else {
      assert (p + q)[..4] == p[..4] && (p + q)[4..] == p[4..] + q;
      assert p == p[..4] + p[4..];
      DecodeAppend(p[4..], q);
      if Decode(p).Some? && Decode(p + q).Some? {
        assert Decode(p).value + DecodeQuad(q).value ==
          DecodeQuad(p[..4]).value + (Decode(p[4..]).value + DecodeQuad(q).value);
      }
    }
  }

  /** A text whose whole groups do not decode does not decode, however it goes on. */
  lemma {:induction false} DecodePrefix(p: seq<byte>, x: seq<byte>)
    requires |p| % 4 == 0 && Decode(p + x).Some?
    ensures Decode(p).Some? && Decode(x).Some?
    ensures Decode(p + x).value == Decode(p).value + Decode(x).value
    ensures PAD in p ==> x == []
  {
    hide DecodeQuad;
    if p == [] {
      assert p + x == x;
    } else {
      assert (p + x)[..4] == p[..4] && (p + x)[4..] == p[4..] + x;
      assert p == p[..4] + p[4..];
      DecodePrefix(p[4..], x);
      assert DecodeQuad(p[..4]).value + (Decode(p[4..]).value + Decode(x).value) == Decode(p).value + Decode(x).value;
    }
  }
}
