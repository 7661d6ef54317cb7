/** The trusted-proxy walk over X-Forwarded-For (src/client_ip.rs). */
module ClientIp {
  import opened Wrappers
  import opened Sequences

  type Bits32 = x: int | 0 <= x < 0x1_0000_0000
  type Bits128 = x: int | 0 <= x < 0x1_0000_0000_0000_0000_0000_0000_0000_0000

  datatype Ip = V4(v4: Bits32) | V6(v6: Bits128)

  /** An address block: every address that shares the first bits of `base`. */
  datatype Net = Net4(base4: Bits32, len4: nat) | Net6(base6: Bits128, len6: nat)

  function Pow2(n: nat): (p: nat)
    ensures p > 0
  {
    if n == 0 then 1 else 2 * Pow2(n - 1)
  }

  predicate Contains(net: Net, ip: Ip) {
    match (net, ip)
    case (Net4(base, len), V4(a)) => len <= 32 && a / Pow2(32 - len) == base / Pow2(32 - len)
    case (Net6(base, len), V6(a)) => len <= 128 && a / Pow2(128 - len) == base / Pow2(128 - len)
    case _ => false
  }

  lemma MoreBlocks(p: nat, q: nat, size: nat)
    requires p < q
    ensures p * size + size <= q * size
  {
    var d := q - p;
    assert q * size == p * size + d * size;
    if d > 1 {
      assert d * size == size + (d - 1) * size;
    }
  }

  lemma SameBlock(a: nat, base: nat, size: nat)
    requires size > 0
    ensures a / size == base / size <==> base - base % size <= a < base - base % size + size
  {
    var p, q, r, t := a / size, base / size, a % size, base % size;
    assert a == p * size + r;
    assert base == q * size + t;
    assert 0 <= r < size && 0 <= t < size;
    if p < q {
      MoreBlocks(p, q, size);
    } else if q < p {
      MoreBlocks(q, p, size);
    }
  }

  /** A block is a range of addresses: from `base` with its last bits cleared, all that these bits can count. */
  lemma ContainsIff(net: Net, ip: Ip)
    ensures Contains(net, ip) <==>
            match (net, ip)
            case (Net4(base, len), V4(a)) =>
              len <= 32 && var size := Pow2(32 - len); base - base % size <= a < base - base % size + size
            case (Net6(base, len), V6(a)) =>
              len <= 128 && var size := Pow2(128 - len); base - base % size <= a < base - base % size + size
            case _ => false
  {
    hide Pow2;
    match (net, ip) {
      case (Net4(base, len), V4(a)) =>
        if len <= 32 { SameBlock(a, base, Pow2(32 - len)); }
      case (Net6(base, len), V6(a)) =>
        if len <= 128 { SameBlock(a, base, Pow2(128 - len)); }
      case _ =>
    }
  }

  /** The IPv6 form of an IPv4 address, section 2.5.5.2 of RFC 4291. */
  function Mapped(a: Bits32): Ip {
    V6(0xFFFF_0000_0000 + a)
  }

  function Normalize(ip: Ip): Ip {
    match ip
    case V6(a) => if 0xFFFF_0000_0000 <= a <= 0xFFFF_FFFF_FFFF then V4(a - 0xFFFF_0000_0000) else ip
    case V4(_) => ip
  }

  predicate Trusted(ip: Ip, nets: seq<Net>) {
    exists n :: n in nets && Contains(n, ip)
  }

  /** `allowed`: no list means every address. */
  predicate Allowed(ip: Ip, nets: seq<Net>) {
    nets == [] || Trusted(Normalize(ip), nets)
  }

  /** An empty list allows every address; otherwise a list allows what one of its parts does. */
  lemma ListsAddUp(ip: Ip, nets: seq<Net>, more: seq<Net>)
    ensures Allowed(ip, [])
    ensures nets != [] && more != [] ==> (Allowed(ip, nets + more) <==> Allowed(ip, nets) || Allowed(ip, more))
    ensures forall n :: Allowed(ip, [n]) <==> Contains(n, Normalize(ip))
  {
    hide Contains, Normalize;
    assert forall n :: n in nets + more <==> n in nets || n in more;
    forall n ensures Allowed(ip, [n]) <==> Contains(n, Normalize(ip)) {
      assert n in [n];
    }
  }

  datatype IpError = Omitted | HeaderTooLarge | BadAddress | BadHopCount

  const MAX_HEADER: nat := 4096

  /** Every field parsed and normalized, or None. `parse` is the address or socket-address grammar. */
  function ParseAll(fields: seq<string>, parse: string -> Option<Ip>): (r: Option<seq<Ip>>)
    ensures r.Some? <==> forall f :: f in fields ==> parse(f).Some?
    ensures r.Some? ==> |r.value| == |fields|
                        && forall i :: 0 <= i < |fields| ==> r.value[i] == Normalize(parse(fields[i]).value)
  {
    if fields == [] then Some([])
    else
      var first := parse(fields[0]);
      var rest := ParseAll(fields[1..], parse);
      assert forall f :: f in fields <==> f == fields[0] || f in fields[1..];
      if first.None? || rest.None? then None else Some([Normalize(first.value)] + rest.value)
  }

  /** The index of the rightmost address of `chain` that no trusted block contains, or -1. */
  function RightmostUntrusted(chain: seq<Ip>, nets: seq<Net>): (i: int)
    ensures -1 <= i < |chain|
    ensures i >= 0 ==> !Trusted(chain[i], nets)
    ensures forall j :: i < j < |chain| ==> Trusted(chain[j], nets)
  {
    if chain == [] then -1
    else if !Trusted(chain[|chain| - 1], nets) then |chain| - 1
    else RightmostUntrusted(chain[..|chain| - 1], nets)
  }

  lemma RightmostIsUnique(chain: seq<Ip>, nets: seq<Net>, i: int)
    requires -1 <= i < |chain|
    requires i >= 0 ==> !Trusted(chain[i], nets)
    requires forall j :: i < j < |chain| ==> Trusted(chain[j], nets)
    ensures i == RightmostUntrusted(chain, nets)
  {
  }

  /** The client of a chain: its rightmost untrusted address, else its leftmost one. */
  function Client(chain: seq<Ip>, nets: seq<Net>): Ip
    requires chain != []
  {
    var i := RightmostUntrusted(chain, nets);
    if i >= 0 then chain[i] else chain[0]
  }

  /** What a header yields: the chain it lists, if it is within limits and every field parses. */
  function Chain(header: Option<string>, maxHops: nat, parse: string -> Option<Ip>): Result<seq<Ip>, IpError> {
    if header.None? then Err(Omitted)
    else if |header.value| > MAX_HEADER then Err(HeaderTooLarge)
    else
      match ParseAll(Split(header.value, ','), parse)
      case None => Err(BadAddress)
      case Some(values) => if |values| > maxHops then Err(BadHopCount) else Ok(values)
  }

  /** The result the walk must give. */
  function Effective(peer: Ip, header: Option<string>, trusted: seq<Net>, maxHops: nat,
                     parse: string -> Option<Ip>): Result<Ip, IpError>
  {
    if !Trusted(Normalize(peer), trusted) then Ok(Normalize(peer))
    else
      var values :- Chain(header, maxHops, parse);
      Ok(Client(values + [Normalize(peer)], trusted))
  }

  /** `effective_ip`: right to left, stopping at the first address no proxy vouches for. */
  method EffectiveIp(peer: Ip, header: Option<string>, trusted: seq<Net>, maxHops: nat,
                     parse: string -> Option<Ip>)
    returns (r: Result<Ip, IpError>)
    ensures r == Effective(peer, header, trusted, maxHops, parse)
  {
    hide Contains, Trusted, Normalize, Split, ParseAll, RightmostUntrusted;
    var peer' := Normalize(peer);
    if !Trusted(peer', trusted) {
      return Ok(peer');
    }
    if header.None? {
      return Err(Omitted);
    }
    if |header.value| > MAX_HEADER {
      return Err(HeaderTooLarge);
    }
    var parsed := ParseAll(Split(header.value, ','), parse);
    if parsed.None? {
      return Err(BadAddress);
    }
    var values := parsed.value;
    if values == [] || |values| > maxHops {
      return Err(BadHopCount);
    }
    ghost var chain := values + [peer'];
    var candidate := peer';
    var n := |values|;
    while n > 0
      invariant 0 <= n <= |values|
      invariant candidate == chain[n]
      invariant forall j :: n < j < |chain| ==> Trusted(chain[j], trusted)
    {
      n := n - 1;
      if !Trusted(candidate, trusted) {
        RightmostIsUnique(chain, trusted, n + 1);
        return Ok(candidate);
      }
      candidate := values[n];
    }
    if !Trusted(values[0], trusted) {
      RightmostIsUnique(chain, trusted, 0);
    } else {
      RightmostIsUnique(chain, trusted, -1);
    }
    return Ok(values[0]);
  }

  lemma RightmostOfSuffix(left: seq<Ip>, right: seq<Ip>, nets: seq<Net>)
    requires right != [] && !Trusted(right[0], nets)
    ensures RightmostUntrusted(left + right, nets) == |left| + RightmostUntrusted(right, nets)
    ensures RightmostUntrusted(right, nets) >= 0
  {
    hide Trusted, RightmostUntrusted;
    var i := RightmostUntrusted(right, nets);
    RightmostIsUnique(left + right, nets, |left| + i);
  }

  /**
   A client cannot influence the result by what it puts left of the first address that no
   proxy vouches for: two headers that agree from an untrusted address on give one result.
   */
  lemma LeftEntriesDoNotMatter(peer: Ip, trusted: seq<Net>, maxHops: nat, parse: string -> Option<Ip>,
                               a: seq<string>, b: seq<string>, kept: seq<string>)
    requires kept != [] && forall f :: f in a + kept || f in b + kept ==> ',' !in f
    requires Chain(Some(Join(a + kept, ',')), maxHops, parse).Ok?
    requires Chain(Some(Join(b + kept, ',')), maxHops, parse).Ok?
    requires parse(kept[0]).Some? ==> !Trusted(Normalize(parse(kept[0]).value), trusted)
    ensures Effective(peer, Some(Join(a + kept, ',')), trusted, maxHops, parse)
         == Effective(peer, Some(Join(b + kept, ',')), trusted, maxHops, parse)
  {
    if Trusted(Normalize(peer), trusted) {
      KeptDecides(peer, trusted, maxHops, parse, a, kept);
      KeptDecides(peer, trusted, maxHops, parse, b, kept);
    }
  }

  lemma KeptDecides(peer: Ip, trusted: seq<Net>, maxHops: nat, parse: string -> Option<Ip>,
                    a: seq<string>, kept: seq<string>)
    requires kept != [] && forall f :: f in a + kept ==> ',' !in f
    requires Chain(Some(Join(a + kept, ',')), maxHops, parse).Ok?
    requires parse(kept[0]).Some? ==> !Trusted(Normalize(parse(kept[0]).value), trusted)
    ensures ParseAll(kept, parse).Some?
    ensures Chain(Some(Join(a + kept, ',')), maxHops, parse).value != []
    ensures Client(Chain(Some(Join(a + kept, ',')), maxHops, parse).value + [Normalize(peer)], trusted)
         == Client(ParseAll(kept, parse).value + [Normalize(peer)], trusted)
  {
    hide Contains, Trusted, Normalize, Split, Join, ParseAll, RightmostUntrusted;
    SplitJoined(a + kept, ',');
    ParseConcat(a, kept, parse);
    assert kept[0] in kept;
    var left, right := ParseAll(a, parse).value, ParseAll(kept, parse).value + [Normalize(peer)];
    assert ParseAll(a + kept, parse).value + [Normalize(peer)] == left + right;
    RightmostOfSuffix(left, right, trusted);
  }

  lemma ParseConcat(a: seq<string>, b: seq<string>, parse: string -> Option<Ip>)
    requires ParseAll(a + b, parse).Some?
    ensures ParseAll(a, parse).Some? && ParseAll(b, parse).Some?
    ensures ParseAll(a + b, parse).value == ParseAll(a, parse).value + ParseAll(b, parse).value
  {
    forall f | f in a || f in b ensures parse(f).Some? {
      assert f in a + b;
    }
    var whole, left, right := ParseAll(a + b, parse).value, ParseAll(a, parse).value, ParseAll(b, parse).value;
    forall i | 0 <= i < |whole| ensures whole[i] == (left + right)[i] {
      assert (a + b)[i] == if i < |a| then a[i] else b[i - |a|];
    }
  }

  /**
   An IPv4 address and its IPv6-mapped form are the same peer, the same hop and the same
   publisher: swapping one for the other in any place changes nothing.
   */
  lemma MappedFormIsTheSame(peer: Ip, header: Option<string>, trusted: seq<Net>, maxHops: nat,
                            parse: string -> Option<Ip>, parse': string -> Option<Ip>, a: Bits32)
    requires forall f: string :: parse'(f) == parse(f) || (parse(f) == Some(V4(a)) && parse'(f) == Some(Mapped(a)))
    ensures Effective(peer, header, trusted, maxHops, parse') == Effective(peer, header, trusted, maxHops, parse)
    ensures Effective(Mapped(a), header, trusted, maxHops, parse) == Effective(V4(a), header, trusted, maxHops, parse)
    ensures Allowed(Mapped(a), trusted) == Allowed(V4(a), trusted)
  {
    assert Normalize(Mapped(a)) == V4(a);
    if header.Some? {
      var fields := Split(header.value, ',');
      assert forall f :: f in fields ==> parse'(f).Some? == parse(f).Some?;
      if ParseAll(fields, parse).Some? {
        assert ParseAll(fields, parse').value == ParseAll(fields, parse).value;
      }
    }
  }

  /**
   The result is an address no proxy vouches for, unless every hop of the header is itself
   a trusted proxy; and it is the peer or one of the header's fields.
   */
  lemma TrustedOnlyIfAllAre(peer: Ip, header: Option<string>, trusted: seq<Net>, maxHops: nat,
                            parse: string -> Option<Ip>)
    ensures Effective(peer, header, trusted, maxHops, parse).Ok? ==>
              var ip := Effective(peer, header, trusted, maxHops, parse).value;
              || (!Trusted(ip, trusted) && (ip == Normalize(peer) || FieldOf(ip, header, parse)))
              || (FieldOf(ip, header, parse) && Trusted(Normalize(peer), trusted)
                  && forall f :: f in Split(header.value, ',') ==> Trusted(Normalize(parse(f).value), trusted))
  {
    if Trusted(Normalize(peer), trusted) && Chain(header, maxHops, parse).Ok? {
      var fields := Split(header.value, ',');
      var chain := ParseAll(fields, parse).value + [Normalize(peer)];
      var i := RightmostUntrusted(chain, trusted);
      assert i < |fields|;
      if i >= 0 {
        assert fields[i] in fields;
      } else {
        assert fields[0] in fields;
        forall f | f in fields ensures Trusted(Normalize(parse(f).value), trusted) {
          var k :| 0 <= k < |fields| && fields[k] == f;
          assert Trusted(chain[k], trusted);
        }
      }
    }
  }

  /** Where every hop is a trusted proxy, the header's first field counts. */
  lemma AllTrustedGivesFirst(peer: Ip, header: Option<string>, trusted: seq<Net>, maxHops: nat,
                             parse: string -> Option<Ip>)
    requires Trusted(Normalize(peer), trusted) && Chain(header, maxHops, parse).Ok?
    requires forall f :: f in Split(header.value, ',') ==> Trusted(Normalize(parse(f).value), trusted)
    ensures Effective(peer, header, trusted, maxHops, parse)
         == Ok(Normalize(parse(Split(header.value, ',')[0]).value))
  {
    var fields := Split(header.value, ',');
    var chain := ParseAll(fields, parse).value + [Normalize(peer)];
    forall j | 0 <= j < |chain| ensures Trusted(chain[j], trusted) {
      assert j < |fields| ==> fields[j] in fields;
    }
    RightmostIsUnique(chain, trusted, -1);
  }

  ghost predicate FieldOf(ip: Ip, header: Option<string>, parse: string -> Option<Ip>) {
    header.Some? && exists f :: f in Split(header.value, ',') && parse(f).Some? && Normalize(parse(f).value) == ip
  }
}
