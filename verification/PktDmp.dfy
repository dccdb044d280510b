/** The header walk of the packet dump, against the extension header formats of
    RFC 8200 (section 4) and RFC 4302 (section 2.2). */
module PktDmp {
  import opened Bytes

  const ETHERTYPE_IPV4: nat := 0x0800
  const ETHERTYPE_VLAN: nat := 0x8100
  const ETHERTYPE_IPV6: nat := 0x86DD

  const HOP_BY_HOP: byte := 0
  const ROUTING: byte := 43
  const FRAGMENT: byte := 44
  const AUTHENTICATION: byte := 51
  const DESTINATION: byte := 60
  const ICMP: byte := 1
  const TCP: byte := 6
  const UDP: byte := 17
  const ICMPV6: byte := 58
  /** The TCP header without options. */
  const SIZEOF_TCPHDR: nat := 20
  /** Where no protocol is known, and where the walk stops. */
  const NO_PROTO: byte := 0xFF

  predicate IsExtension(proto: byte) {
    proto == HOP_BY_HOP || proto == ROUTING || proto == FRAGMENT || proto == AUTHENTICATION || proto == DESTINATION
  }

  // ----- Two ways along the chain -----

  /** The two readings of a header's second byte as its size. */
  datatype Reading = Dump | Rfc
  {
    function Size(proto: byte, second: byte): (n: nat)
      ensures n >= 8
    {
      if proto == AUTHENTICATION then (second + 2) * 4
      else if proto == FRAGMENT && Rfc? then 8
      else second * 8 + 8
    }
  }

  datatype Stop = Stop(proto: byte, off: nat)

  /** The headers from proto at off on: each with its offset, up to the first
      that is no extension, or does not start inside the frame. */
  function Chain(f: seq<byte>, proto: byte, off: nat, how: Reading): (r: seq<Stop>)
    ensures |r| > 0 && r[0] == Stop(proto, off)
    decreases |f| - off
  {
    [Stop(proto, off)] +
      if IsExtension(proto) && off + 2 <= |f| then Chain(f, f[off], off + how.Size(proto, f[off + 1]), how) else []
  }

  /** The reserved byte of every fragment header of the chain is zero. */
  predicate ReservedZero(f: seq<byte>, proto: byte, off: nat)
    decreases |f| - off
  {
    IsExtension(proto) && off + 2 <= |f| ==>
      (proto == FRAGMENT ==> f[off + 1] == 0) && ReservedZero(f, f[off], off + Rfc.Size(proto, f[off + 1]))
  }

  lemma ChainStep(f: seq<byte>, proto: byte, off: nat, how: Reading)
    ensures var chain := Chain(f, proto, off, how);
            if IsExtension(proto) && off + 2 <= |f|
            then chain == [Stop(proto, off)] + Chain(f, f[off], off + how.Size(proto, f[off + 1]), how)
            else chain == [Stop(proto, off)]
  {
  }

  /** The dump goes along the chain as the standards do exactly when every
      reserved byte of a fragment header on it is zero. */
  lemma {:induction false} ChainsAgree(f: seq<byte>, proto: byte, off: nat)
    ensures Chain(f, proto, off, Dump) == Chain(f, proto, off, Rfc) <==> ReservedZero(f, proto, off)
    decreases |f| - off
  {
    hide Chain;
    ChainStep(f, proto, off, Dump);
    ChainStep(f, proto, off, Rfc);
    if IsExtension(proto) && off + 2 <= |f| {
      var dump := Chain(f, f[off], off + Dump.Size(proto, f[off + 1]), Dump);
      var rfc := Chain(f, f[off], off + Rfc.Size(proto, f[off + 1]), Rfc);
      assert ([Stop(proto, off)] + dump)[1..] == dump && ([Stop(proto, off)] + rfc)[1..] == rfc;
      if proto == FRAGMENT && f[off + 1] != 0 {
        assert dump[0].off != rfc[0].off;
      } else {
        ChainsAgree(f, f[off], off + Rfc.Size(proto, f[off + 1]));
      }
    }
  }

  /** On a chain every header but the last is an extension that starts in the
      frame, and the last is not; headers are eight bytes or more apart. */
  lemma {:induction false} ChainParts(f: seq<byte>, proto: byte, off: nat, how: Reading)
    ensures var chain := Chain(f, proto, off, how);
            && (forall k :: 0 <= k < |chain| - 1 ==> IsExtension(chain[k].proto) && chain[k].off + 2 <= |f|)
            && (var last := chain[|chain| - 1]; !(IsExtension(last.proto) && last.off + 2 <= |f|))
            && (|chain| > 1 ==> 8 * (|chain| - 2) + 2 <= |f| - off)
            && 8 * (|chain| - 1) <= chain[|chain| - 1].off - off
    decreases |f| - off
  {
    hide Chain;
    ChainStep(f, proto, off, how);
    if IsExtension(proto) && off + 2 <= |f| {
      var (next, o) := (f[off], off + how.Size(proto, f[off + 1]));
      ChainParts(f, next, o, how);
      var (chain, rest) := (Chain(f, proto, off, how), Chain(f, next, o, how));
      forall k | 1 <= k < |chain| ensures chain[k] == rest[k - 1] {
      }
    }
  }

  // ----- Encoding a chain -----

  /** An extension header but for its next header byte. */
  datatype Extension =
    | Options(kind: byte, body: seq<byte>)
    | Fragment(reserved: byte, body: seq<byte>)
    | Auth(body: seq<byte>)
  {
    predicate Valid() {
      match this
      case Options(kind, body) =>
        (kind == HOP_BY_HOP || kind == ROUTING || kind == DESTINATION) && (|body| + 2) % 8 == 0 && 8 <= |body| + 2 <= 2048
      case Fragment(_, body) => |body| == 6
      case Auth(body) => (|body| + 2) % 4 == 0 && 8 <= |body| + 2 <= 1028
    }

    function Kind(): byte {
      match this
      case Options(kind, _) => kind
      case Fragment(_, _) => FRAGMENT
      case Auth(_) => AUTHENTICATION
    }

    /** Its length in 8-octet units, not counting the first; for authentication
        in 4-octet units, minus 2; a fragment header has no length. */
    function Second(): byte
      requires Valid()
    {
      match this
      case Options(_, body) => (|body| + 2) / 8 - 1
      case Fragment(reserved, _) => reserved
      case Auth(body) => (|body| + 2) / 4 - 2
    }
  }

  function FirstProto(exts: seq<Extension>, upper: byte): byte {
    if exts == [] then upper else exts[0].Kind()
  }

  predicate AllValid(exts: seq<Extension>) {
    forall e :: e in exts ==> e.Valid()
  }

  function Encode(exts: seq<Extension>, upper: byte): (s: seq<byte>)
    requires AllValid(exts)
  {
    if exts == [] then []
    else [FirstProto(exts[1..], upper), exts[0].Second()] + exts[0].body + Encode(exts[1..], upper)
  }

  /** Where the headers of an encoded chain are. */
  function Places(exts: seq<Extension>, upper: byte, off: nat): seq<Stop> {
    [Stop(FirstProto(exts, upper), off)] + if exts == [] then [] else Places(exts[1..], upper, off + 2 + |exts[0].body|)
  }

  lemma SizeRead(e: Extension)
    requires e.Valid()
    ensures Rfc.Size(e.Kind(), e.Second()) == 2 + |e.body| && IsExtension(e.Kind())
  {
  }

  lemma EncodeStep(exts: seq<Extension>, upper: byte)
    requires AllValid(exts) && exts != []
    ensures var (code, n) := (Encode(exts, upper), 2 + |exts[0].body|);
            && AllValid(exts[1..]) && |code| == n + |Encode(exts[1..], upper)|
            && code[0] == FirstProto(exts[1..], upper) && code[1] == exts[0].Second()
            && code[n..] == Encode(exts[1..], upper)
  {
  }

  /** Every extension header takes eight bytes or more. */
  lemma {:induction false} EncodeLength(exts: seq<Extension>, upper: byte)
    requires AllValid(exts)
    ensures 8 * |exts| <= |Encode(exts, upper)|
    decreases |exts|
  {
    hide Encode;
    if exts != [] {
      HeadValid(exts);
      EncodeStep(exts, upper);
      EncodeLength(exts[1..], upper);
    }
  }

  predicate ReservedCleared(exts: seq<Extension>) {
    exts == [] || ((exts[0].Fragment? ==> exts[0].reserved == 0) && ReservedCleared(exts[1..]))
  }

  /** Read as the standards say, an encoded chain is found again header by
      header, whatever its headers hold and whatever surrounds it. */
  lemma {:induction false} EncodedFound(f: seq<byte>, off: nat, exts: seq<Extension>, upper: byte)
    requires AllValid(exts) && !IsExtension(upper)
    requires EncodedAt(f, off, exts, upper)
    ensures Chain(f, FirstProto(exts, upper), off, Rfc) == Places(exts, upper, off)
    ensures ReservedZero(f, FirstProto(exts, upper), off) <==> ReservedCleared(exts)
    decreases |exts|
  {
    hide Chain, Encode, AllValid, IsExtension, EncodedAt;
    ChainStep(f, FirstProto(exts, upper), off, Rfc);
    if exts == [] {
      NothingEncoded(upper);
    } else {
      EncodedStep(f, off, exts, upper);
      HeadValid(exts);
      SizeRead(exts[0]);
      EncodedFound(f, off + 2 + |exts[0].body|, exts[1..], upper);
    }
  }

  /** The chain's encoding stands at off in the frame. */
  predicate EncodedAt(f: seq<byte>, off: nat, exts: seq<Extension>, upper: byte)
    requires AllValid(exts)
  {
    off + |Encode(exts, upper)| <= |f| && f[off..off + |Encode(exts, upper)|] == Encode(exts, upper)
  }

  lemma EncodedStep(f: seq<byte>, off: nat, exts: seq<Extension>, upper: byte)
    requires AllValid(exts) && exts != [] && EncodedAt(f, off, exts, upper)
    ensures var n := 2 + |exts[0].body|;
            && off + n <= |f| && exts[0].Valid() && f[off] == FirstProto(exts[1..], upper) && f[off + 1] == exts[0].Second()
            && AllValid(exts[1..]) && EncodedAt(f, off + n, exts[1..], upper)
  {
    hide Encode;
    EncodeStep(exts, upper);
    var code := Encode(exts, upper);
    var n := 2 + |exts[0].body|;
    assert f[off] == code[0] && f[off + 1] == code[1];
    assert f[off + n..off + |code|] == code[n..];
  }

  lemma NothingEncoded(upper: byte)
    ensures AllValid([]) && Encode([], upper) == []
  {
  }

  lemma HeadValid(exts: seq<Extension>)
    requires AllValid(exts) && exts != []
    ensures exts[0].Valid()
  {
  }

  // ----- The dump -----

  function U16(f: seq<byte>, off: nat): nat
    requires off + 2 <= |f|
  {
    f[off + 1] + 0x100 * (f[off] as int)
  }

  function U32(f: seq<byte>, off: nat): nat
    requires off + 4 <= |f|
  {
    U16(f, off + 2) + 0x1_0000 * U16(f, off)
  }

  /** The EtherType behind an optional VLAN tag, and where the payload starts. */
  function EtherPayload(f: seq<byte>): (nat, nat)
    requires |f| >= 14
  {
    if U16(f, 12) == ETHERTYPE_VLAN && |f| >= 18 then (U16(f, 16), 18) else (U16(f, 12), 14)
  }

  /** Where the walk starts; at no protocol, for a frame without the headers. */
  function FirstStop(f: seq<byte>): Stop {
    if |f| < 14 then Stop(NO_PROTO, 0)
    else
      var (ty, off) := EtherPayload(f);
      if ty == ETHERTYPE_IPV6 && |f| >= off + 40 then Stop(f[off + 6], off + 40)
      else if ty == ETHERTYPE_IPV4 && |f| >= off + 20 then Stop(f[off + 9], off + f[off] as int % 16 * 4)
      else Stop(NO_PROTO, off)
  }

  /** How many bytes at off are looked at for a header of the protocol. */
  function Needs(f: seq<byte>, h: Stop): nat {
    if IsExtension(h.proto) then 2
    else if h.proto == TCP then 12
    else if h.proto == UDP then 4
    else if h.proto == ICMPV6 then if h.off < |f| && (f[h.off] == 128 || f[h.off] == 129) then 1 else 2
    else if h.proto == ICMP then if h.off < |f| && (f[h.off] == 0 || f[h.off] == 8) then 1 else 2
    else 0
  }

  /** Those bytes are in the frame. */
  predicate Readable(f: seq<byte>, h: Stop) {
    Needs(f, h) == 0 || h.off + Needs(f, h) <= |f|
  }

  /** What the dump says of the last header: type, or type and code; ports and
      numbers. */
  datatype Said =
    | Nothing
    | Type(ty: byte)
    | TypeCode(ty: byte, code: byte)
    | Ports(src: nat, dst: nat)
    | Segment(src: nat, dst: nat, number: nat, ack: nat)

  function SaidOf(f: seq<byte>, h: Stop): Said
    requires Readable(f, h)
  {
    if h.proto == TCP then Segment(U16(f, h.off), U16(f, h.off + 2), U32(f, h.off + 4), U32(f, h.off + 8))
    else if h.proto == UDP then Ports(U16(f, h.off), U16(f, h.off + 2))
    else if h.proto == ICMPV6 then
      if f[h.off] == 128 || f[h.off] == 129 then Type(f[h.off]) else TypeCode(f[h.off], f[h.off + 1])
    else if h.proto == ICMP then
      if f[h.off] == 0 || f[h.off] == 8 then Type(f[h.off]) else TypeCode(f[h.off], f[h.off + 1])
    else Nothing
  }

  /** How a dump ends: at the last header, after so many rounds of the loop and
      with something said; or beyond the end of the frame, which it does not check
      for. */
  datatype Walk = Finished(last: Stop, rounds: nat, said: Said) | Outside(last: Stop)

  /** How the walk along a chain ends. */
  function Walked(f: seq<byte>, chain: seq<Stop>): Walk
    requires |chain| > 0
  {
    var last := chain[|chain| - 1];
    if Readable(f, last) then Finished(last, if last.proto == NO_PROTO then |chain| - 1 else |chain|, SaidOf(f, last))
    else Outside(last)
  }

  /** The chain the dump goes along. */
  function DumpChain(f: seq<byte>, how: Reading): (r: seq<Stop>)
    ensures |r| > 0
  {
    Chain(f, FirstStop(f).proto, FirstStop(f).off, how)
  }

  /** The loop over the headers, up to a read outside the frame. */
  method WalkHeaders(f: seq<byte>, proto: byte, off: nat) returns (r: Walk)
    ensures r == Walked(f, Chain(f, proto, off, Dump))
  {
    hide Chain;
    ghost var chain := Chain(f, proto, off, Dump);
    var uProto, pHdr, rounds, said := proto, off, 0, Nothing;
    var last := Stop(uProto, pHdr);
    ChainStep(f, uProto, pHdr, Dump);
    while uProto != NO_PROTO
      invariant 0 <= rounds <= |chain|
      invariant uProto != NO_PROTO ==>
                  rounds < |chain| && said == Nothing && last == Stop(uProto, pHdr) && chain[rounds..] == Chain(f, uProto, pHdr, Dump)
      invariant uProto == NO_PROTO ==> Walked(f, chain) == Finished(last, rounds, said)
      decreases |f| - pHdr, if uProto == NO_PROTO then 0 else 1
    {
      ChainStep(f, uProto, pHdr, Dump);
      if !Readable(f, last) {
        assert chain[rounds..] == [last];
        return Outside(last);
      }
      if uProto == HOP_BY_HOP || uProto == DESTINATION || uProto == ROUTING || uProto == FRAGMENT {
        uProto, pHdr := f[pHdr], pHdr + (f[pHdr + 1] as int) * 8 + 8;
        last := Stop(uProto, pHdr);
        assert chain[rounds + 1..] == chain[rounds..][1..] == Chain(f, uProto, pHdr, Dump);
      } else if uProto == AUTHENTICATION {
        uProto, pHdr := f[pHdr], pHdr + (f[pHdr + 1] as int + 2) * 4;
        last := Stop(uProto, pHdr);
        assert chain[rounds + 1..] == chain[rounds..][1..] == Chain(f, uProto, pHdr, Dump);
      } else {
        assert chain[rounds..] == [last];
        said := SayUpper(f, uProto, pHdr);
        uProto := NO_PROTO;
      }
      rounds := rounds + 1;
      ChainStep(f, uProto, pHdr, Dump);
    }
    return Finished(last, rounds, said);
  }

  /** What the loop prints of a header that is no extension. */
  method SayUpper(f: seq<byte>, uProto: byte, pHdr: nat) returns (said: Said)
    requires Readable(f, Stop(uProto, pHdr)) && !IsExtension(uProto)
    ensures said == SaidOf(f, Stop(uProto, pHdr))
  {
    if uProto == ICMPV6 {
      var ty := f[pHdr];
      said := if ty == 128 || ty == 129 then Type(ty) else TypeCode(ty, f[pHdr + 1]);
    } else if uProto == ICMP {
      var ty := f[pHdr];
      said := if ty == 0 || ty == 8 then Type(ty) else TypeCode(ty, f[pHdr + 1]);
    } else if uProto == TCP {
      said := Segment(U16(f, pHdr), U16(f, pHdr + 2), U32(f, pHdr + 4), U32(f, pHdr + 8));
    } else if uProto == UDP {
      said := Ports(U16(f, pHdr), U16(f, pHdr + 2));
    } else {
      said := Nothing;
    }
  }

  lemma NeedsOf(f: seq<byte>, h: Stop)
    ensures IsExtension(h.proto) ==> Needs(f, h) == 2
    ensures h.proto == NO_PROTO ==> Needs(f, h) == 0
  {
  }

  /** vboxEthPacketDump, with logging on: where it ends, and whether it reads
      beyond the frame. */
  method EthPacketDump(f: seq<byte>) returns (r: Walk)
    ensures r == Walked(f, DumpChain(f, Dump))
  {
    hide Chain;
    ChainStep(f, FirstStop(f).proto, FirstStop(f).off, Dump);
    if |f| < 14 {
      return Finished(Stop(NO_PROTO, 0), 0, Nothing);
    }
    var uEthType := U16(f, 12);
    var pHdr := 14;
    if uEthType == ETHERTYPE_VLAN {
      if |f| - pHdr < 4 {
        return Finished(Stop(NO_PROTO, pHdr), 0, Nothing);
      }
      uEthType := U16(f, pHdr + 2);
      pHdr := pHdr + 4;
    }
    var uProto := NO_PROTO;
    if uEthType == ETHERTYPE_IPV6 {
      if |f| - pHdr < 40 {
        return Finished(Stop(NO_PROTO, pHdr), 0, Nothing);
      }
      uProto := f[pHdr + 6];
      pHdr := pHdr + 40;
    } else if uEthType == ETHERTYPE_IPV4 {
      if |f| - pHdr < 20 {
        return Finished(Stop(NO_PROTO, pHdr), 0, Nothing);
      }
      uProto := f[pHdr + 9];
      pHdr := pHdr + f[pHdr] as int % 16 * 4;
    }
    r := WalkHeaders(f, uProto, pHdr);
  }

  /** The dump reads inside the frame only exactly when every header it comes to
      is there as far as it looks at it; only for the last can that fail. And it
      goes round once for every eight bytes behind the fixed headers and once
      more, when the extension headers end in the frame. */
  lemma ReadsInside(f: seq<byte>)
    ensures var (chain, first) := (DumpChain(f, Dump), FirstStop(f));
            var w := Walked(f, chain);
            && (w.Finished? <==> forall k :: 0 <= k < |chain| ==> Readable(f, chain[k]))
            && (w.Finished? && w.last.off <= |f| ==> w.rounds <= (|f| - first.off) / 8 + 1)
            && (w.Finished? && w.rounds > 1 ==> 8 * (w.rounds - 2) + 2 <= |f| - first.off)
  {
    hide Chain, Needs, FirstStop;
    var chain := DumpChain(f, Dump);
    ChainParts(f, FirstStop(f).proto, FirstStop(f).off, Dump);
    forall k | 0 <= k < |chain| - 1 ensures Readable(f, chain[k]) {
      NeedsOf(f, chain[k]);
    }
  }

  predicate IsIPv6(f: seq<byte>) {
    |f| >= 14 && var (ty, off) := EtherPayload(f); ty == ETHERTYPE_IPV6 && |f| >= off + 40
  }

  /** For IPv6 frames that is at most (cb - 54) / 8 + 1 rounds. */
  lemma RoundsBound(f: seq<byte>)
    requires IsIPv6(f)
    ensures var w := Walked(f, DumpChain(f, Dump));
            w.Finished? && w.last.off <= |f| ==> w.rounds <= (|f| - 54) / 8 + 1
  {
    hide DumpChain, Walked;
    ReadsInside(f);
    assert FirstStop(f).off >= 54;
  }

  /** A frame whose IPv6 extension headers are an encoded chain with zero
      reserved bytes: the walk ends at the upper layer, where its header is, and
      reads beyond the frame if and only if that header is cut off. */
  lemma DumpFindsUpper(f: seq<byte>, exts: seq<Extension>, upper: byte)
    requires IsIPv6(f) && AllValid(exts) && !IsExtension(upper) && ReservedCleared(exts)
    requires var off := EtherPayload(f).1; f[off + 6] == FirstProto(exts, upper) && EncodedAt(f, off + 40, exts, upper)
    ensures Walked(f, DumpChain(f, Dump)).Finished? ==> Walked(f, DumpChain(f, Dump)).rounds <= (|f| - 54) / 8 + 1
    ensures var end := Stop(upper, EtherPayload(f).1 + 40 + |Encode(exts, upper)|);
            Walked(f, DumpChain(f, Dump)) ==
              if Readable(f, end) then Finished(end, |exts| + (if upper == NO_PROTO then 0 else 1), SaidOf(f, end)) else Outside(end)
  {
    hide Chain, Encode, Places, Needs;
    var off := EtherPayload(f).1 + 40;
    EncodedFound(f, off, exts, upper);
    ChainsAgree(f, FirstProto(exts, upper), off);
    LastPlace(exts, upper, off);
    EncodeLength(exts, upper);
  }

  lemma {:induction false} LastPlace(exts: seq<Extension>, upper: byte, off: nat)
    requires AllValid(exts)
    ensures var places := Places(exts, upper, off);
            |places| == |exts| + 1 && places[|exts|] == Stop(upper, off + |Encode(exts, upper)|)
    decreases |exts|
  {
    hide Encode, AllValid;
    if exts == [] {
      NothingEncoded(upper);
    } else {
      EncodeStep(exts, upper);
      LastPlace(exts[1..], upper, off + 2 + |exts[0].body|);
    }
  }

  // ----- Whole frames -----

  /** An IEEE 802.1Q tag, or none. */
  datatype Tag = Untagged | Tagged(hi: byte, lo: byte)

  /** An Ethernet header: two addresses, the tag, and the type high byte first. */
  function Ethernet(addresses: seq<byte>, tag: Tag, ty: u16): (s: seq<byte>)
    requires |addresses| == 12
    ensures |s| == if tag.Tagged? then 18 else 14
  {
    addresses + (match tag case Untagged => [] case Tagged(hi, lo) => [0x81, 0x00, hi, lo]) + [ty / 0x100, ty % 0x100]
  }

  /** The type of what the header carries is found, and where that starts. */
  lemma PayloadFound(f: seq<byte>, addresses: seq<byte>, tag: Tag, ty: u16)
    requires |addresses| == 12 && Ethernet(addresses, tag, ty) <= f && (tag.Untagged? ==> ty != 0x8100)
    ensures |f| >= 14 && EtherPayload(f) == (ty as nat, if tag.Tagged? then 18 else 14)
  {
    var eth := Ethernet(addresses, tag, ty);
    assert f[12] == eth[12] && f[13] == eth[13];
    if tag.Tagged? {
      assert f[16] == eth[16] && f[17] == eth[17];
    }
  }

  /** A frame with an IPv4 header of n words, 5 to 15, whatever its options: the walk
      starts at its protocol, right behind it; and ends there, if that is none of
      the numbers of IPv6 extension headers. */
  lemma IPv4Found(f: seq<byte>, addresses: seq<byte>, tag: Tag, ip: seq<byte>, n: nat, p: byte)
    requires |addresses| == 12 && Ethernet(addresses, tag, 0x0800) + ip <= f
    requires 5 <= n <= 15 && |ip| == 4 * n && ip[0] == 0x40 + n && ip[9] == p
    ensures var end := Stop(p, (if tag.Tagged? then 18 else 14) + 4 * n);
            && FirstStop(f) == end
            && (!IsExtension(p) ==>
                  Walked(f, DumpChain(f, Dump)) ==
                    if Readable(f, end) then Finished(end, if p == NO_PROTO then 0 else 1, SaidOf(f, end)) else Outside(end))
  {
    hide Chain, Needs, Ethernet, EtherPayload;
    var eth := Ethernet(addresses, tag, 0x0800);
    assert eth <= f by {
      assert eth == (eth + ip)[..|eth|];
    }
    PayloadFound(f, addresses, tag, 0x0800);
    assert f[|eth|] == (eth + ip)[|eth|] == ip[0] && f[|eth| + 9] == (eth + ip)[|eth| + 9] == ip[9];
    ChainStep(f, p, |eth| + 4 * n, Dump);
  }

  /** A frame with anything else, or whose IP header is cut off, is not walked. */
  lemma NotWalked(f: seq<byte>, addresses: seq<byte>, tag: Tag, ty: u16)
    requires |addresses| == 12 && Ethernet(addresses, tag, ty) <= f && (tag.Untagged? ==> ty != 0x8100)
    requires var off := if tag.Tagged? then 18 else 14;
             (ty == 0x0800 ==> |f| < off + 20) && (ty == 0x86DD ==> |f| < off + 40)
    ensures Walked(f, DumpChain(f, Dump)) == Finished(Stop(0xFF, if tag.Tagged? then 18 else 14), 0, Nothing)
  {
    hide Chain, Ethernet, EtherPayload;
    PayloadFound(f, addresses, tag, ty);
    ChainStep(f, NO_PROTO, if tag.Tagged? then 18 else 14, Dump);
  }

  /** A frame with an IPv6 header and an encoded chain with zero reserved bytes: the
      walk ends at the upper layer, right behind the chain. */
  lemma IPv6Found(f: seq<byte>, addresses: seq<byte>, tag: Tag, ip: seq<byte>, exts: seq<Extension>, upper: byte)
    requires AllValid(exts) && !IsExtension(upper) && ReservedCleared(exts)
    requires |addresses| == 12 && |ip| == 40 && Ethernet(addresses, tag, 0x86DD) + ip + Encode(exts, upper) <= f
    requires ip[6] == FirstProto(exts, upper)
    ensures var end := Stop(upper, (if tag.Tagged? then 58 else 54) + |Encode(exts, upper)|);
            Walked(f, DumpChain(f, Dump)) ==
              if Readable(f, end) then Finished(end, |exts| + (if upper == NO_PROTO then 0 else 1), SaidOf(f, end)) else Outside(end)
  {
    hide Chain, Needs, Ethernet, EtherPayload, Encode, Walked;
    var (eth, code) := (Ethernet(addresses, tag, 0x86DD), Encode(exts, upper));
    var all := eth + ip + code;
    assert eth <= f by {
      assert eth == all[..|eth|];
    }
    PayloadFound(f, addresses, tag, 0x86DD);
    assert f[|eth| + 6] == all[|eth| + 6] == ip[6];
    assert f[|eth| + 40..|eth| + 40 + |code|] == all[|eth| + 40..] == code;
    DumpFindsUpper(f, exts, upper);
  }

  /** The first twelve bytes of a TCP header, and the first four of a UDP header,
      all that is said of them: each number high byte first. */
  lemma SegmentSaid(f: seq<byte>, off: nat, src: u16, dst: u16, number: u32, ack: u32)
    requires off + 12 <= |f|
    requires f[off..off + 12] == [src / 0x100, src % 0x100, dst / 0x100, dst % 0x100,
                                  number / 0x100_0000, number / 0x1_0000 % 0x100, number / 0x100 % 0x100, number % 0x100,
                                  ack / 0x100_0000, ack / 0x1_0000 % 0x100, ack / 0x100 % 0x100, ack % 0x100]
    ensures Readable(f, Stop(6, off)) && SaidOf(f, Stop(6, off)) == Segment(src, dst, number, ack)
  {
    hide U32;
    var h := f[off..off + 12];
    assert forall k :: 0 <= k < 12 ==> h[k] == f[off + k];
    U32Of(f, off + 4, number);
    U32Of(f, off + 8, ack);
  }

  lemma U32Of(f: seq<byte>, off: nat, v: u32)
    requires off + 4 <= |f| && f[off] == v / 0x100_0000 && f[off + 1] == v / 0x1_0000 % 0x100
    requires f[off + 2] == v / 0x100 % 0x100 && f[off + 3] == v % 0x100
    ensures U32(f, off) == v
  {
    var (hi, lo) := (v / 0x1_0000, v % 0x1_0000);
    assert U16(f, off) == hi && U16(f, off + 2) == lo by {
      assert v / 0x100_0000 == hi / 0x100 && v / 0x100 % 0x100 == lo / 0x100 && v % 0x100 == lo % 0x100;
    }
  }

  lemma PortsSaid(f: seq<byte>, off: nat, src: u16, dst: u16)
    requires off + 4 <= |f| && f[off..off + 4] == [src / 0x100, src % 0x100, dst / 0x100, dst % 0x100]
    ensures Readable(f, Stop(17, off)) && SaidOf(f, Stop(17, off)) == Ports(src, dst)
  {
    var h := f[off..off + 4];
    assert forall k :: 0 <= k < 4 ==> h[k] == f[off + k];
  }

  /** Of ICMP echoes only the type is looked at, of other messages the code too. */
  lemma MessageSaid(f: seq<byte>, off: nat)
    requires off < |f|
    ensures var h := Stop(1, off);
            if f[off] == 0 || f[off] == 8 then Readable(f, h) && SaidOf(f, h) == Type(f[off])
            else (Readable(f, h) <==> off + 2 <= |f|) && (Readable(f, h) ==> SaidOf(f, h) == TypeCode(f[off], f[off + 1]))
    ensures var h := Stop(58, off);
            if f[off] == 128 || f[off] == 129 then Readable(f, h) && SaidOf(f, h) == Type(f[off])
            else (Readable(f, h) <==> off + 2 <= |f|) && (Readable(f, h) ==> SaidOf(f, h) == TypeCode(f[off], f[off + 1]))
  {
  }

  // ----- Frames that lead it astray -----

  /** n bytes of a frame: IPv6, a fragment header whose reserved byte holds
      reserved, a TCP header. */
  function FragmentFrame(n: nat, reserved: byte): (f: seq<byte>)
    ensures |f| == n
  {
    seq(n, i => if i == 12 then 0x86 else if i == 13 then 0xDD else if i == 20 then FRAGMENT
                else if i == 54 then TCP else if i == 55 then reserved else 0)
  }

  lemma FragmentChain(n: nat, reserved: byte, how: Reading)
    requires n >= 62
    ensures DumpChain(FragmentFrame(n, reserved), how) == [Stop(FRAGMENT, 54), Stop(TCP, 54 + how.Size(FRAGMENT, reserved))]
  {
    hide Chain;
    var f := FragmentFrame(n, reserved);
    assert U16(f, 12) == ETHERTYPE_IPV6;
    assert FirstStop(f) == Stop(FRAGMENT, 54);
    ChainStep(f, FRAGMENT, 54, how);
    ChainStep(f, TCP, 54 + how.Size(FRAGMENT, reserved), how);
  }

  /** A sender that did not clear the reserved byte leads the dump astray: it
      takes what is eight bytes further for the TCP header that follows. */
  lemma ReservedAstray()
    ensures var f := FragmentFrame(82, 1);
            && DumpChain(f, Rfc) == [Stop(FRAGMENT, 54), Stop(TCP, 62)]
            && DumpChain(f, Dump) == [Stop(FRAGMENT, 54), Stop(TCP, 70)]
            && var w := Walked(f, DumpChain(f, Dump)); w.Finished? && w.last == Stop(TCP, 70) && w.rounds == 2
  {
    hide DumpChain, FragmentFrame;
    FragmentChain(82, 1, Rfc);
    FragmentChain(82, 1, Dump);
  }

  /** And in a frame with every header whole, the 20 bytes of the TCP header too,
      beyond the end of the frame. */
  lemma ReservedOutside()
    ensures var f := FragmentFrame(82, 2);
            && DumpChain(f, Rfc) == [Stop(FRAGMENT, 54), Stop(TCP, 62)] && 62 + SIZEOF_TCPHDR == |f|
            && Walked(f, DumpChain(f, Dump)) == Outside(Stop(TCP, 78))
  {
    hide DumpChain, FragmentFrame;
    FragmentChain(82, 2, Rfc);
    FragmentChain(82, 2, Dump);
  }
}
