/**
 * Decoding of the Destination service's protobuf messages into socket
 * addresses and endpoint metadata (`pb_to_sock_addr`, `pb_to_addr_meta`).
 */
module DestinationProto {
  import opened Wrappers
  import opened IndexMaps
  import opened LabelMerge

  // ----- protobuf messages (api::net and api::destination) -----

  datatype Ip = Ipv4(addr: bv32) | Ipv6(first: bv64, last: bv64)
  datatype IpAddress = IpAddress(ip: Option<Ip>)
  datatype TcpAddress = TcpAddress(ip: Option<IpAddress>, port: bv32)

  datatype PbProtocol = H2
  datatype PbProtocolHint = PbProtocolHint(protocol: Option<PbProtocol>)
  datatype DnsLikeIdentity = DnsLikeIdentity(name: string)
  datatype TlsIdentity = TlsIdentity(strategy: Option<DnsLikeIdentity>)

  /** An endpoint as the Destination service sends it; `metricLabels` is a protobuf map, listed in its iteration order. */
  datatype WeightedAddr = WeightedAddr(
    addr: Option<TcpAddress>,
    weight: bv32,
    metricLabels: seq<Label>,
    tlsIdentity: Option<TlsIdentity>,
    protocolHint: Option<PbProtocolHint>)

  // ----- the proxy's own values -----

  datatype IpAddr = V4(octets: seq<bv8>) | V6(octets: seq<bv8>)
  datatype SockAddr = SockAddr(ip: IpAddr, port: bv16)
  datatype ProtocolHint = Unknown | Http2

  /** Endpoint metadata: labels in an insertion-ordered map, protocol hint, TLS identity, weight. */
  datatype Metadata = Metadata(labels: seq<Label>, protocolHint: ProtocolHint, tlsId: Option<string>, weight: bv32)

  /** Rust's `as u8` on a `u64`: keeps the low 8 bits. */
  function AsU8(x: bv64): bv8 {
    (x & 0xFF) as bv8
  }

  /** Rust's `as u16` on a `u32`: keeps the low 16 bits. */
  function AsU16(x: bv32): bv16 {
    (x & 0xFFFF) as bv16
  }

  /** The truncated port keeps exactly the low 16 bits of the protobuf port. */
  lemma AsU16Low(x: bv32)
    ensures AsU16(x) as bv32 == x & 0xFFFF
  {
  }

  /** The big-endian value of four octets. */
  function FromBe32(b: seq<bv8>): bv32
    requires |b| == 4
  {
    (b[0] as bv32 << 24) | (b[1] as bv32 << 16) | (b[2] as bv32 << 8) | b[3] as bv32
  }

  /** The big-endian value of eight octets. */
  function FromBe64(b: seq<bv8>): bv64
    requires |b| == 8
  {
    (b[0] as bv64 << 56) | (b[1] as bv64 << 48) | (b[2] as bv64 << 40) | (b[3] as bv64 << 32)
    | (b[4] as bv64 << 24) | (b[5] as bv64 << 16) | (b[6] as bv64 << 8) | b[7] as bv64
  }

  /** `Ipv4Addr::from(u32)`: the four octets of the address, most significant first. */
  function Ipv4Octets(x: bv32): seq<bv8> {
    [((x >> 24) & 0xFF) as bv8, ((x >> 16) & 0xFF) as bv8, ((x >> 8) & 0xFF) as bv8, (x & 0xFF) as bv8]
  }

  /** The sixteen octets `pb_to_sock_addr` builds from the two halves of an IPv6 address. */
  function Ipv6Octets(first: bv64, last: bv64): seq<bv8> {
    [AsU8(first >> 56), AsU8(first >> 48), AsU8(first >> 40), AsU8(first >> 32),
     AsU8(first >> 24), AsU8(first >> 16), AsU8(first >> 8), AsU8(first),
     AsU8(last >> 56), AsU8(last >> 48), AsU8(last >> 40), AsU8(last >> 32),
     AsU8(last >> 24), AsU8(last >> 16), AsU8(last >> 8), AsU8(last)]
  }

  /** The IPv4 octets read back, most significant first, give the protobuf's integer. */
  lemma Ipv4RoundTrip(x: bv32)
    ensures |Ipv4Octets(x)| == 4 && FromBe32(Ipv4Octets(x)) == x
  {
  }

  lemma HalfRoundTrip(x: bv64, b: seq<bv8>)
    requires b == [AsU8(x >> 56), AsU8(x >> 48), AsU8(x >> 40), AsU8(x >> 32),
                   AsU8(x >> 24), AsU8(x >> 16), AsU8(x >> 8), AsU8(x)]
    ensures FromBe64(b) == x
  {
  }

  /** The first eight IPv6 octets read back give `first`, the last eight give `last`. */
  lemma Ipv6RoundTrip(first: bv64, last: bv64)
    ensures |Ipv6Octets(first, last)| == 16
    ensures FromBe64(Ipv6Octets(first, last)[..8]) == first
    ensures FromBe64(Ipv6Octets(first, last)[8..]) == last
  {
    var o := Ipv6Octets(first, last);
    HalfRoundTrip(first, o[..8]);
    HalfRoundTrip(last, o[8..]);
  }

  /**
   * `pb_to_sock_addr`: absent only when the address or its inner IP is
   * absent; the octets are the big-endian bytes of the protobuf integers
   * and the port is the low 16 bits of the protobuf's 32-bit port.
   */
  function PbToSockAddr(pb: TcpAddress): (r: Option<SockAddr>)
    ensures r.None? <==> pb.ip.None? || pb.ip.value.ip.None?
    ensures r.Some? ==> r.value.port == AsU16(pb.port)
    ensures r.Some? && pb.ip.value.ip.value.Ipv4? ==>
      r.value.ip.V4? && |r.value.ip.octets| == 4 && FromBe32(r.value.ip.octets) == pb.ip.value.ip.value.addr
    ensures r.Some? && pb.ip.value.ip.value.Ipv6? ==>
      r.value.ip.V6? && |r.value.ip.octets| == 16
      && FromBe64(r.value.ip.octets[..8]) == pb.ip.value.ip.value.first
      && FromBe64(r.value.ip.octets[8..]) == pb.ip.value.ip.value.last
  {
    match pb.ip
    case Some(ip) =>
      (match ip.ip
       case Some(Ipv4(octets)) =>
         Ipv4RoundTrip(octets);
         Some(SockAddr(V4(Ipv4Octets(octets)), AsU16(pb.port)))
       case Some(Ipv6(first, last)) =>
         Ipv6RoundTrip(first, last);
         Some(SockAddr(V6(Ipv6Octets(first, last)), AsU16(pb.port)))
       case None => None)
    case None => None
  }

  /**
   * `pb_to_id`: a DNS-like identity whose name `identity::Name::from_hostname`
   * accepts (`isValidName`, which is not part of this model); otherwise none.
   */
  function PbToId(pb: TlsIdentity, isValidName: string -> bool): (r: Option<string>)
    ensures r.Some? <==> pb.strategy.Some? && isValidName(pb.strategy.value.name)
    ensures r.Some? ==> r.value == pb.strategy.value.name
  {
    match pb.strategy
    case None => None
    case Some(DnsLikeIdentity(name)) => if isValidName(name) then Some(name) else None
  }

  /** The protocol hint: `Http2` exactly when the hint names a protocol (H2 is the only one). */
  function HintOf(pb: Option<PbProtocolHint>): ProtocolHint {
    if pb.Some? && pb.value.protocol.Some? then Http2 else Unknown
  }

  /** What `pb_to_addr_meta` returns, as a specification. */
  function AddrMeta(pb: WeightedAddr, setLabels: seq<Label>, isValidName: string -> bool): Option<(SockAddr, Metadata)> {
    if pb.addr.None? then None
    else
      match PbToSockAddr(pb.addr.value)
      case None => None
      case Some(addr) =>
        var tlsId := if pb.tlsIdentity.Some? then PbToId(pb.tlsIdentity.value, isValidName) else None;
        Some((addr, Metadata(MergedLabels(setLabels, pb.metricLabels), HintOf(pb.protocolHint), tlsId, pb.weight)))
  }

  /**
   * `pb_to_addr_meta`: none exactly when the address is missing or cannot be
   * decoded; otherwise the labels hold every set label and address label,
   * keys strictly ascending, and an address label wins over a set label
   * with the same key.
   */
  method PbToAddrMeta(pb: WeightedAddr, setLabels: seq<Label>, isValidName: string -> bool)
    returns (r: Option<(SockAddr, Metadata)>)
    ensures r == AddrMeta(pb, setLabels, isValidName)
    ensures r.None? <==> pb.addr.None? || PbToSockAddr(pb.addr.value).None?
    ensures r.Some? ==> r.value.0 == PbToSockAddr(pb.addr.value).value && r.value.1.weight == pb.weight
    ensures r.Some? ==> Ascending(r.value.1.labels)
    ensures r.Some? ==> ToMap(r.value.1.labels) == ToMap(setLabels) + ToMap(pb.metricLabels)
    ensures r.Some? ==>
      (r.value.1.protocolHint == Http2 <==> pb.protocolHint.Some? && pb.protocolHint.value.protocol.Some?)
    ensures r.Some? ==>
      (r.value.1.tlsId.Some? <==>
         pb.tlsIdentity.Some? && pb.tlsIdentity.value.strategy.Some? &&
         isValidName(pb.tlsIdentity.value.strategy.value.name))
  {
    if pb.addr.None? {
      return None;
    }
    var addr := PbToSockAddr(pb.addr.value);
    if addr.None? {
      return None;
    }
    var t := SortByKey(setLabels + pb.metricLabels);
    var m: seq<Label> := [];
    var i := 0;
    while i < |t|
      invariant 0 <= i <= |t|
      invariant m == Collect(t[..i])
    {
      assert t[..i + 1][..i] == t[..i];
      m := Insert(m, t[i].0, t[i].1);
      i := i + 1;
    }
    assert t[..i] == t;
    MergedLabelsSpec(setLabels, pb.metricLabels);
    var hint := HintOf(pb.protocolHint);
    var tlsId := if pb.tlsIdentity.Some? then PbToId(pb.tlsIdentity.value, isValidName) else None;
    r := Some((addr.value, Metadata(m, hint, tlsId, pb.weight)));
  }

  /**
   * Two protobuf label maps that hold the same pairs give the same merged
   * labels, whatever order their hash maps iterate in.
   */
  lemma MergedLabelsIgnoreIterationOrder(set1: seq<Label>, addr1: seq<Label>, set2: seq<Label>, addr2: seq<Label>)
    requires ToMap(set1) == ToMap(set2) && ToMap(addr1) == ToMap(addr2)
    ensures MergedLabels(set1, addr1) == MergedLabels(set2, addr2)
  {
    MergedLabelsSpec(set1, addr1);
    MergedLabelsSpec(set2, addr2);
    AscendingDetermined(MergedLabels(set1, addr1), MergedLabels(set2, addr2));
  }
}
