/** Address classification in `backend/core/http_client.py`: membership by netmask, the two network
    tables, and the IPv4-mapped normalisation. */
module Addresses {
  import opened Text
  import opened Bits

  datatype Version = V4 | V6

  function Width(v: Version): nat { if v == V4 then 32 else 128 }

  /** An address as `ipaddress` keeps it: a version and an integer of that many bits. */
  datatype Address = Address(version: Version, ip: nat)

  predicate WellFormed(addr: Address) { addr.ip < Pow2(Width(addr.version)) }

  datatype Cidr = Network(version: Version, base: nat, prefix: nat)

  /** `ip_network` refuses a prefix longer than the address. */
  type Network = n: Cidr | n.prefix <= Width(n.version) witness Network(V4, 0, 0)

  /** … and host bits in the base. */
  predicate Proper(net: Network) { net.base % Pow2(Width(net.version) - net.prefix) == 0 }

  /** `addr in net`: the versions agree, and the masked address is the base. */
  predicate Contains(net: Network, addr: Address)
  {
    net.version == addr.version && And(addr.ip, Netmask(Width(net.version), net.prefix)) == net.base
  }

  const LOOPBACK4: Network := Network(V4, 0x7F00_0000, 8)
  const PRIVATE10: Network := Network(V4, 0x0A00_0000, 8)
  const PRIVATE172: Network := Network(V4, 0xAC10_0000, 12)
  const PRIVATE192: Network := Network(V4, 0xC0A8_0000, 16)
  const LINK_LOCAL4: Network := Network(V4, 0xA9FE_0000, 16)
  const SHARED_SPACE: Network := Network(V4, 0x6440_0000, 10)
  const MULTICAST4: Network := Network(V4, 0xE000_0000, 4)
  const UNSPECIFIED: Network := Network(V4, 0, 8)
  const LOOPBACK6: Network := Network(V6, 1, 128)
  const UNIQUE_LOCAL: Network := Network(V6, 0xFC00_0000_0000_0000_0000_0000_0000_0000, 7)
  const LINK_LOCAL6: Network := Network(V6, 0xFE80_0000_0000_0000_0000_0000_0000_0000, 10)
  const MULTICAST6: Network := Network(V6, 0xFF00_0000_0000_0000_0000_0000_0000_0000, 8)
  const NAT64: Network := Network(V6, 0x0064_FF9B_0000_0000_0000_0000_0000_0000, 96)

  /** `_BLOCKED_NETWORKS`. */
  const BLOCKED: seq<Network> := [
    LOOPBACK4, PRIVATE10, PRIVATE172, PRIVATE192, LINK_LOCAL4, SHARED_SPACE, MULTICAST4,
    LOOPBACK6, UNIQUE_LOCAL, LINK_LOCAL6, MULTICAST6, NAT64, UNSPECIFIED
  ]

  /** `_SETUP_BLOCKED_NETWORKS`. */
  const SETUP_BLOCKED: seq<Network> := [
    LOOPBACK4, LINK_LOCAL4, MULTICAST4, UNSPECIFIED, LOOPBACK6, LINK_LOCAL6, MULTICAST6
  ]

  /** `any(addr in net for net in networks)`. */
  predicate AnyContains(networks: seq<Network>, addr: Address)
  {
    exists i :: 0 <= i < |networks| && Contains(networks[i], addr)
  }

  /** All but the low `bits` bits of an address, and those bits. */
  function HighPart(ip: nat, bits: nat): int { ip / Pow2(bits) }

  function LowPart(ip: nat, bits: nat): nat { And(ip, Pow2(bits) - 1) }

  /** `ipv4_mapped` (section 2.5.5.2 of RFC 4291); IPv4 addresses have none. */
  function Ipv4Mapped(addr: Address): Option<Address>
  {
    if addr.version == V6 && HighPart(addr.ip, 32) == 0xFFFF then Some(Address(V4, LowPart(addr.ip, 32))) else None
  }

  /** `_addr_in_networks`. */
  predicate InNetworks(addr: Address, networks: seq<Network>)
  {
    AnyContains(networks, addr)
    || (Ipv4Mapped(addr).Some? && AnyContains(networks, Ipv4Mapped(addr).value))
  }

  /** `is_private_ip`; `parse` is `ipaddress.ip_address`, and text it refuses is blocked. */
  predicate IsPrivateIp(text: string, parse: string -> Option<Address>)
  {
    parse(text).None? || InNetworks(parse(text).value, BLOCKED)
  }

  /** `is_unsafe_setup_target`. */
  predicate IsUnsafeSetupTarget(text: string, parse: string -> Option<Address>)
  {
    parse(text).None? || InNetworks(parse(text).value, SETUP_BLOCKED)
  }

  // ── masks are intervals ────────────────────────────────────────────────────

  /** For every proper network and address: being in the network is lying in its interval. */
  lemma ContainsIsInterval(net: Network, addr: Address)
    requires Proper(net) && WellFormed(addr)
    ensures Contains(net, addr) <==>
            net.version == addr.version && net.base <= addr.ip < net.base + Pow2(Width(net.version) - net.prefix)
  {
    if net.version == addr.version { MaskIsInterval(Width(net.version), net.prefix, net.base, addr.ip); }
  }

  lemma PowerSum(a: nat, b: nat, x: nat, y: nat)
    requires Pow2(a) == x && Pow2(b) == y
    ensures Pow2(a + b) == x * y
  {
    Pow2Add(a, b);
  }

  /** The powers of two the IPv4 networks need. */
  lemma Powers4()
    ensures Pow2(16) == 0x1_0000 && Pow2(20) == 0x10_0000 && Pow2(22) == 0x40_0000 && Pow2(24) == 0x100_0000
    ensures Pow2(28) == 0x1000_0000 && Pow2(32) == 0x1_0000_0000
  {
    assert Pow2(4) == 16 && Pow2(6) == 64 && Pow2(8) == 256;
    PowerSum(8, 8, 256, 256);
    PowerSum(16, 4, 0x1_0000, 16);
    PowerSum(16, 6, 0x1_0000, 64);
    PowerSum(16, 8, 0x1_0000, 256);
    PowerSum(24, 4, 0x100_0000, 16);
    PowerSum(16, 16, 0x1_0000, 0x1_0000);
  }

  /** The powers of two the IPv6 networks need. */
  lemma Powers6()
    ensures Pow2(0) == 1 && Pow2(32) == 0x1_0000_0000
    ensures Pow2(118) == 0x0040_0000_0000_0000_0000_0000_0000_0000
    ensures Pow2(120) == 0x0100_0000_0000_0000_0000_0000_0000_0000
    ensures Pow2(121) == 0x0200_0000_0000_0000_0000_0000_0000_0000
    ensures Pow2(128) == 0x1_0000_0000_0000_0000_0000_0000_0000_0000
  {
    Powers4();
    PowerSum(32, 32, 0x1_0000_0000, 0x1_0000_0000);
    PowerSum(64, 32, 0x1_0000_0000_0000_0000, 0x1_0000_0000);
    PowerSum(96, 22, 0x1_0000_0000_0000_0000_0000_0000, 0x40_0000);
    PowerSum(96, 24, 0x1_0000_0000_0000_0000_0000_0000, 0x100_0000);
    assert Pow2(1) == 2 && Pow2(8) == 256;
    PowerSum(120, 1, 0x0100_0000_0000_0000_0000_0000_0000_0000, 2);
    PowerSum(120, 8, 0x0100_0000_0000_0000_0000_0000_0000_0000, 256);
  }

  /** The number of addresses of each version. */
  const SPACE4 := 0x1_0000_0000
  const SPACE6 := 0x1_0000_0000_0000_0000_0000_0000_0000_0000

  lemma WellFormedIsInSpace(addr: Address)
    ensures WellFormed(addr) <==> addr.ip < if addr.version == V4 then SPACE4 else SPACE6
  {
    if addr.version == V4 { Powers4(); } else { Powers6(); }
  }

  /** What each IPv4 network means for an IPv4 address. */
  lemma Intervals4(ip: nat)
    requires ip < SPACE4
    ensures Contains(LOOPBACK4, Address(V4, ip)) <==> 0x7F00_0000 <= ip <= 0x7FFF_FFFF
    ensures Contains(PRIVATE10, Address(V4, ip)) <==> 0x0A00_0000 <= ip <= 0x0AFF_FFFF
    ensures Contains(PRIVATE172, Address(V4, ip)) <==> 0xAC10_0000 <= ip <= 0xAC1F_FFFF
    ensures Contains(PRIVATE192, Address(V4, ip)) <==> 0xC0A8_0000 <= ip <= 0xC0A8_FFFF
    ensures Contains(LINK_LOCAL4, Address(V4, ip)) <==> 0xA9FE_0000 <= ip <= 0xA9FE_FFFF
    ensures Contains(SHARED_SPACE, Address(V4, ip)) <==> 0x6440_0000 <= ip <= 0x647F_FFFF
    ensures Contains(MULTICAST4, Address(V4, ip)) <==> 0xE000_0000 <= ip <= 0xEFFF_FFFF
    ensures Contains(UNSPECIFIED, Address(V4, ip)) <==> ip <= 0x00FF_FFFF
  {
    var addr := Address(V4, ip);
    Powers4();
    ContainsIsInterval(LOOPBACK4, addr);
    ContainsIsInterval(PRIVATE10, addr);
    ContainsIsInterval(PRIVATE172, addr);
    ContainsIsInterval(PRIVATE192, addr);
    ContainsIsInterval(LINK_LOCAL4, addr);
    ContainsIsInterval(SHARED_SPACE, addr);
    ContainsIsInterval(MULTICAST4, addr);
    ContainsIsInterval(UNSPECIFIED, addr);
  }

  lemma Loopback6(ip: nat)
    requires ip < SPACE6
    ensures Contains(LOOPBACK6, Address(V6, ip)) <==> ip == 1
  {
    Powers6();
    ContainsIsInterval(LOOPBACK6, Address(V6, ip));
  }

  lemma UniqueLocal6(ip: nat)
    requires ip < SPACE6
    ensures Contains(UNIQUE_LOCAL, Address(V6, ip)) <==>
      0xFC00_0000_0000_0000_0000_0000_0000_0000 <= ip < 0xFE00_0000_0000_0000_0000_0000_0000_0000
  {
    Powers6();
    ContainsIsInterval(UNIQUE_LOCAL, Address(V6, ip));
  }

  lemma LinkLocal6(ip: nat)
    requires ip < SPACE6
    ensures Contains(LINK_LOCAL6, Address(V6, ip)) <==>
      0xFE80_0000_0000_0000_0000_0000_0000_0000 <= ip < 0xFEC0_0000_0000_0000_0000_0000_0000_0000
  {
    Powers6();
    ContainsIsInterval(LINK_LOCAL6, Address(V6, ip));
  }

  lemma Multicast6(ip: nat)
    requires ip < SPACE6
    ensures Contains(MULTICAST6, Address(V6, ip)) <==> 0xFF00_0000_0000_0000_0000_0000_0000_0000 <= ip
  {
    Powers6();
    ContainsIsInterval(MULTICAST6, Address(V6, ip));
  }

  lemma Nat64(ip: nat)
    requires ip < SPACE6
    ensures Contains(NAT64, Address(V6, ip)) <==>
      0x0064_FF9B_0000_0000_0000_0000_0000_0000 <= ip <= 0x0064_FF9B_0000_0000_0000_0000_FFFF_FFFF
  {
    Powers6();
    ContainsIsInterval(NAT64, Address(V6, ip));
  }

  /** What each IPv6 network means for an IPv6 address. */
  lemma Intervals6(ip: nat)
    requires ip < SPACE6
    ensures Contains(LOOPBACK6, Address(V6, ip)) <==> ip == 1
    ensures Contains(UNIQUE_LOCAL, Address(V6, ip)) <==>
      0xFC00_0000_0000_0000_0000_0000_0000_0000 <= ip < 0xFE00_0000_0000_0000_0000_0000_0000_0000
    ensures Contains(LINK_LOCAL6, Address(V6, ip)) <==>
      0xFE80_0000_0000_0000_0000_0000_0000_0000 <= ip < 0xFEC0_0000_0000_0000_0000_0000_0000_0000
    ensures Contains(MULTICAST6, Address(V6, ip)) <==> 0xFF00_0000_0000_0000_0000_0000_0000_0000 <= ip
    ensures Contains(NAT64, Address(V6, ip)) <==>
      0x0064_FF9B_0000_0000_0000_0000_0000_0000 <= ip <= 0x0064_FF9B_0000_0000_0000_0000_FFFF_FFFF
  {
    Loopback6(ip);
    UniqueLocal6(ip);
    LinkLocal6(ip);
    Multicast6(ip);
    Nat64(ip);
  }

  // ── the tables, network by network ─────────────────────────────────────────

  /** In one of the networks both tables share. */
  predicate InSharedNetwork(addr: Address)
  {
    Contains(LOOPBACK4, addr) || Contains(LINK_LOCAL4, addr) || Contains(MULTICAST4, addr) || Contains(UNSPECIFIED, addr)
    || Contains(LOOPBACK6, addr) || Contains(LINK_LOCAL6, addr) || Contains(MULTICAST6, addr)
  }

  /** In one of the networks only the webhook table has: the three ranges of section 3 of RFC 1918,
      the shared space of RFC 6598, unique local addresses (section 3.1 of RFC 4193) and NAT64
      (section 2.1 of RFC 6052). */
  predicate InLanNetwork(addr: Address)
  {
    Contains(PRIVATE10, addr) || Contains(PRIVATE172, addr) || Contains(PRIVATE192, addr) || Contains(SHARED_SPACE, addr)
    || Contains(UNIQUE_LOCAL, addr) || Contains(NAT64, addr)
  }

  /** A search of a table is a disjunction over its entries, whatever is asked of each. */
  lemma SetupTableSearch(p: Network -> bool)
    ensures (exists i :: 0 <= i < |SETUP_BLOCKED| && p(SETUP_BLOCKED[i])) <==>
      p(LOOPBACK4) || p(LINK_LOCAL4) || p(MULTICAST4) || p(UNSPECIFIED) || p(LOOPBACK6) || p(LINK_LOCAL6) || p(MULTICAST6)
  {
    var s := SETUP_BLOCKED;
    assert s[0] == LOOPBACK4 && s[1] == LINK_LOCAL4 && s[2] == MULTICAST4 && s[3] == UNSPECIFIED
        && s[4] == LOOPBACK6 && s[5] == LINK_LOCAL6 && s[6] == MULTICAST6;
  }

  lemma TableSearch(p: Network -> bool)
    ensures (exists i :: 0 <= i < |BLOCKED| && p(BLOCKED[i])) <==>
      p(LOOPBACK4) || p(LINK_LOCAL4) || p(MULTICAST4) || p(UNSPECIFIED) || p(LOOPBACK6) || p(LINK_LOCAL6) || p(MULTICAST6)
      || p(PRIVATE10) || p(PRIVATE172) || p(PRIVATE192) || p(SHARED_SPACE) || p(UNIQUE_LOCAL) || p(NAT64)
  {
    var b := BLOCKED;
    assert b[0] == LOOPBACK4 && b[1] == PRIVATE10 && b[2] == PRIVATE172 && b[3] == PRIVATE192 && b[4] == LINK_LOCAL4
        && b[5] == SHARED_SPACE && b[6] == MULTICAST4 && b[7] == LOOPBACK6 && b[8] == UNIQUE_LOCAL && b[9] == LINK_LOCAL6
        && b[10] == MULTICAST6 && b[11] == NAT64 && b[12] == UNSPECIFIED;
  }

  lemma TablesSplit(addr: Address)
    ensures AnyContains(SETUP_BLOCKED, addr) <==> InSharedNetwork(addr)
    ensures AnyContains(BLOCKED, addr) <==> InSharedNetwork(addr) || InLanNetwork(addr)
  {
    var p: Network -> bool := (n: Network) => Contains(n, addr);
    SetupTableSearch(p);
    TableSearch(p);
  }

  /** The shared networks and the LAN networks as numbers, for each version. */
  predicate SharedNumber4(ip: int)
  {
    0 <= ip <= 0x00FF_FFFF || 0x7F00_0000 <= ip <= 0x7FFF_FFFF || 0xA9FE_0000 <= ip <= 0xA9FE_FFFF || 0xE000_0000 <= ip <= 0xEFFF_FFFF
  }

  predicate LanNumber4(ip: int)
  {
    0x0A00_0000 <= ip <= 0x0AFF_FFFF || 0x6440_0000 <= ip <= 0x647F_FFFF || 0xAC10_0000 <= ip <= 0xAC1F_FFFF || 0xC0A8_0000 <= ip <= 0xC0A8_FFFF
  }

  predicate SharedNumber6(ip: int)
  {
    ip == 1 || 0xFF00_0000_0000_0000_0000_0000_0000_0000 <= ip
    || 0xFE80_0000_0000_0000_0000_0000_0000_0000 <= ip < 0xFEC0_0000_0000_0000_0000_0000_0000_0000
  }

  predicate LanNumber6(ip: int)
  {
    0xFC00_0000_0000_0000_0000_0000_0000_0000 <= ip < 0xFE00_0000_0000_0000_0000_0000_0000_0000
    || 0x0064_FF9B_0000_0000_0000_0000_0000_0000 <= ip <= 0x0064_FF9B_0000_0000_0000_0000_FFFF_FFFF
  }

  lemma Shared4(ip: nat)
    requires ip < SPACE4
    ensures InSharedNetwork(Address(V4, ip)) <==> SharedNumber4(ip)
    ensures InLanNetwork(Address(V4, ip)) <==> LanNumber4(ip)
  {
    Intervals4(ip);
  }

  lemma Shared6(ip: nat)
    requires ip < SPACE6
    ensures InSharedNetwork(Address(V6, ip)) <==> SharedNumber6(ip)
    ensures InLanNetwork(Address(V6, ip)) <==> LanNumber6(ip)
  {
    Intervals6(ip);
  }

  // ── IPv4-mapped addresses ──────────────────────────────────────────────────

  /** `::ffff:a.b.c.d`. */
  function MappedForm(ip: nat): Address { Address(V6, 0xFFFF * Pow2(32) + ip) }

  lemma PartsOf(x: nat, bits: nat, high: nat, low: nat)
    requires low < Pow2(bits) && x == high * Pow2(bits) + low
    ensures HighPart(x, bits) == high && LowPart(x, bits) == low
  {
    AndLowOnes(x, bits);
    DivModUnique(x, Pow2(bits), high, low);
  }

  lemma MappedFormMaps(ip: nat)
    requires ip < SPACE4
    ensures Ipv4Mapped(MappedForm(ip)) == Some(Address(V4, ip))
  {
    Powers4();
    PartsOf(MappedForm(ip).ip, 32, 0xFFFF, ip);
  }

  lemma MappedFormWellFormed(ip: nat)
    requires ip < SPACE4
    ensures WellFormed(MappedForm(ip))
  {
    Powers6();
  }

  lemma MappedRange(ip: nat)
    requires HighPart(ip, 32) == 0xFFFF
    ensures 0xFFFF_0000_0000 <= ip <= 0xFFFF_FFFF_FFFF
  {
    Powers4();
    DivisionEquation(ip, Pow2(32));
  }

  lemma LowPartIsLow(ip: nat, bits: nat)
    ensures LowPart(ip, bits) < Pow2(bits)
  {
    AndLowOnes(ip, bits);
    DivisionEquation(ip, Pow2(bits));
  }

  /** An address with a mapped one is itself in no listed network. */
  lemma MappedOnlyThroughV4(addr: Address)
    requires WellFormed(addr) && Ipv4Mapped(addr).Some?
    ensures !InSharedNetwork(addr) && !InLanNetwork(addr)
    ensures WellFormed(Ipv4Mapped(addr).value) && Ipv4Mapped(addr).value.version == V4
  {
    MappedRange(addr.ip);
    WellFormedIsInSpace(addr);
    Shared6(addr.ip);
    LowPartIsLow(addr.ip, 32);
  }

  /** The verdict of both classifiers is the same on an IPv4 address and on its mapped form. */
  lemma MappedFormSameVerdict(text: string, mappedText: string, parse: string -> Option<Address>, ip: nat)
    requires ip < SPACE4 && parse(text) == Some(Address(V4, ip)) && parse(mappedText) == Some(MappedForm(ip))
    ensures IsPrivateIp(mappedText, parse) <==> IsPrivateIp(text, parse)
    ensures IsUnsafeSetupTarget(mappedText, parse) <==> IsUnsafeSetupTarget(text, parse)
  {
    MappedFormMaps(ip);
    MappedFormWellFormed(ip);
    MappedOnlyThroughV4(MappedForm(ip));
    TablesSplit(MappedForm(ip));
    TablesSplit(Address(V4, ip));
  }

  /** The mapped addresses are those from `::ffff:0.0.0.0` to `::ffff:255.255.255.255`. */
  lemma MappedIff(addr: Address)
    ensures Ipv4Mapped(addr) == if addr.version == V6 && 0xFFFF_0000_0000 <= addr.ip <= 0xFFFF_FFFF_FFFF
                                then Some(Address(V4, addr.ip - 0xFFFF_0000_0000)) else None
  {
    Powers4();
    if 0xFFFF_0000_0000 <= addr.ip <= 0xFFFF_FFFF_FFFF {
      PartsOf(addr.ip, 32, 0xFFFF, addr.ip - 0xFFFF_0000_0000);
    } else if HighPart(addr.ip, 32) == 0xFFFF {
      MappedRange(addr.ip);
    }
  }

  lemma InNetworksSplit(addr: Address)
    ensures InNetworks(addr, SETUP_BLOCKED) <==>
            InSharedNetwork(addr) || (Ipv4Mapped(addr).Some? && InSharedNetwork(Ipv4Mapped(addr).value))
    ensures InNetworks(addr, BLOCKED) <==>
            InSharedNetwork(addr) || InLanNetwork(addr)
            || (Ipv4Mapped(addr).Some? && (InSharedNetwork(Ipv4Mapped(addr).value) || InLanNetwork(Ipv4Mapped(addr).value)))
  {
    TablesSplit(addr);
    if Ipv4Mapped(addr).Some? { TablesSplit(Ipv4Mapped(addr).value); }
  }

  lemma Verdicts4(ip: nat)
    requires ip < SPACE4
    ensures InNetworks(Address(V4, ip), SETUP_BLOCKED) <==> SharedNumber4(ip)
    ensures InNetworks(Address(V4, ip), BLOCKED) <==> SharedNumber4(ip) || LanNumber4(ip)
  {
    InNetworksSplit(Address(V4, ip));
    Shared4(ip);
  }

  lemma InnerVerdict(ip: nat)
    ensures var inner, v4 := ip - 0xFFFF_0000_0000, Ipv4Mapped(Address(V6, ip));
            var mapped := 0 <= inner <= 0xFFFF_FFFF;
            && (v4.Some? && InSharedNetwork(v4.value) <==> mapped && SharedNumber4(inner))
            && (v4.Some? && InLanNetwork(v4.value) <==> mapped && LanNumber4(inner))
  {
    MappedIff(Address(V6, ip));
    if 0xFFFF_0000_0000 <= ip <= 0xFFFF_FFFF_FFFF { Shared4(ip - 0xFFFF_0000_0000); }
  }

  lemma Verdicts6(ip: nat)
    requires ip < SPACE6
    ensures var inner := ip - 0xFFFF_0000_0000;
            var mapped := 0 <= inner <= 0xFFFF_FFFF;
            && (InNetworks(Address(V6, ip), SETUP_BLOCKED) <==> SharedNumber6(ip) || (mapped && SharedNumber4(inner)))
            && (InNetworks(Address(V6, ip), BLOCKED) <==>
                  SharedNumber6(ip) || LanNumber6(ip) || (mapped && (SharedNumber4(inner) || LanNumber4(inner))))
  {
    InNetworksSplit(Address(V6, ip));
    InnerVerdict(ip);
    Shared6(ip);
  }

  /** The verdicts by number: text that is no address is blocked by both classifiers; an address is
      unsafe for the setup wizard in the shared ranges, and private in the LAN ranges too, a mapped
      one where the IPv4 address inside is. */
  lemma VerdictsByNumber(text: string, parse: string -> Option<Address>)
    requires parse(text).Some? ==> WellFormed(parse(text).value)
    ensures parse(text) == None ==> IsUnsafeSetupTarget(text, parse) && IsPrivateIp(text, parse)
    ensures parse(text).Some? && parse(text).value.version == V4 ==>
      var ip := parse(text).value.ip;
      && (IsUnsafeSetupTarget(text, parse) <==> SharedNumber4(ip))
      && (IsPrivateIp(text, parse) <==> SharedNumber4(ip) || LanNumber4(ip))
    ensures parse(text).Some? && parse(text).value.version == V6 ==>
      var ip := parse(text).value.ip;
      var inner := ip - 0xFFFF_0000_0000;
      var mapped := 0 <= inner <= 0xFFFF_FFFF;
      && (IsUnsafeSetupTarget(text, parse) <==> SharedNumber6(ip) || (mapped && SharedNumber4(inner)))
      && (IsPrivateIp(text, parse) <==> SharedNumber6(ip) || LanNumber6(ip) || (mapped && (SharedNumber4(inner) || LanNumber4(inner))))
  {
    if parse(text).Some? {
      var addr := parse(text).value;
      WellFormedIsInSpace(addr);
      if addr.version == V4 { Verdicts4(addr.ip); } else { Verdicts6(addr.ip); }
    }
  }

  // ── the two classifiers compared ───────────────────────────────────────────

  /** Every address unsafe for the setup wizard is private. */
  lemma UnsafeIsPrivate(text: string, parse: string -> Option<Address>)
    requires IsUnsafeSetupTarget(text, parse)
    ensures IsPrivateIp(text, parse)
  {
    if parse(text).Some? {
      var addr := parse(text).value;
      TablesSplit(addr);
      if Ipv4Mapped(addr).Some? { TablesSplit(Ipv4Mapped(addr).value); }
    }
  }

  lemma LanIsNotShared(addr: Address)
    requires WellFormed(addr) && InLanNetwork(addr)
    ensures !InSharedNetwork(addr) && Ipv4Mapped(addr).None?
  {
    WellFormedIsInSpace(addr);
    if addr.version == V4 {
      Shared4(addr.ip);
    } else {
      Shared6(addr.ip);
      if Ipv4Mapped(addr).Some? { MappedOnlyThroughV4(addr); }
    }
  }

  /** The classifiers differ exactly on the LAN ranges and the mapped forms of the IPv4 ones. */
  lemma ClassifiersDifferExactlyOnLan(text: string, parse: string -> Option<Address>)
    requires parse(text).Some? ==> WellFormed(parse(text).value)
    ensures IsPrivateIp(text, parse) != IsUnsafeSetupTarget(text, parse) <==>
            parse(text).Some? && var addr := parse(text).value;
            InLanNetwork(addr) || (Ipv4Mapped(addr).Some? && InLanNetwork(Ipv4Mapped(addr).value))
  {
    if parse(text).Some? {
      var addr := parse(text).value;
      TablesSplit(addr);
      if InLanNetwork(addr) { LanIsNotShared(addr); }
      if Ipv4Mapped(addr).Some? {
        MappedOnlyThroughV4(addr);
        TablesSplit(Ipv4Mapped(addr).value);
        if InLanNetwork(Ipv4Mapped(addr).value) { LanIsNotShared(Ipv4Mapped(addr).value); }
      }
    }
  }

  // ── what the setup classifier promises ─────────────────────────────────────

  /** Loopback, link-local, multicast or unspecified, by number: for IPv4 section 3.2.1.3 of RFC 1122,
      RFC 3927 and section 4 of RFC 5771, for IPv6 section 2.4 of RFC 4291. */
  predicate NeverLan(addr: Address)
  {
    match addr.version
    case V4 =>
      addr.ip == 0 || 0x7F00_0000 <= addr.ip <= 0x7FFF_FFFF || 0xA9FE_0000 <= addr.ip <= 0xA9FE_FFFF
      || 0xE000_0000 <= addr.ip <= 0xEFFF_FFFF
    case V6 =>
      addr.ip == 0 || addr.ip == 1 || 0xFF00_0000_0000_0000_0000_0000_0000_0000 <= addr.ip
      || 0xFE80_0000_0000_0000_0000_0000_0000_0000 <= addr.ip < 0xFEC0_0000_0000_0000_0000_0000_0000_0000
  }

  lemma NeverLanIsShared(addr: Address)
    requires WellFormed(addr) && NeverLan(addr)
    ensures InSharedNetwork(addr) <==> addr != Address(V6, 0)
    ensures addr.version == V6 && addr.ip == 0 ==> !InLanNetwork(addr) && Ipv4Mapped(addr).None?
  {
    WellFormedIsInSpace(addr);
    if addr.version == V4 {
      Shared4(addr.ip);
    } else {
      Shared6(addr.ip);
      if Ipv4Mapped(addr).Some? { MappedRange(addr.ip); }
    }
  }

  /** The setup classifier's promise holds with one exception: an address of these kinds, itself or
      as the mapped form of one, is unsafe if and only if it is not "::". */
  lemma NeverLanIsUnsafeIff(text: string, parse: string -> Option<Address>)
    requires parse(text).Some? && WellFormed(parse(text).value)
    requires NeverLan(parse(text).value) || (Ipv4Mapped(parse(text).value).Some? && NeverLan(Ipv4Mapped(parse(text).value).value))
    ensures IsUnsafeSetupTarget(text, parse) <==> parse(text).value != Address(V6, 0)
  {
    var addr := parse(text).value;
    TablesSplit(addr);
    if NeverLan(addr) { NeverLanIsShared(addr); }
    if Ipv4Mapped(addr).Some? {
      MappedOnlyThroughV4(addr);
      TablesSplit(Ipv4Mapped(addr).value);
      if NeverLan(Ipv4Mapped(addr).value) { NeverLanIsShared(Ipv4Mapped(addr).value); }
    }
  }

  /** Neither classifier blocks the unspecified IPv6 address. */
  lemma UnspecifiedSixPasses(text: string, parse: string -> Option<Address>)
    requires parse(text) == Some(Address(V6, 0))
    ensures !IsUnsafeSetupTarget(text, parse) && !IsPrivateIp(text, parse)
  {
    Powers6();
    NeverLanIsShared(Address(V6, 0));
    TablesSplit(Address(V6, 0));
  }
}
