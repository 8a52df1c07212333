/**
 Firewall rules and the verdict of the egress classifier over the shared rule table.
 */
module Firewall {
  import opened Bits
  import opened Common
  import opened Addresses
  import opened HeaderChain

  type u16 = x: int | 0 <= x < 0x1_0000

  datatype Protocol = Any | Icmp | Tcp | Udp | Icmpv6 {
    function Code(): byte {
      match this
      case Any => 0
      case Icmp => 1
      case Tcp => 6
      case Udp => 17
      case Icmpv6 => 58
    }
  }

  datatype Action = Deny | Allow

  datatype Rule = Rule(
    protocol: Protocol, portStart: u16, portEnd: u16, action: Action, remoteIp: Ipv6, remotePrefix: byte)

  const TC_ACT_OK := 0
  const TC_ACT_SHOT := 2
  const RULE_SLOTS := 16

  /** What the rules see of a packet. */
  datatype Flow = Flow(src: Ipv6, proto: byte, port: u16)

  /** The outcome of reading a packet's headers. */
  datatype Parsed = NotIpv6 | Malformed | NeighborDiscovery | Traffic(flow: Flow)

  // ---------------------------------------------------------------------------
  // Specification: a rule list decides on flows.

  ghost predicate InNetwork(ip: Ipv6, rule: Rule) {
    Network(ip, Capped(rule.remotePrefix)) == Network(rule.remoteIp, Capped(rule.remotePrefix))
  }

  predicate ProtocolMatches(p: Protocol, proto: byte) {
    p.Any? || p.Code() == proto || ((p.Icmp? || p.Icmpv6?) && (proto == 1 || proto == 58))
  }

  predicate PortMatches(rule: Rule, port: u16) {
    rule.portStart == 0 || rule.portStart <= port <= rule.portEnd
  }

  ghost predicate Matches(rule: Rule, flow: Flow) {
    InNetwork(flow.src, rule) && ProtocolMatches(rule.protocol, flow.proto) && PortMatches(rule, flow.port)
  }

  ghost predicate Permits(rule: Rule, flow: Flow) {
    rule.action.Allow? && Matches(rule, flow)
  }

  /** A list drops a flow when it is non-empty and none of its rules permits it. */
  ghost predicate ListDrops(rules: seq<Rule>, flow: Flow) {
    rules != [] && forall r :: r in rules ==> !Permits(r, flow)
  }

  /** Order and multiplicity play no part, and Deny rules none beyond making the list non-empty. */
  lemma ListDropsIgnoresOrder(rules: seq<Rule>, others: seq<Rule>, flow: Flow)
    requires multiset(rules) == multiset(others)
    ensures ListDrops(rules, flow) <==> ListDrops(others, flow)
  {
    assert forall r :: r in rules <==> r in multiset(rules);
    assert forall r :: r in others <==> r in multiset(others);
    assert |rules| == |multiset(rules)| == |multiset(others)| == |others|;
  }

  /** What a single Allow rule lets through, in numbers: sources of its network, of its protocol, ICMP
      in either version standing for both, and with a port in its range, if it has one. */
  lemma RuleDropsIff(rule: Rule, flow: Flow)
    requires rule.action.Allow?
    ensures ListDrops([rule], flow) <==>
      !(&& (var bits := if rule.remotePrefix <= 128 then rule.remotePrefix else 128;
            BigEndian(flow.src) / Pow2(128 - bits) == BigEndian(rule.remoteIp) / Pow2(128 - bits))
        && (match rule.protocol
            case Any => true
            case Tcp => flow.proto == 6
            case Udp => flow.proto == 17
            case Icmp => flow.proto == 1 || flow.proto == 58
            case Icmpv6 => flow.proto == 1 || flow.proto == 58)
        && (rule.portStart == 0 || (rule.portStart <= flow.port && flow.port <= rule.portEnd)))
  {
    NetworkIsQuotient(flow.src, Capped(rule.remotePrefix));
    NetworkIsQuotient(rule.remoteIp, Capped(rule.remotePrefix));
    assert rule in [rule];
  }

  /** A list drops what each of its rules alone would drop; the empty list drops nothing. */
  lemma ListDropsIff(rules: seq<Rule>, flow: Flow)
    ensures ListDrops(rules, flow) <==> rules != [] && forall r :: r in rules ==> ListDrops([r], flow)
  {
    forall r | r in rules
      ensures ListDrops([r], flow) <==> !Permits(r, flow)
    {
      assert r in [r];
    }
  }

  /** A rule for TCP or UDP ports from any source drops what is of another protocol or out of range. */
  lemma PortRuleDropsIff(protocol: Protocol, a: u16, b: u16, flow: Flow)
    requires (protocol == Tcp || protocol == Udp) && a > 0
    ensures ListDrops([Rule(protocol, a, b, Allow, seq(16, _ => 0), 0)], flow)
       <==> !(flow.proto == (if protocol == Tcp then 6 else 17) && a <= flow.port <= b)
  {
    var rule := Rule(protocol, a, b, Allow, seq(16, _ => 0), 0);
    EmptyPrefix(flow.src, rule.remoteIp);
    assert rule in [rule];
  }

  /** A Deny rule never overrides a matching Allow: next to other rules it changes no verdict. */
  lemma DenyOnlyFills(rules: seq<Rule>, deny: Rule, flow: Flow)
    requires deny.action.Deny?
    ensures rules != [] ==> (ListDrops(rules + [deny], flow) <==> ListDrops(rules, flow))
    ensures ListDrops([deny], flow) && !ListDrops([], flow)
  {
    assert forall r :: r in rules + [deny] <==> r in rules || r == deny;
  }

  /** Rules without a prefix do not see where a flow comes from. */
  lemma AnySourceBlind(rules: seq<Rule>, a: Ipv6, b: Ipv6, proto: byte, port: u16)
    requires forall r :: r in rules ==> r.remotePrefix == 0
    ensures ListDrops(rules, Flow(a, proto, port)) <==> ListDrops(rules, Flow(b, proto, port))
  {
    forall r | r in rules
      ensures Permits(r, Flow(a, proto, port)) <==> Permits(r, Flow(b, proto, port))
    {
      EmptyPrefix(a, r.remoteIp);
      EmptyPrefix(b, r.remoteIp);
    }
  }

  // ---------------------------------------------------------------------------
  // The rule table of one host: slot i of an interface sits under (ifindex << 4) | i.

  type Table = map<u32, Rule>

  /** The interfaces that share ifindex's slots are those with the same low 28 bits. */
  function Block(ifindex: u32): (b: nat)
    ensures b < 0x1000_0000
  {
    ifindex % 0x1000_0000
  }

  /** The key of slot i: keys collide only between interfaces of the same block. */
  function Key(ifindex: u32, i: nat): (k: u32)
    requires i < RULE_SLOTS
  {
    Block(ifindex) * 16 + i
  }

  /** Slots are told apart by block and number: interfaces equal modulo 2^28 share theirs, and
      no two others share any. */
  lemma KeyInjective(ifindex: u32, i: nat, ifindex': u32, i': nat)
    requires i < RULE_SLOTS && i' < RULE_SLOTS
    ensures ShiftedKey(ifindex, i) == ShiftedKey(ifindex', i') <==> ifindex % 0x1000_0000 == ifindex' % 0x1000_0000 && i == i'
  {
    assert Key(ifindex, i) / 16 == Block(ifindex) && Key(ifindex, i) % 16 == i;
    assert Key(ifindex', i') / 16 == Block(ifindex') && Key(ifindex', i') % 16 == i';
  }

  /** `ifindex << 4` on a u32: the top four bits are lost. */
  function ShiftedLeft4(ifindex: u32): (s: u32) {
    (ifindex as int) * 16 % 0x1_0000_0000
  }

  /** The key as the source computes it, `(ifindex << 4) | i`. */
  function ShiftedKey(ifindex: u32, i: nat): (k: u32)
    requires i < RULE_SLOTS
    ensures k == Key(ifindex, i)
  {
    SlotKey(ifindex, i);
    BitOr(ShiftedLeft4(ifindex), i)
  }

  lemma SlotKey(ifindex: u32, i: nat)
    requires i < RULE_SLOTS
    ensures BitOr(ShiftedLeft4(ifindex), i) == Block(ifindex) * 16 + i
  {
    var b := Block(ifindex);
    assert ShiftedLeft4(ifindex) == b * 16;
    assert Pow2(4) == 16 by {
      assert Pow2(2) == 4;
    }
    OrDisjoint(b, 4, i);
  }

  /** The slots of ifindex hold exactly the list rules, in order, from slot 0 on. */
  ghost predicate Holds(table: Table, ifindex: u32, rules: seq<Rule>) {
    && |rules| <= RULE_SLOTS
    && forall i :: 0 <= i < RULE_SLOTS ==>
      && (Key(ifindex, i) in table <==> i < |rules|)
      && (i < |rules| ==> table[Key(ifindex, i)] == rules[i])
  }

  /** The slots of ifindex, whatever they hold, drop the flow. */
  ghost predicate SlotsDrop(table: Table, ifindex: u32, flow: Flow) {
    && (exists i :: 0 <= i < RULE_SLOTS && Key(ifindex, i) in table)
    && (forall i :: 0 <= i < RULE_SLOTS && Key(ifindex, i) in table ==> !Permits(table[Key(ifindex, i)], flow))
  }

  lemma SlotsDropAsList(table: Table, ifindex: u32, rules: seq<Rule>, flow: Flow)
    requires Holds(table, ifindex, rules)
    ensures SlotsDrop(table, ifindex, flow) <==> ListDrops(rules, flow)
  {
    if rules != [] {
      assert Key(ifindex, 0) in table;
    }
    if SlotsDrop(table, ifindex, flow) {
      forall r | r in rules
        ensures !Permits(r, flow)
      {
        var i :| 0 <= i < |rules| && rules[i] == r;
        assert Key(ifindex, i) in table;
      }
    }
  }

  // ---------------------------------------------------------------------------
  // The classifier.

  /** `u16::from_be_bytes`. */
  function FromBeBytes(b: seq<byte>): (v: u16)
    requires |b| == 2
    ensures v == BigEndian(b)
  {
    BigEndianPair(b);
    (b[0] as int) * 256 + b[1]
  }

  lemma BigEndianPair(b: seq<byte>)
    requires |b| == 2
    ensures BigEndian(b) == (b[0] as int) * 256 + b[1]
  {
    assert b[..1][..0] == [];
    assert BigEndian(b[..1]) == b[0];
  }

  /** Bytes that must be readable at the transport header for its destination port. */
  function TransportLen(proto: byte): nat {
    if proto == 6 then 20 else if proto == 17 then 8 else 0
  }

  /** The destination port; protocols without ports count as port 0. */
  function PortAt(pkt: seq<byte>, offset: nat, proto: byte): Option<u16> {
    if TransportLen(proto) == 0 then Some(0)
    else if offset + TransportLen(proto) > |pkt| then None
    else Some(FromBeBytes(pkt[offset + 2..offset + 4]))
  }

  function Parse(pkt: seq<byte>, isIpv6: bool): Parsed {
    if |pkt| < ETH_LEN then Malformed
    else if !isIpv6 then NotIpv6
    else if |pkt| < ETH_LEN + IPV6_LEN then Malformed
    else
      var src: Ipv6 := pkt[ETH_LEN + 8..ETH_LEN + 24];
      match Walk(pkt, pkt[ETH_LEN + 6], ETH_LEN + IPV6_LEN, 8)
      case Failed => Malformed
      case Found(offset, proto) =>
        if proto == 58 && offset < |pkt| && 133 <= pkt[offset] <= 136 then NeighborDiscovery
        else
          match PortAt(pkt, offset, proto)
          case None => Malformed
          case Some(port) => Traffic(Flow(src, proto, port))
  }

  // ---------------------------------------------------------------------------
  // Specification: packets as they are put together.

  /** An Ethernet header, the fixed IPv6 header, a chain of extension headers, and a payload. */
  ghost function Packet(
    eth: seq<byte>, head: seq<byte>, hopLimit: byte, src: Ipv6, dst: Ipv6, hs: Chain, proto: byte, payload: seq<byte>)
    : (pkt: seq<byte>)
    requires hs.Valid()
  {
    FixedPart(eth, head, hs.FirstType(proto), hopLimit, src, dst) + hs.Encode(proto) + payload
  }

  /** Version, class, flow label and payload length are the six bytes of head. */
  ghost function FixedPart(
    eth: seq<byte>, head: seq<byte>, next: byte, hopLimit: byte, src: Ipv6, dst: Ipv6): seq<byte>
  {
    eth + head + [next, hopLimit] + src + dst
  }

  /** What the classifier should make of a payload of that protocol: neighbour discovery is ICMPv6
      (58) of types 133 to 136; ports are those of TCP (6) and UDP (17), of which whole headers, of 20
      and 8 bytes, must be there. */
  function Expected(src: Ipv6, proto: byte, payload: seq<byte>): Parsed {
    if proto == 58 && payload != [] && 133 <= payload[0] <= 136 then NeighborDiscovery
    else if proto == 6 then
      if |payload| < 20 then Malformed else Traffic(Flow(src, 6, PortOf(payload)))
    else if proto == 17 then
      if |payload| < 8 then Malformed else Traffic(Flow(src, 17, PortOf(payload)))
    else Traffic(Flow(src, proto, 0))
  }

  /** The second pair of bytes, in network order. */
  function PortOf(payload: seq<byte>): u16
    requires |payload| >= 4
  {
    (payload[2] as int) * 256 + payload[3]
  }

  lemma FixedFields(eth: seq<byte>, head: seq<byte>, next: byte, hopLimit: byte, src: Ipv6, dst: Ipv6)
    requires |eth| == 14 && |head| == 6
    ensures var fixed := FixedPart(eth, head, next, hopLimit, src, dst);
      |fixed| == ETH_LEN + IPV6_LEN && fixed[ETH_LEN + 6] == next && fixed[ETH_LEN + 8..ETH_LEN + 24] == src
  {
  }

  lemma ThreeParts(a: seq<byte>, b: seq<byte>, c: seq<byte>)
    ensures var s := a + b + c;
      s[..|a|] == a && s[|a|..|a| + |b|] == b && s[|a| + |b|..] == c
  {
  }

  lemma PacketParts(
    eth: seq<byte>, head: seq<byte>, hopLimit: byte, src: Ipv6, dst: Ipv6, hs: Chain, proto: byte, payload: seq<byte>)
    requires |eth| == 14 && |head| == 6 && hs.Valid()
    ensures var pkt, end := Packet(eth, head, hopLimit, src, dst, hs, proto, payload),
                            ETH_LEN + IPV6_LEN + |hs.Encode(proto)|;
      && |pkt| == end + |payload| && pkt[end..] == payload
      && pkt[ETH_LEN + 6] == hs.FirstType(proto) && pkt[ETH_LEN + 8..ETH_LEN + 24] == src
      && FoundAt(pkt, ETH_LEN + IPV6_LEN, hs.Encode(proto))
  {
    hide FixedPart, Chain.Encode;
    var fixed := FixedPart(eth, head, hs.FirstType(proto), hopLimit, src, dst);
    var pkt := Packet(eth, head, hopLimit, src, dst, hs, proto, payload);
    FixedFields(eth, head, hs.FirstType(proto), hopLimit, src, dst);
    ThreeParts(fixed, hs.Encode(proto), payload);
    assert pkt[..|fixed|][ETH_LEN + 6] == pkt[ETH_LEN + 6];
    assert pkt[..|fixed|][ETH_LEN + 8..ETH_LEN + 24] == pkt[ETH_LEN + 8..ETH_LEN + 24];
  }

  /** The transport header is that of the payload. */
  lemma PayloadFields(pkt: seq<byte>, end: nat, proto: byte)
    requires end <= |pkt|
    ensures var payload := pkt[end..];
      && (end < |pkt| <==> payload != []) && (end < |pkt| ==> pkt[end] == payload[0])
      && PortAt(pkt, end, proto) ==
           if |payload| < TransportLen(proto) then None
           else Some(if TransportLen(proto) > 0 then PortOf(payload) else 0)
  {
    if TransportLen(proto) > 0 && end + TransportLen(proto) <= |pkt| {
      assert pkt[end + 2..end + 4] == pkt[end..][2..4];
      assert pkt[end..][2..4][0] == pkt[end..][2] && pkt[end..][2..4][1] == pkt[end..][3];
    }
  }

  /** Packets too short for their headers cannot be read; others than IPv6 are not looked into. */
  lemma ParseShort(pkt: seq<byte>, isIpv6: bool)
    ensures |pkt| < 14 ==> Parse(pkt, isIpv6) == Malformed
    ensures |pkt| >= 14 && !isIpv6 ==> Parse(pkt, isIpv6) == NotIpv6
    ensures 14 <= |pkt| < 54 && isIpv6 ==> Parse(pkt, isIpv6) == Malformed
  {
  }

  /** Behind up to seven extension headers the classifier sees source, protocol and port of what
      was put into the packet; behind more of them, nothing. */
  lemma ParseInvertsPacket(
    eth: seq<byte>, head: seq<byte>, hopLimit: byte, src: Ipv6, dst: Ipv6, hs: Chain, proto: byte, payload: seq<byte>)
    requires |eth| == 14 && |head| == 6 && hs.Valid() && !IsExtension(proto)
    ensures Parse(Packet(eth, head, hopLimit, src, dst, hs, proto, payload), true) ==
      if hs.Length() < 8 then Expected(src, proto, payload) else Malformed
  {
    hide Packet, Walk, FoundAt, PortAt, FromBeBytes, IsExtension, Chain.Encode;
    PacketParts(eth, head, hopLimit, src, dst, hs, proto, payload);
    var pkt := Packet(eth, head, hopLimit, src, dst, hs, proto, payload);
    WalkInvertsEncoding(pkt, ETH_LEN + IPV6_LEN, hs, proto, 8);
    PayloadFields(pkt, ETH_LEN + IPV6_LEN + |hs.Encode(proto)|, proto);
  }

  /** A packet whose last extension header runs past its end still reaches the rules, with the
      protocol that header names and without a port, unless that is TCP or UDP. */
  lemma ParseOverrun(pkt: seq<byte>, end: nat, proto: byte, hs: Chain, kind: byte)
    requires |pkt| >= ETH_LEN + IPV6_LEN && hs.Length() < 7
    requires ReadsBeyond(pkt, pkt[ETH_LEN + 6], ETH_LEN + IPV6_LEN, end, proto, hs, kind)
    ensures Parse(pkt, true) ==
      if proto == 6 || proto == 17 then Malformed
      else Traffic(Flow(pkt[ETH_LEN + 8..ETH_LEN + 24], proto, 0))
  {
    hide Walk;
    OverrunWalked(pkt, pkt[ETH_LEN + 6], ETH_LEN + IPV6_LEN, 8, end, proto, hs, kind);
  }

  /** Such a packet: 56 bytes, whose destination options announce protocol 59 behind 2048 bytes of
      options, of which two are there. */
  lemma OverrunPacketParsed(eth: seq<byte>, head: seq<byte>, hopLimit: byte, src: Ipv6, dst: Ipv6)
    requires |eth| == 14 && |head| == 6
    ensures var pkt := FixedPart(eth, head, DESTINATION, hopLimit, src, dst) + [59, 255];
      |pkt| == 56 && Parse(pkt, true) == Traffic(Flow(src, 59, 0))
  {
    var fixed := FixedPart(eth, head, DESTINATION, hopLimit, src, dst);
    var pkt := fixed + [59, 255];
    FixedFields(eth, head, DESTINATION, hopLimit, src, dst);
    assert pkt[..54] == fixed && pkt[ETH_LEN + 6] == fixed[ETH_LEN + 6];
    assert pkt[ETH_LEN + 8..ETH_LEN + 24] == fixed[ETH_LEN + 8..ETH_LEN + 24];
    assert pkt[54..54] == [];
    assert ReadsBeyond(pkt, DESTINATION, 54, 54 + 2048, 59, End, DESTINATION);
    ParseOverrun(pkt, 54 + 2048, 59, End, DESTINATION);
  }

  /** `try_mikrom_egress`; isIpv6 is the outcome of its EtherType comparison. */
  method TryEgress(pkt: seq<byte>, isIpv6: bool, ifindex: u32, table: Table) returns (r: Result<int>)
    ensures match Parse(pkt, isIpv6)
      case Malformed => r == Err
      case NotIpv6 => r == Ok(0)
      case NeighborDiscovery => r == Ok(0)
      case Traffic(flow) => r == Ok(if SlotsDrop(table, ifindex, flow) then 2 else 0)
  {
    var eth := Load(pkt, 0, ETH_LEN);
    if eth.None? {
      return Err;
    }
    if !isIpv6 {
      return Ok(TC_ACT_OK);
    }
    var ip := Load(pkt, ETH_LEN, IPV6_LEN);
    if ip.None? {
      return Err;
    }
    var src: Ipv6 := ip.value[8..24];
    assert src == pkt[ETH_LEN..ETH_LEN + IPV6_LEN][8..24] == pkt[ETH_LEN + 8..ETH_LEN + 24];
    var walked := TransportOffset(pkt, ip.value[6]);
    if walked.Failed? {
      return Err;
    }
    var Found(offset, proto) := walked;

    if proto == 58 {
      var icmp := Load(pkt, offset, 1);
      if icmp.Some? && 133 <= icmp.value[0] <= 136 {
        return Ok(TC_ACT_OK);
      }
    }

    var port := DestinationPort(pkt, offset, proto);
    if port.None? {
      return Err;
    }
    var flow := Flow(src, proto, port.value);
    assert Parse(pkt, isIpv6) == Traffic(flow);
    var shot := RunRules(table, ifindex, flow);
    r := Ok(if shot then TC_ACT_SHOT else TC_ACT_OK);
  }

  /** A packet is shot if it cannot be read, or if it is traffic that the slots drop. */
  ghost predicate Shot(pkt: seq<byte>, isIpv6: bool, ifindex: u32, table: Table) {
    match Parse(pkt, isIpv6)
    case Malformed => true
    case NotIpv6 => false
    case NeighborDiscovery => false
    case Traffic(flow) => SlotsDrop(table, ifindex, flow)
  }

  /** `mikrom_egress` after counting: a packet it cannot read is shot. */
  method Egress(pkt: seq<byte>, isIpv6: bool, ifindex: u32, table: Table) returns (action: int)
    ensures action == if Shot(pkt, isIpv6, ifindex, table) then 2 else 0
  {
    var r := TryEgress(pkt, isIpv6, ifindex, table);
    action := if r.Ok? then r.value else TC_ACT_SHOT;
  }

  method DestinationPort(pkt: seq<byte>, offset: nat, proto: byte) returns (port: Option<u16>)
    ensures port == PortAt(pkt, offset, proto)
  {
    if proto == 6 {
      var tcp := Load(pkt, offset, 20);
      if tcp.None? {
        return None;
      }
      assert pkt[offset..offset + 20][2..4] == pkt[offset + 2..offset + 4];
      port := Some(FromBeBytes(tcp.value[2..4]));
    } else if proto == 17 {
      var udp := Load(pkt, offset, 8);
      if udp.None? {
        return None;
      }
      assert pkt[offset..offset + 8][2..4] == pkt[offset + 2..offset + 4];
      port := Some(FromBeBytes(udp.value[2..4]));
    } else {
      port := Some(0);
    }
  }

  /** The rule loop on a table that does not change meanwhile. */
  method RunRules(table: Table, ifindex: u32, flow: Flow) returns (shot: bool)
    ensures shot <==> SlotsDrop(table, ifindex, flow)
  {
    shot := RunRulesOver(seq(RULE_SLOTS, _ => table), ifindex, flow);
  }

  /** What is seen by reading each slot from the table as it is then drops the flow. */
  ghost predicate SeenDrop(tables: seq<Table>, ifindex: u32, flow: Flow)
    requires |tables| == RULE_SLOTS
  {
    && (exists i :: 0 <= i < RULE_SLOTS && Key(ifindex, i) in tables[i])
    && (forall i :: 0 <= i < RULE_SLOTS && Key(ifindex, i) in tables[i] ==> !Permits(tables[i][Key(ifindex, i)], flow))
  }

  /** The rule loop: slots in order, up to the first Allow that matches. Slot i is looked up in the
      table as it is then. */
  method RunRulesOver(tables: seq<Table>, ifindex: u32, flow: Flow) returns (shot: bool)
    requires |tables| == RULE_SLOTS
    ensures shot <==> SeenDrop(tables, ifindex, flow)
  {
    var hasRules, allowed := false, false;
    for i := 0 to RULE_SLOTS
      invariant !allowed
      invariant hasRules <==> exists j :: 0 <= j < i && Key(ifindex, j) in tables[j]
      invariant forall j :: 0 <= j < i && Key(ifindex, j) in tables[j] ==> !Permits(tables[j][Key(ifindex, j)], flow)
    {
      var key, table := ShiftedKey(ifindex, i), tables[i];
      if key in table {
        var rule := table[key];
        hasRules := true;
        var inNetwork := MatchPrefix(flow.src, rule.remoteIp, rule.remotePrefix);
        if !inNetwork {
          continue;
        }
        if rule.protocol != Any && rule.protocol.Code() != flow.proto {
          var isIcmpMatch := (rule.protocol == Icmp || rule.protocol == Icmpv6) && (flow.proto == 1 || flow.proto == 58);
          if !isIcmpMatch {
            continue;
          }
        }
        if rule.portStart != 0 && (flow.port < rule.portStart || flow.port > rule.portEnd) {
          continue;
        }
        if rule.action == Allow {
          allowed := true;
          assert Permits(table[Key(ifindex, i)], flow);
          break;
        }
      }
    }
    shot := hasRules && !allowed;
  }
}
