/**
 VPC prefixes, VM addresses and host routes, and the isolation they give together with the
 firewall. The hash is a parameter: a digest is any 32 bytes.
 */
module SixPn {
  import opened Bits
  import opened Addresses
  import opened Firewall
  import opened HeaderChain
  import opened RuleTable

  type Digest = s: seq<byte> | |s| == 32 witness seq(32, _ => 0)

  /** The 32-bit VPC id carried by a user's digest, and the 24-bit VM id carried by a job's. */
  function VpcId(user: Digest): seq<byte> { user[..4] }
  function VmId(job: Digest): seq<byte> { job[..3] }

  function VpcPrefix(user: Digest): Ipv6 {
    [0xfd] + user[..4] + seq(11, _ => 0)
  }

  function VmAddress(vpc: Ipv6, job: Digest): Ipv6 {
    vpc[..5] + job[..3] + vpc[8..15] + [1]
  }

  function RouteOf(address: Ipv6): Ipv6 {
    address[..8] + seq(8, _ => 0)
  }

  method GenerateVpcPrefix(user: Digest) returns (prefix: Ipv6)
    ensures prefix == VpcPrefix(user)
  {
    var octets := new byte[16](_ => 0);
    octets[0] := 0xfd;
    octets[1] := user[0];
    octets[2] := user[1];
    octets[3] := user[2];
    octets[4] := user[3];
    prefix := octets[..];
  }

  method AllocateVmIpv6(vpc: Ipv6, job: Digest) returns (address: Ipv6)
    ensures address == VmAddress(vpc, job)
  {
    var octets := new byte[16](i requires 0 <= i < 16 => vpc[i]);
    octets[5] := job[0];
    octets[6] := job[1];
    octets[7] := job[2];
    octets[15] := 1;
    address := octets[..];
  }

  /** The /64 that `setup_routing` routes to the bridge: the low four 16-bit segments zeroed. */
  method RoutePrefix(address: Ipv6) returns (route: Ipv6)
    ensures route == RouteOf(address)
  {
    var segments := new u16[8](i requires 0 <= i < 8 => Segment(address, i));
    segments[4] := 0;
    segments[5] := 0;
    segments[6] := 0;
    segments[7] := 0;
    OctetsOfSegment(address, 0);
    OctetsOfSegment(address, 1);
    OctetsOfSegment(address, 2);
    OctetsOfSegment(address, 3);
    route := Octets(segments[0]) + Octets(segments[1]) + Octets(segments[2]) + Octets(segments[3])
           + Octets(segments[4]) + Octets(segments[5]) + Octets(segments[6]) + Octets(segments[7]);
  }

  function Segment(address: Ipv6, i: nat): u16
    requires i < 8
  {
    (address[2 * i] as int) * 256 + address[2 * i + 1]
  }

  lemma OctetsOfSegment(address: Ipv6, i: nat)
    requires i < 8
    ensures Octets(Segment(address, i)) == [address[2 * i], address[2 * i + 1]]
  {
  }

  /** The two octets of a 16-bit segment, in network order. */
  function Octets(segment: u16): (o: seq<byte>)
    ensures |o| == 2
  {
    [segment / 256, segment % 256]
  }

  // ---------------------------------------------------------------------------

  lemma VmAddressShape(user: Digest, job: Digest)
    ensures var a := VmAddress(VpcPrefix(user), job);
      && a[..5] == VpcPrefix(user)[..5] == [0xfd] + VpcId(user)
      && a[..8] == [0xfd] + VpcId(user) + VmId(job)
  {
  }

  /** The octets of prefixes, addresses and routes: fd, four octets of the user's digest, three of the
      job's; and in the low half nothing but the 1 of an address. */
  lemma OctetsPlaced(user: Digest, job: Digest)
    ensures var prefix, address := VpcPrefix(user), VmAddress(VpcPrefix(user), job);
      && prefix[0] == address[0] == RouteOf(address)[0] == 0xfd
      && (forall i :: 0 <= i < 4 ==> prefix[1 + i] == address[1 + i] == RouteOf(address)[1 + i] == user[i])
      && (forall i :: 0 <= i < 3 ==> prefix[5 + i] == 0 && address[5 + i] == RouteOf(address)[5 + i] == job[i])
      && BigEndian(prefix[8..]) == 0 && BigEndian(address[8..]) == 1 && BigEndian(RouteOf(address)[8..]) == 0
  {
    var prefix, address := VpcPrefix(user), VmAddress(VpcPrefix(user), job);
    LowHalf(prefix[8..]);
    LowHalf(address[8..]);
    LowHalf(RouteOf(address)[8..]);
  }

  /** Seven zeros and a last octet. */
  lemma LowHalf(s: seq<byte>)
    requires |s| == 8 && forall i :: 0 <= i < 7 ==> s[i] == 0
    ensures BigEndian(s) == s[7]
  {
    AllZero(s[..7]);
  }

  lemma {:induction false} AllZero(s: seq<byte>)
    requires forall i :: 0 <= i < |s| ==> s[i] == 0
    ensures BigEndian(s) == 0
  {
    if s != [] {
      AllZero(s[..|s| - 1]);
    }
  }

  /** A /40 of one VPC contains the address of a VM exactly when the VM's VPC has the same id. */
  lemma VpcPrefixIsolates(owner: Digest, user: Digest, job: Digest)
    ensures Network(VmAddress(VpcPrefix(user), job), 40) == Network(VpcPrefix(owner), 40)
       <==> VpcId(user) == VpcId(owner)
  {
    var a, p := VmAddress(VpcPrefix(user), job), VpcPrefix(owner);
    VmAddressShape(user, job);
    NetworkBytewise(a, p, 5, 0);
    LowByteShifted(a[5], p[5], 0);
    assert p[..5] == [0xfd] + VpcId(owner);
    assert ([0xfd] + VpcId(user))[1..] == VpcId(user) && ([0xfd] + VpcId(owner))[1..] == VpcId(owner);
  }

  /** Every address lies in the /64 routed for it. */
  lemma AddressInRoute(address: Ipv6)
    ensures Network(address, 64) == Network(RouteOf(address), 64)
  {
    NetworkBytewise(address, RouteOf(address), 8, 0);
    LowByteShifted(address[8], RouteOf(address)[8], 0);
    assert RouteOf(address)[..8] == address[..8];
  }

  /** Two VMs share a routed /64 exactly when both their VPC ids and their VM ids coincide. */
  lemma SharedRoute(user: Digest, job: Digest, user': Digest, job': Digest)
    ensures RouteOf(VmAddress(VpcPrefix(user), job)) == RouteOf(VmAddress(VpcPrefix(user'), job'))
       <==> VpcId(user) == VpcId(user') && VmId(job) == VmId(job')
    ensures Network(VmAddress(VpcPrefix(user), job), 64) == Network(RouteOf(VmAddress(VpcPrefix(user'), job')), 64)
       <==> VpcId(user) == VpcId(user') && VmId(job) == VmId(job')
  {
    var a, b := VmAddress(VpcPrefix(user), job), VmAddress(VpcPrefix(user'), job');
    VmAddressShape(user, job);
    VmAddressShape(user', job');
    var x, y := a[..8], b[..8];
    assert x[1..5] == VpcId(user) && x[5..8] == VmId(job);
    assert y[1..5] == VpcId(user') && y[5..8] == VmId(job');
    assert RouteOf(a)[..8] == x && RouteOf(b)[..8] == y;
    NetworkBytewise(a, RouteOf(b), 8, 0);
    LowByteShifted(a[8], RouteOf(b)[8], 0);
  }

  // ---------------------------------------------------------------------------
  // Isolation by the firewall.

  /** The list lets through exactly what comes from VMs of the owner's VPC. */
  ghost predicate Isolates(rules: seq<Rule>, owner: Digest) {
    forall user: Digest, job: Digest, proto: byte, port: u16 ::
      ListDrops(rules, Flow(VmAddress(VpcPrefix(user), job), proto, port)) <==> VpcId(user) != VpcId(owner)
  }

  /** An Allow rule for everything from the owner's /40. */
  ghost predicate IsVpcRule(rule: Rule, owner: Digest) {
    && rule.action.Allow? && rule.protocol.Any? && rule.portStart == 0
    && rule.remotePrefix == 40 && Network(rule.remoteIp, 40) == Network(VpcPrefix(owner), 40)
  }

  lemma VpcRuleIsolates(rule: Rule, owner: Digest)
    requires IsVpcRule(rule, owner)
    ensures Isolates([rule], owner)
  {
    forall user: Digest, job: Digest, proto: byte, port: u16
      ensures ListDrops([rule], Flow(VmAddress(VpcPrefix(user), job), proto, port)) <==> VpcId(user) != VpcId(owner)
    {
      VpcPrefixIsolates(owner, user, job);
      SingleRule(rule, Flow(VmAddress(VpcPrefix(user), job), proto, port));
    }
  }

  lemma SingleRule(rule: Rule, flow: Flow)
    ensures ListDrops([rule], flow) <==> !Permits(rule, flow)
  {
    assert rule in [rule];
  }

  /** Another VPC whose prefix differs from the owner's in the last of its bits alone. */
  function Neighbour(owner: Digest): Digest {
    owner[3 := if owner[3] % 2 == 0 then owner[3] + 1 else owner[3] - 1]
  }

  /** Prefixes shorter than 40 bits cannot tell an owner from its neighbour. */
  lemma NeighbourShares(owner: Digest, job: Digest, p: nat)
    requires p < 40
    ensures VpcId(Neighbour(owner)) != VpcId(owner)
    ensures Network(VmAddress(VpcPrefix(Neighbour(owner)), job), p) == Network(VmAddress(VpcPrefix(owner), job), p)
  {
    var a, b := VmAddress(VpcPrefix(Neighbour(owner)), job), VmAddress(VpcPrefix(owner), job);
    assert VpcId(Neighbour(owner))[3] != VpcId(owner)[3];
    NetworkBytewise(a, b, 4, 7);
    assert a[..4] == b[..4];
    assert Shr(a[4], 1) == a[4] / 2 && Shr(b[4], 1) == b[4] / 2;
    ShorterPrefix(a, b, p, 39);
  }

  function FirstJob(): Digest { seq(32, _ => 0) }
  function OtherJob(): Digest { FirstJob()[0 := 128] }

  /** Prefixes longer than 40 bits tell apart two VMs of one VPC. */
  lemma JobsDiffer(owner: Digest, p: nat)
    requires 40 < p <= 128
    ensures Network(VmAddress(VpcPrefix(owner), FirstJob()), p) != Network(VmAddress(VpcPrefix(owner), OtherJob()), p)
  {
    var a, b := VmAddress(VpcPrefix(owner), FirstJob()), VmAddress(VpcPrefix(owner), OtherJob());
    NetworkBytewise(a, b, 5, 1);
    ShrIsDivision(0, 7);
    ShrIsDivision(128, 7);
    assert Pow2(4) == 16 && Pow2(7) == 128;
    ShorterPrefix(a, b, 41, p);
  }

  lemma IsolatesAt(rule: Rule, owner: Digest, user: Digest, job: Digest, proto: byte, port: u16)
    requires Isolates([rule], owner)
    ensures Permits(rule, Flow(VmAddress(VpcPrefix(user), job), proto, port)) <==> VpcId(user) == VpcId(owner)
  {
    SingleRule(rule, Flow(VmAddress(VpcPrefix(user), job), proto, port));
    assert ListDrops([rule], Flow(VmAddress(VpcPrefix(user), job), proto, port)) <==> VpcId(user) != VpcId(owner);
  }

  lemma IsolatingIsVpcRule(rule: Rule, owner: Digest)
    requires Isolates([rule], owner)
    ensures IsVpcRule(rule, owner)
  {
    hide Isolates, VmAddress, VpcPrefix, VpcId, Network, FirstJob, OtherJob, Neighbour;
    IsolatesAt(rule, owner, owner, FirstJob(), 2, 0);
    IsolatesAt(rule, owner, owner, OtherJob(), 2, 0);
    IsolatesAt(rule, owner, Neighbour(owner), FirstJob(), 2, 0);
    var p := Capped(rule.remotePrefix);
    if p < 40 {
      NeighbourShares(owner, FirstJob(), p);
    } else if p > 40 {
      JobsDiffer(owner, p);
    }
    VpcPrefixIsolates(owner, owner, FirstJob());
  }

  /** A single rule isolates a VPC if and only if it is an unrestricted Allow for its /40. */
  lemma SingleRuleIsolatesIff(rule: Rule, owner: Digest)
    ensures Isolates([rule], owner) <==> IsVpcRule(rule, owner)
  {
    if Isolates([rule], owner) {
      IsolatingIsVpcRule(rule, owner);
    }
    if IsVpcRule(rule, owner) {
      VpcRuleIsolates(rule, owner);
    }
  }

  /** Once a VPC's own rule is the only one an interface has, whatever the run that led there, the
      classifier passes a readable packet from a VM, other than neighbour discovery, exactly when
      the VM is of that VPC. */
  lemma VpcIsolation(
    run: seq<Update>, ifindex: u32, rule: Rule, owner: Digest, user: Digest, job: Digest, proto: byte, port: u16)
    requires KeptRules(run, ifindex) == [rule] && IsVpcRule(rule, owner)
    ensures SlotsDrop(After(run), ifindex, Flow(VmAddress(VpcPrefix(user), job), proto, port))
       <==> VpcId(user) != VpcId(owner)
  {
    VerdictAfterRun(run, ifindex, Flow(VmAddress(VpcPrefix(user), job), proto, port));
    VpcPrefixIsolates(owner, user, job);
    SingleRule(rule, Flow(VmAddress(VpcPrefix(user), job), proto, port));
  }

  /** The same for whole packets: a packet with a VM's address behind up to seven extension
      headers is shot exactly when the VM is of another VPC or its payload is cut short. */
  lemma PacketIsolation(
    run: seq<Update>, ifindex: u32, rule: Rule, owner: Digest, user: Digest, job: Digest,
    eth: seq<byte>, head: seq<byte>, hopLimit: byte, dst: Ipv6, hs: Chain, proto: byte, payload: seq<byte>)
    requires KeptRules(run, ifindex) == [rule] && IsVpcRule(rule, owner)
    requires |eth| == 14 && |head| == 6 && hs.Valid() && hs.Length() < 8 && !IsExtension(proto)
    ensures var src := VmAddress(VpcPrefix(user), job);
      Shot(Packet(eth, head, hopLimit, src, dst, hs, proto, payload), true, ifindex, After(run)) <==>
        match Expected(src, proto, payload)
        case Malformed => true
        case Traffic(_) => VpcId(user) != VpcId(owner)
        case _ => false
  {
    hide IsVpcRule, VmAddress;
    var src := VmAddress(VpcPrefix(user), job);
    ParseInvertsPacket(eth, head, hopLimit, src, dst, hs, proto, payload);
    match Expected(src, proto, payload) {
      case Traffic(flow) => VpcIsolation(run, ifindex, rule, owner, user, job, proto, flow.port);
      case _ =>
    }
  }

  // ---------------------------------------------------------------------------
  // The rules the agent installs.

  /** A rule as the agent makes it from a firewall request: no address to match. */
  function InstalledRule(protocol: Protocol, portStart: u16, portEnd: u16, action: Action): Rule {
    Rule(protocol, portStart, portEnd, action, seq(16, _ => 0), 0)
  }

  predicate IsInstalled(rule: Rule) {
    rule == InstalledRule(rule.protocol, rule.portStart, rule.portEnd, rule.action)
  }

  ghost predicate OnlyInstalled(run: seq<Update>) {
    forall u, r :: u in run && r in u.rules ==> IsInstalled(r)
  }

  /** After any run of updates with such rules, packets that differ in their source alone are
      treated alike: the firewall as it is used isolates no VPC from another. */
  lemma InstalledRulesDoNotIsolate(
    run: seq<Update>, ifindex: u32, a: Ipv6, b: Ipv6,
    eth: seq<byte>, head: seq<byte>, hopLimit: byte, dst: Ipv6, hs: Chain, proto: byte, payload: seq<byte>)
    requires OnlyInstalled(run)
    requires |eth| == 14 && |head| == 6 && hs.Valid() && !IsExtension(proto)
    ensures Shot(Packet(eth, head, hopLimit, a, dst, hs, proto, payload), true, ifindex, After(run))
       <==> Shot(Packet(eth, head, hopLimit, b, dst, hs, proto, payload), true, ifindex, After(run))
  {
    hide Packet;
    ParseInvertsPacket(eth, head, hopLimit, a, dst, hs, proto, payload);
    ParseInvertsPacket(eth, head, hopLimit, b, dst, hs, proto, payload);
    if Expected(a, proto, payload).Traffic? {
      var port := Expected(a, proto, payload).flow.port;
      VerdictAfterRun(run, ifindex, Flow(a, proto, port));
      VerdictAfterRun(run, ifindex, Flow(b, proto, port));
      KeptAreInstalled(run, ifindex);
      AnySourceBlind(KeptRules(run, ifindex), a, b, proto, port);
    }
  }

  lemma KeptAreInstalled(run: seq<Update>, ifindex: u32)
    requires OnlyInstalled(run)
    ensures forall r :: r in KeptRules(run, ifindex) ==> r.remotePrefix == 0
  {
    forall r | r in KeptRules(run, ifindex)
      ensures r.remotePrefix == 0
    {
      KeptAmongGiven(run, ifindex, r);
      var u :| u in run && r in u.rules;
      assert IsInstalled(r);
    }
  }

  /** In particular such rules isolate no owner, however many there are. */
  lemma InstalledNeverIsolate(rules: seq<Rule>, owner: Digest)
    requires forall r :: r in rules ==> IsInstalled(r)
    ensures !Isolates(rules, owner)
  {
    var job := FirstJob();
    var a, b := VmAddress(VpcPrefix(owner), job), VmAddress(VpcPrefix(Neighbour(owner)), job);
    NeighbourShares(owner, job, 0);
    AnySourceBlind(rules, a, b, 2, 0);
    assert Flow(a, 2, 0) == Flow(VmAddress(VpcPrefix(owner), job), 2, 0);
    assert Flow(b, 2, 0) == Flow(VmAddress(VpcPrefix(Neighbour(owner)), job), 2, 0);
  }
}
