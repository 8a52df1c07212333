/**
 Per-interface byte counters. Each CPU runs the classifier's lookup-then-insert on its own slot
 of a shared, bounded per-CPU map; user space adds the slots up. CPUs interleave freely between
 a lookup that misses and the insert that follows it. Counters wrap at 64 bits.
 */
module TrafficStats {
  import opened Bits
  import opened Common

  const MAX_INTERFACES := 1024
  const TWO_64 := 0x1_0000_0000_0000_0000

  type u64 = x: int | 0 <= x < TWO_64

  datatype Stats = Stats(tx: u64, rx: u64)

  /** What the interface receives has been transmitted by the VM behind it, and the other way around. */
  datatype Hook = Ingress | Egress

  datatype Packet = Packet(ifindex: u32, len: u32, hook: Hook) {
    predicate IsTx() { hook.Ingress? }
  }

  const NO_TRAFFIC := Stats(0, 0)

  /** The map, and for each CPU the packet it has looked up and not found, if any.
      The packets counted so far and those lost to a full map are recorded on the side. */
  datatype State = State(
    slots: map<u32, seq<Stats>>, pending: seq<Option<Packet>>, counted: seq<Packet>, lost: seq<Packet>)

  datatype Event = Lookup(cpu: nat, packet: Packet) | Insert(cpu: nat)

  function Add(s: Stats, p: Packet): Stats {
    if p.IsTx() then s.(tx := (s.tx + p.len) % TWO_64) else s.(rx := (s.rx + p.len) % TWO_64)
  }

  function Initial(p: Packet): Stats {
    if p.IsTx() then Stats(p.len, 0) else Stats(0, p.len)
  }

  /** A CPU is busy with one packet at a time: it inserts exactly after a lookup that missed. */
  predicate Enabled(s: State, e: Event) {
    match e
    case Lookup(cpu, _) => cpu < |s.pending| && s.pending[cpu].None?
    case Insert(cpu) => cpu < |s.pending| && s.pending[cpu].Some?
  }

  predicate Shaped(s: State) {
    forall k :: k in s.slots ==> |s.slots[k]| == |s.pending|
  }

  function Step(s: State, e: Event): State
    requires Shaped(s) && Enabled(s, e)
  {
    match e
    case Lookup(cpu, p) =>
      if p.ifindex in s.slots then
        var cpuSlots := s.slots[p.ifindex];
        s.(slots := s.slots[p.ifindex := cpuSlots[cpu := Add(cpuSlots[cpu], p)]], counted := s.counted + [p])
      else s.(pending := s.pending[cpu := Some(p)])
    case Insert(cpu) =>
      var p := s.pending[cpu].value;
      var idle := s.pending[cpu := None];
      if p.ifindex in s.slots then
        s.(slots := s.slots[p.ifindex := s.slots[p.ifindex][cpu := Initial(p)]],
           pending := idle, counted := s.counted + [p])
      else if |s.slots| < MAX_INTERFACES then
        s.(slots := s.slots[p.ifindex := seq(|s.pending|, _ => NO_TRAFFIC)[cpu := Initial(p)]],
           pending := idle, counted := s.counted + [p])
      else s.(pending := idle, lost := s.lost + [p])
  }

  function Start(cpus: nat): State {
    State(map[], seq(cpus, _ => None), [], [])
  }

  /** The state after a trace, if every event was enabled when it happened. */
  function Exec(cpus: nat, trace: seq<Event>): Option<State> {
    if trace == [] then Some(Start(cpus))
    else
      var n := |trace| - 1;
      match Exec(cpus, trace[..n])
      case None => None
      case Some(s) => if Shaped(s) && Enabled(s, trace[n]) then Some(Step(s, trace[n])) else None
  }

  function Arrived(trace: seq<Event>): seq<Packet> {
    if trace == [] then []
    else
      var n := |trace| - 1;
      Arrived(trace[..n]) + (if trace[n].Lookup? then [trace[n].packet] else [])
  }

  /** Bytes of one interface and direction. */
  function Counts(p: Packet, ifindex: u32, isTx: bool): u32 {
    if p.ifindex == ifindex && p.IsTx() == isTx then p.len else 0
  }

  /** Transmitted bytes are those of the interface's ingress, received ones those of its egress. */
  lemma CountsByHook(p: Packet, ifindex: u32)
    ensures Counts(p, ifindex, true) == if p.ifindex == ifindex && p.hook == Ingress then p.len else 0
    ensures Counts(p, ifindex, false) == if p.ifindex == ifindex && p.hook == Egress then p.len else 0
  {
  }

  function Bytes(ps: seq<Packet>, ifindex: u32, isTx: bool): nat {
    if ps == [] then 0 else Bytes(ps[..|ps| - 1], ifindex, isTx) + Counts(ps[|ps| - 1], ifindex, isTx)
  }

  function PendingBytes(ps: seq<Option<Packet>>, ifindex: u32, isTx: bool): nat {
    if ps == [] then 0
    else
      var last := ps[|ps| - 1];
      PendingBytes(ps[..|ps| - 1], ifindex, isTx) + (if last.Some? then Counts(last.value, ifindex, isTx) else 0)
  }

  function Side(s: Stats, isTx: bool): u64 {
    if isTx then s.tx else s.rx
  }

  function Total(slots: seq<Stats>, isTx: bool): nat {
    if slots == [] then 0 else Total(slots[..|slots| - 1], isTx) + Side(slots[|slots| - 1], isTx)
  }

  lemma WrapStep(total: nat, v: nat)
    ensures (total % TWO_64 + v) % TWO_64 == (total + v) % TWO_64
  {
  }

  lemma TotalNext(slots: seq<Stats>, i: nat, isTx: bool)
    requires i < |slots|
    ensures Total(slots[..i + 1], isTx) == Total(slots[..i], isTx) + Side(slots[i], isTx)
  {
    assert slots[..i + 1][..i] == slots[..i];
  }

  /** `get_stats`: the slots of all CPUs added up. */
  method GetStats(s: State, ifindex: u32) returns (r: Option<Stats>)
    ensures r.Some? <==> ifindex in s.slots
    ensures r.Some? ==> r.value.tx == Total(s.slots[ifindex], true) % 0x1_0000_0000_0000_0000
    ensures r.Some? ==> r.value.rx == Total(s.slots[ifindex], false) % 0x1_0000_0000_0000_0000
  {
    if ifindex !in s.slots {
      return None;
    }
    var cpuStats := s.slots[ifindex];
    var tx, rx: u64 := 0, 0;
    for i := 0 to |cpuStats|
      invariant tx == Total(cpuStats[..i], true) % TWO_64
      invariant rx == Total(cpuStats[..i], false) % TWO_64
    {
      TotalNext(cpuStats, i, true);
      TotalNext(cpuStats, i, false);
      WrapStep(Total(cpuStats[..i], true), cpuStats[i].tx);
      WrapStep(Total(cpuStats[..i], false), cpuStats[i].rx);
      tx := (tx + cpuStats[i].tx) % TWO_64;
      rx := (rx + cpuStats[i].rx) % TWO_64;
    }
    assert cpuStats[..|cpuStats|] == cpuStats;
    r := Some(Stats(tx, rx));
  }

  lemma {:induction false} TotalUpdate(slots: seq<Stats>, i: nat, v: Stats, isTx: bool)
    requires i < |slots|
    ensures Total(slots[i := v], isTx) == Total(slots, isTx) - Side(slots[i], isTx) + Side(v, isTx)
  {
    var n := |slots| - 1;
    if i == n {
      assert slots[i := v][..n] == slots[..n];
    } else {
      TotalUpdate(slots[..n], i, v, isTx);
      assert slots[i := v][..n] == slots[..n][i := v];
    }
  }

  lemma {:induction false} TotalZero(n: nat, isTx: bool)
    ensures Total(seq(n, _ => NO_TRAFFIC), isTx) == 0
  {
    if n > 0 {
      TotalZero(n - 1, isTx);
      assert seq(n, _ => NO_TRAFFIC)[..n - 1] == seq(n - 1, _ => NO_TRAFFIC);
    }
  }

  lemma {:induction false} PendingUpdate(ps: seq<Option<Packet>>, i: nat, v: Option<Packet>, ifindex: u32, isTx: bool)
    requires i < |ps|
    ensures PendingBytes(ps[i := v], ifindex, isTx)
         == PendingBytes(ps, ifindex, isTx)
            - (if ps[i].Some? then Counts(ps[i].value, ifindex, isTx) else 0)
            + (if v.Some? then Counts(v.value, ifindex, isTx) else 0)
  {
    var n := |ps| - 1;
    if i == n {
      assert ps[i := v][..n] == ps[..n];
    } else {
      PendingUpdate(ps[..n], i, v, ifindex, isTx);
      assert ps[i := v][..n] == ps[..n][i := v];
    }
  }

  lemma {:induction false} NothingPending(ps: seq<Option<Packet>>, ifindex: u32, isTx: bool)
    requires forall i :: 0 <= i < |ps| ==> ps[i].None?
    ensures PendingBytes(ps, ifindex, isTx) == 0
  {
    if ps != [] {
      NothingPending(ps[..|ps| - 1], ifindex, isTx);
    }
  }

  lemma BytesAppend(ps: seq<Packet>, p: Packet, ifindex: u32, isTx: bool)
    ensures Bytes(ps + [p], ifindex, isTx) == Bytes(ps, ifindex, isTx) + Counts(p, ifindex, isTx)
  {
    assert (ps + [p])[..|ps|] == ps;
  }

  /** A CPU that has missed finds its own slot still untouched when it inserts. */
  ghost predicate Inv(s: State) {
    && Shaped(s)
    && (forall cpu :: 0 <= cpu < |s.pending| && s.pending[cpu].Some? && s.pending[cpu].value.ifindex in s.slots ==>
         s.slots[s.pending[cpu].value.ifindex][cpu] == NO_TRAFFIC)
  }

  /** The slots of an interface add up to its counted bytes, modulo 2^64. */
  ghost predicate Tallies(s: State, ifindex: u32, isTx: bool) {
    if ifindex in s.slots then AddsUpTo(s.slots[ifindex], s.counted, ifindex, isTx)
    else Bytes(s.counted, ifindex, isTx) == 0
  }

  lemma InvStep(s: State, e: Event)
    requires Inv(s) && Enabled(s, e)
    ensures Inv(Step(s, e)) && |Step(s, e).pending| == |s.pending|
  {
  }

  lemma WrapAround(x: int)
    ensures (x - TWO_64) % TWO_64 == x % TWO_64
  {
  }

  lemma SumCongruent(a: nat, b: nat, n: nat)
    requires a % TWO_64 == b % TWO_64
    ensures (a + n) % TWO_64 == (b + n) % TWO_64
  {
    WrapStep(a, n);
    WrapStep(b, n);
  }

  /** Replacing a summand v by its wrapped sum with n adds n to the total, modulo 2^64. */
  lemma WrappedSummand(total: nat, counted: nat, v: u64, n: u32)
    requires total % TWO_64 == counted % TWO_64 && v <= total
    ensures (total - v + (v + n) % TWO_64) % TWO_64 == (counted + n) % TWO_64
  {
    SumCongruent(total, counted, n);
    if v + n >= TWO_64 {
      assert (v + n) % TWO_64 == v + n - TWO_64;
      WrapAround(total + n);
    } else {
      assert (v + n) % TWO_64 == v + n;
    }
  }

  lemma {:induction false} TotalAtLeast(slots: seq<Stats>, i: nat, isTx: bool)
    requires i < |slots|
    ensures Side(slots[i], isTx) <= Total(slots, isTx)
  {
    if i < |slots| - 1 {
      TotalAtLeast(slots[..|slots| - 1], i, isTx);
    }
  }

  /** The packet an event is about. */
  function PacketOf(s: State, e: Event): Packet
    requires Enabled(s, e)
  {
    if e.Lookup? then e.packet else s.pending[e.cpu].value
  }

  /** The effect on the packet's interface: the CPU adds to its slot, whether it found the
      interface or came back to insert it, or it brings the interface in, or the packet is lost. */
  lemma OwnInterface(s: State, e: Event)
    requires Inv(s) && Enabled(s, e)
    ensures var p, s' := PacketOf(s, e), Step(s, e);
      if p.ifindex in s.slots then
        && p.ifindex in s'.slots
        && s'.slots[p.ifindex] == s.slots[p.ifindex][e.cpu := Add(s.slots[p.ifindex][e.cpu], p)]
        && s'.counted == s.counted + [p]
      else if p.ifindex in s'.slots then
        && s'.slots[p.ifindex] == seq(|s.pending|, _ => NO_TRAFFIC)[e.cpu := Initial(p)]
        && s'.counted == s.counted + [p]
      else
        s'.counted == s.counted
  {
  }

  lemma OtherInterface(s: State, e: Event, ifindex: u32)
    requires Inv(s) && Enabled(s, e) && ifindex != PacketOf(s, e).ifindex
    ensures var p, s' := PacketOf(s, e), Step(s, e);
      && (ifindex in s'.slots <==> ifindex in s.slots)
      && (ifindex in s.slots ==> s'.slots[ifindex] == s.slots[ifindex])
      && (s'.counted == s.counted || s'.counted == s.counted + [p])
  {
  }

  /** The slots of an interface add up to its bytes among the packets, modulo 2^64. */
  ghost predicate AddsUpTo(slots: seq<Stats>, counted: seq<Packet>, ifindex: u32, isTx: bool) {
    Total(slots, isTx) % TWO_64 == Bytes(counted, ifindex, isTx) % TWO_64
  }

  /** What a CPU's slot gains by counting a packet. */
  lemma AddSide(s: Stats, p: Packet, isTx: bool)
    ensures Side(Add(s, p), isTx) == if p.IsTx() == isTx then (Side(s, isTx) + p.len) % TWO_64 else Side(s, isTx)
  {
  }

  lemma TalliesAdd(slots: seq<Stats>, counted: seq<Packet>, cpu: nat, p: Packet, isTx: bool)
    requires cpu < |slots| && AddsUpTo(slots, counted, p.ifindex, isTx)
    ensures AddsUpTo(slots[cpu := Add(slots[cpu], p)], counted + [p], p.ifindex, isTx)
  {
    hide Add, Side, Total, Bytes;
    BytesAppend(counted, p, p.ifindex, isTx);
    TotalUpdate(slots, cpu, Add(slots[cpu], p), isTx);
    AddSide(slots[cpu], p, isTx);
    TotalAtLeast(slots, cpu, isTx);
    WrappedReplaced(
      Total(slots, isTx), Bytes(counted, p.ifindex, isTx), Side(slots[cpu], isTx), Side(Add(slots[cpu], p), isTx),
      Counts(p, p.ifindex, isTx));
  }

  lemma WrappedReplaced(total: nat, counted: nat, v: u64, w: u64, n: u32)
    requires total % TWO_64 == counted % TWO_64 && v <= total && w == (v + n) % TWO_64
    ensures (total - v + w) % TWO_64 == (counted + n) % TWO_64
  {
    WrappedSummand(total, counted, v, n);
  }

  lemma TalliesFirst(cpus: nat, counted: seq<Packet>, cpu: nat, p: Packet, isTx: bool)
    requires cpu < cpus && Bytes(counted, p.ifindex, isTx) == 0
    ensures AddsUpTo(seq(cpus, _ => NO_TRAFFIC)[cpu := Initial(p)], counted + [p], p.ifindex, isTx)
  {
    BytesAppend(counted, p, p.ifindex, isTx);
    TotalZero(cpus, isTx);
    TotalUpdate(seq(cpus, _ => NO_TRAFFIC), cpu, Initial(p), isTx);
  }

  lemma TalliesStep(s: State, e: Event, ifindex: u32, isTx: bool)
    requires Inv(s) && Enabled(s, e) && Tallies(s, ifindex, isTx)
    ensures Tallies(Step(s, e), ifindex, isTx)
  {
    var p := PacketOf(s, e);
    if p.ifindex != ifindex {
      OtherInterface(s, e, ifindex);
      BytesAppend(s.counted, p, ifindex, isTx);
    } else {
      OwnInterface(s, e);
      if ifindex in s.slots {
        TalliesAdd(s.slots[ifindex], s.counted, e.cpu, p, isTx);
      } else {
        TalliesFirst(|s.pending|, s.counted, e.cpu, p, isTx);
      }
    }
  }

  /** Every packet looked up is counted, lost to a full map, or still in flight on its CPU. */
  ghost predicate Accounted(s: State, arrived: seq<Packet>, ifindex: u32, isTx: bool) {
    Bytes(arrived, ifindex, isTx)
    == Bytes(s.counted, ifindex, isTx) + Bytes(s.lost, ifindex, isTx) + PendingBytes(s.pending, ifindex, isTx)
  }

  /** An event moves its packet to exactly one of the three places. */
  lemma PacketMoves(s: State, e: Event) returns (now: Option<Packet>)
    requires Inv(s) && Enabled(s, e)
    ensures var p, s' := PacketOf(s, e), Step(s, e);
      && s'.pending == s.pending[e.cpu := now]
      && (now.Some? ==> now == Some(p) && e.Lookup? && s'.counted == s.counted && s'.lost == s.lost)
      && (now.None? ==>
           || (s'.counted == s.counted + [p] && s'.lost == s.lost)
           || (s'.counted == s.counted && s'.lost == s.lost + [p]))
  {
    now := Step(s, e).pending[e.cpu];
  }

  lemma AccountedStep(s: State, e: Event, arrived: seq<Packet>, ifindex: u32, isTx: bool)
    requires Inv(s) && Enabled(s, e) && Accounted(s, arrived, ifindex, isTx)
    ensures Accounted(Step(s, e), arrived + (if e.Lookup? then [e.packet] else []), ifindex, isTx)
  {
    var p := PacketOf(s, e);
    var now := PacketMoves(s, e);
    PendingUpdate(s.pending, e.cpu, now, ifindex, isTx);
    BytesAppend(s.counted, p, ifindex, isTx);
    BytesAppend(s.lost, p, ifindex, isTx);
    BytesAppend(arrived, p, ifindex, isTx);
    assert arrived + [] == arrived;
  }

  lemma {:induction false} PendingNone(n: nat, ifindex: u32, isTx: bool)
    ensures PendingBytes(seq(n, _ => None), ifindex, isTx) == 0
  {
    NothingPending(seq(n, _ => None), ifindex, isTx);
  }

  /** Under every interleaving the map tallies with what was counted, and nothing is unaccounted for. */
  lemma {:induction false} StatsConserved(cpus: nat, trace: seq<Event>, ifindex: u32, isTx: bool)
    requires Exec(cpus, trace).Some?
    ensures var s := Exec(cpus, trace).value;
      Inv(s) && Tallies(s, ifindex, isTx) && Accounted(s, Arrived(trace), ifindex, isTx)
  {
    if trace == [] {
      PendingNone(cpus, ifindex, isTx);
    } else {
      var n := |trace| - 1;
      StatsConserved(cpus, trace[..n], ifindex, isTx);
      var s := Exec(cpus, trace[..n]).value;
      InvStep(s, trace[n]);
      TalliesStep(s, trace[n], ifindex, isTx);
      AccountedStep(s, trace[n], Arrived(trace[..n]), ifindex, isTx);
    }
  }

  function Interfaces(trace: seq<Event>): set<u32> {
    set p | p in Arrived(trace) :: p.ifindex
  }

  lemma {:induction false} KnownInterfaces(cpus: nat, trace: seq<Event>)
    requires Exec(cpus, trace).Some?
    ensures var s := Exec(cpus, trace).value;
      && s.slots.Keys <= Interfaces(trace)
      && (forall cpu :: 0 <= cpu < |s.pending| && s.pending[cpu].Some? ==> s.pending[cpu].value in Arrived(trace))
  {
    if trace != [] {
      KnownInterfaces(cpus, trace[..|trace| - 1]);
    }
  }

  /** With at most 1024 interfaces no packet is lost. */
  lemma {:induction false} NothingLost(cpus: nat, trace: seq<Event>)
    requires Exec(cpus, trace).Some? && |Interfaces(trace)| <= 1024
    ensures Exec(cpus, trace).value.lost == []
  {
    if trace != [] {
      var n := |trace| - 1;
      var s := Exec(cpus, trace[..n]).value;
      SubsetCard(Interfaces(trace[..n]), Interfaces(trace));
      NothingLost(cpus, trace[..n]);
      KnownInterfaces(cpus, trace[..n]);
      if trace[n].Insert? {
        var p := s.pending[trace[n].cpu].value;
        if p.ifindex !in s.slots {
          assert s.slots.Keys <= Interfaces(trace) - {p.ifindex};
          SubsetCard(s.slots.Keys, Interfaces(trace) - {p.ifindex});
          assert |s.slots| == |s.slots.Keys|;
        }
      }
    }
  }

  /** With 1024 interfaces in the map, a packet of any other is lost. */
  lemma FullMapLoses(s: State, cpu: nat)
    requires Inv(s) && Enabled(s, Insert(cpu)) && |s.slots| >= 1024 && s.pending[cpu].value.ifindex !in s.slots
    ensures Step(s, Insert(cpu)).lost == s.lost + [s.pending[cpu].value]
    ensures Step(s, Insert(cpu)).slots == s.slots
  {
  }

  ghost predicate Quiet(s: State) {
    forall cpu :: 0 <= cpu < |s.pending| ==> s.pending[cpu].None?
  }

  /** So once no CPU is mid-packet, what user space reads is the traffic that arrived. */
  lemma StatsExact(cpus: nat, trace: seq<Event>, ifindex: u32, isTx: bool)
    requires Exec(cpus, trace).Some? && Quiet(Exec(cpus, trace).value)
    requires |Interfaces(trace)| <= 1024
    ensures var s, arrived := Exec(cpus, trace).value, Bytes(Arrived(trace), ifindex, isTx);
      if ifindex in s.slots then AddsUpTo(s.slots[ifindex], Arrived(trace), ifindex, isTx) else arrived == 0
  {
    hide Exec, Arrived, Total, Interfaces, PendingBytes, Inv;
    StatsConserved(cpus, trace, ifindex, isTx);
    NothingLost(cpus, trace);
    NothingPending(Exec(cpus, trace).value.pending, ifindex, isTx);
    assert Bytes([], ifindex, isTx) == 0;
  }

  // ---------------------------------------------------------------------------
  // Reading while counters move: each CPU's slot is copied at its own moment.

  /** The slots add up to the counted bytes, without having wrapped. */
  ghost predicate Exact(s: State, ifindex: u32, isTx: bool) {
    if ifindex in s.slots then Total(s.slots[ifindex], isTx) == Bytes(s.counted, ifindex, isTx)
    else Bytes(s.counted, ifindex, isTx) == 0
  }

  lemma BytesGrow(s: State, e: Event, ifindex: u32, isTx: bool)
    requires Inv(s) && Enabled(s, e)
    ensures Bytes(s.counted, ifindex, isTx) <= Bytes(Step(s, e).counted, ifindex, isTx)
  {
    hide Bytes;
    BytesAppend(s.counted, PacketOf(s, e), ifindex, isTx);
  }

  lemma ExactAdd(slots: seq<Stats>, counted: seq<Packet>, cpu: nat, p: Packet, isTx: bool)
    requires cpu < |slots| && Total(slots, isTx) == Bytes(counted, p.ifindex, isTx)
    requires Bytes(counted + [p], p.ifindex, isTx) < 0x1_0000_0000_0000_0000
    ensures Total(slots[cpu := Add(slots[cpu], p)], isTx) == Bytes(counted + [p], p.ifindex, isTx)
    ensures Side(Add(slots[cpu], p), isTx) >= Side(slots[cpu], isTx)
  {
    hide Add, Side, Total, Bytes;
    BytesAppend(counted, p, p.ifindex, isTx);
    TotalUpdate(slots, cpu, Add(slots[cpu], p), isTx);
    AddSide(slots[cpu], p, isTx);
    TotalAtLeast(slots, cpu, isTx);
  }

  lemma ExactFirst(cpus: nat, counted: seq<Packet>, cpu: nat, p: Packet, isTx: bool)
    requires cpu < cpus && Bytes(counted, p.ifindex, isTx) == 0
    ensures Total(seq(cpus, _ => NO_TRAFFIC)[cpu := Initial(p)], isTx) == Bytes(counted + [p], p.ifindex, isTx)
  {
    BytesAppend(counted, p, p.ifindex, isTx);
    TotalZero(cpus, isTx);
    TotalUpdate(seq(cpus, _ => NO_TRAFFIC), cpu, Initial(p), isTx);
  }

  /** No slot of an interface ever goes down, nor the interface out of the map. */
  ghost predicate Grown(s: State, t: State, ifindex: u32, isTx: bool) {
    ifindex in s.slots ==>
      && ifindex in t.slots && |t.slots[ifindex]| == |s.slots[ifindex]|
      && forall i :: 0 <= i < |s.slots[ifindex]| ==> Side(s.slots[ifindex][i], isTx) <= Side(t.slots[ifindex][i], isTx)
  }

  lemma ExactStep(s: State, e: Event, ifindex: u32, isTx: bool)
    requires Inv(s) && Enabled(s, e) && Exact(s, ifindex, isTx)
    requires Bytes(Step(s, e).counted, ifindex, isTx) < 0x1_0000_0000_0000_0000
    ensures Exact(Step(s, e), ifindex, isTx) && Grown(s, Step(s, e), ifindex, isTx)
  {
    hide Total, Bytes, Add, Initial, Side;
    var p := PacketOf(s, e);
    if p.ifindex != ifindex {
      OtherInterface(s, e, ifindex);
      BytesAppend(s.counted, p, ifindex, isTx);
    } else {
      OwnInterface(s, e);
      if ifindex in s.slots {
        ExactAdd(s.slots[ifindex], s.counted, e.cpu, p, isTx);
      } else {
        ExactFirst(|s.pending|, s.counted, e.cpu, p, isTx);
      }
    }
  }

  lemma {:induction false} ExecPrefix(cpus: nat, trace: seq<Event>, k: nat)
    requires k <= |trace| && Exec(cpus, trace).Some?
    ensures Exec(cpus, trace[..k]).Some?
  {
    hide Step, Enabled;
    if k == |trace| {
      assert trace[..k] == trace;
    } else {
      ExecPrefix(cpus, trace[..|trace| - 1], k);
      assert trace[..|trace| - 1][..k] == trace[..k];
    }
  }

  /** As long as fewer than 2^64 bytes are counted, every moment of a trace is exact, and nothing
      has gone down since any earlier one. */
  lemma {:induction false} ExactAndGrown(cpus: nat, trace: seq<Event>, k: nat, ifindex: u32, isTx: bool)
    requires k <= |trace| && Exec(cpus, trace).Some?
    requires Bytes(Exec(cpus, trace).value.counted, ifindex, isTx) < 0x1_0000_0000_0000_0000
    ensures Exec(cpus, trace[..k]).Some?
    ensures Inv(Exec(cpus, trace).value) && Exact(Exec(cpus, trace).value, ifindex, isTx)
    ensures Grown(Exec(cpus, trace[..k]).value, Exec(cpus, trace).value, ifindex, isTx)
    ensures Bytes(Exec(cpus, trace[..k]).value.counted, ifindex, isTx) <= Bytes(Exec(cpus, trace).value.counted, ifindex, isTx)
  {
    hide Step, Enabled, Bytes, Inv;
    ExecPrefix(cpus, trace, k);
    StatsConserved(cpus, trace, ifindex, isTx);
    if trace == [] {
      StartsExact(cpus, ifindex, isTx);
      assert trace[..k] == trace;
    } else {
      var n := |trace| - 1;
      ExecPrefix(cpus, trace, n);
      var s := Exec(cpus, trace[..n]).value;
      StatsConserved(cpus, trace[..n], ifindex, isTx);
      BytesGrow(s, trace[n], ifindex, isTx);
      ExactAndGrown(cpus, trace[..n], if k < n then k else n, ifindex, isTx);
      ExactStep(s, trace[n], ifindex, isTx);
      if k == |trace| {
        assert trace[..k] == trace;
      } else {
        assert trace[..n][..k] == trace[..k];
      }
    }
  }

  lemma StartsExact(cpus: nat, ifindex: u32, isTx: bool)
    ensures Exact(Start(cpus), ifindex, isTx)
  {
  }

  lemma {:induction false} TotalMonotone(a: seq<Stats>, b: seq<Stats>, isTx: bool)
    requires |a| == |b| && forall i :: 0 <= i < |a| ==> Side(a[i], isTx) <= Side(b[i], isTx)
    ensures Total(a, isTx) <= Total(b, isTx)
  {
    if a != [] {
      TotalMonotone(a[..|a| - 1], b[..|b| - 1], isTx);
    }
  }

  /** What a reader finds that copies each CPU's slot at its own moment from lo on. */
  ghost predicate ReadAt(cpus: nat, trace: seq<Event>, lo: nat, ms: seq<nat>, ifindex: u32, read: seq<Stats>) {
    && Exec(cpus, trace).Some? && |ms| == |read| == cpus
    && forall i :: 0 <= i < cpus ==> lo <= ms[i] <= |trace| && ReadsSlot(cpus, trace[..ms[i]], ifindex, i, read[i])
  }

  ghost predicate ReadsSlot(cpus: nat, trace: seq<Event>, ifindex: u32, i: nat, v: Stats) {
    Exec(cpus, trace).Some? &&
    var s := Exec(cpus, trace).value;
    ifindex in s.slots && i < |s.slots[ifindex]| && s.slots[ifindex][i] == v
  }

  lemma ReadsWithin(cpus: nat, trace: seq<Event>, lo: nat, m: nat, ifindex: u32, isTx: bool, i: nat, v: Stats)
    requires lo <= m <= |trace| && Exec(cpus, trace).Some? && ReadsSlot(cpus, trace[..m], ifindex, i, v)
    requires Bytes(Exec(cpus, trace).value.counted, ifindex, isTx) < 0x1_0000_0000_0000_0000
    ensures Exec(cpus, trace[..lo]).Some?
    ensures var s, t := Exec(cpus, trace[..lo]).value, Exec(cpus, trace).value;
      && (ifindex in s.slots && i < |s.slots[ifindex]| ==> Side(s.slots[ifindex][i], isTx) <= Side(v, isTx))
      && ifindex in t.slots && i < |t.slots[ifindex]| && Side(v, isTx) <= Side(t.slots[ifindex][i], isTx)
  {
    hide Exec, Bytes, Exact, Inv;
    ExactAndGrown(cpus, trace, m, ifindex, isTx);
    ExactAndGrown(cpus, trace[..m], lo, ifindex, isTx);
    assert trace[..m][..lo] == trace[..lo];
  }

  /** Statistics read while packets are being counted lie between what was counted when the reading
      began and when it ended, in whatever order and however late the slots are copied. */
  lemma ReadBetween(
    cpus: nat, trace: seq<Event>, lo: nat, ms: seq<nat>, ifindex: u32, isTx: bool, read: seq<Stats>)
    requires lo <= |trace| && ReadAt(cpus, trace, lo, ms, ifindex, read)
    requires Exec(cpus, trace[..lo]).Some? && ifindex in Exec(cpus, trace[..lo]).value.slots
    requires Bytes(Exec(cpus, trace).value.counted, ifindex, isTx) < 0x1_0000_0000_0000_0000
    ensures Bytes(Exec(cpus, trace[..lo]).value.counted, ifindex, isTx) <= Total(read, isTx)
    ensures Total(read, isTx) <= Bytes(Exec(cpus, trace).value.counted, ifindex, isTx)
  {
    hide Exec, Bytes, Total, Inv, Side;
    var s, t := Exec(cpus, trace[..lo]).value, Exec(cpus, trace).value;
    ExactAndGrown(cpus, trace, lo, ifindex, isTx);
    ExactAndGrown(cpus, trace[..lo], lo, ifindex, isTx);
    SlotsPerCpu(cpus, trace, ifindex, isTx);
    SlotsPerCpu(cpus, trace[..lo], ifindex, isTx);
    forall i | 0 <= i < cpus
      ensures Side(s.slots[ifindex][i], isTx) <= Side(read[i], isTx) <= Side(t.slots[ifindex][i], isTx)
    {
      ReadsWithin(cpus, trace, lo, ms[i], ifindex, isTx, i, read[i]);
    }
    TotalMonotone(s.slots[ifindex], read, isTx);
    TotalMonotone(read, t.slots[ifindex], isTx);
  }

  lemma {:induction false} SlotsPerCpu(cpus: nat, trace: seq<Event>, ifindex: u32, isTx: bool)
    requires Exec(cpus, trace).Some?
    ensures var s := Exec(cpus, trace).value;
      |s.pending| == cpus && (ifindex in s.slots ==> |s.slots[ifindex]| == cpus)
  {
    StatsConserved(cpus, trace, ifindex, isTx);
    if trace != [] {
      var n := |trace| - 1;
      SlotsPerCpu(cpus, trace[..n], ifindex, isTx);
      StatsConserved(cpus, trace[..n], ifindex, isTx);
      InvStep(Exec(cpus, trace[..n]).value, trace[n]);
    }
  }
}
