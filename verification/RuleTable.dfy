/**
 The user-space half of the firewall: `update_rules` clears an interface's sixteen slots in
 the shared, bounded kernel map and refills them. Runs of updates are related to the verdict.
 */
module RuleTable {
  import opened Addresses
  import opened Bits
  import opened Common
  import opened Firewall
  import opened HeaderChain

  const MAX_ENTRIES := 16384

  function First16(rules: seq<Rule>): (r: seq<Rule>) {
    if |rules| <= RULE_SLOTS then rules else rules[..RULE_SLOTS]
  }

  /** The table without any slot of ifindex's block. */
  function Cleared(table: Table, ifindex: u32): Table {
    map k | k in table && k / 16 != Block(ifindex) :: table[k]
  }

  /** The cleared table with the first n rules put back in slots 0 to n-1. */
  function Refilled(table: Table, ifindex: u32, rules: seq<Rule>, n: nat): Table
    requires n <= |rules| && n <= RULE_SLOTS
  {
    if n == 0 then Cleared(table, ifindex)
    else Refilled(table, ifindex, rules, n - 1)[Key(ifindex, n - 1) := rules[n - 1]]
  }

  /** How many of the rules find room once the interface's slots are cleared. */
  function Room(table: Table, ifindex: u32, rules: seq<Rule>): (n: nat)
    ensures n <= |First16(rules)|
  {
    var free := MAX_ENTRIES - |Cleared(table, ifindex)|;
    if free <= 0 then 0 else if |First16(rules)| <= free then |First16(rules)| else free
  }

  function Updated(table: Table, ifindex: u32, rules: seq<Rule>): Table {
    Refilled(table, ifindex, rules, Room(table, ifindex, rules))
  }

  /** The update succeeds exactly when every one of the first sixteen rules finds room. */
  predicate Fits(table: Table, ifindex: u32, rules: seq<Rule>) {
    |Cleared(table, ifindex)| + |First16(rules)| <= MAX_ENTRIES
  }

  /** Refilling changes no key outside the block. */
  lemma {:induction false} RefilledElsewhere(table: Table, ifindex: u32, rules: seq<Rule>, n: nat, k: u32)
    requires n <= |rules| && n <= RULE_SLOTS && k / 16 != Block(ifindex)
    ensures var t := Refilled(table, ifindex, rules, n);
      (k in t <==> k in table) && (k in t ==> t[k] == table[k])
  {
    if n > 0 {
      RefilledElsewhere(table, ifindex, rules, n - 1, k);
    }
  }

  lemma {:induction false} RefilledSlot(table: Table, ifindex: u32, rules: seq<Rule>, n: nat, i: nat)
    requires n <= |rules| && n <= RULE_SLOTS && i < RULE_SLOTS
    ensures var t, k := Refilled(table, ifindex, rules, n), Key(ifindex, i);
      (k in t <==> i < n) && (i < n ==> t[k] == rules[i])
  {
    if n > 0 {
      RefilledSlot(table, ifindex, rules, n - 1, i);
    }
  }

  /** Refilling puts rule i in slot i, for the first n rules, and clears the other slots. */
  lemma RefilledHolds(table: Table, ifindex: u32, rules: seq<Rule>, n: nat)
    requires n <= |rules| && n <= RULE_SLOTS
    ensures Holds(Refilled(table, ifindex, rules, n), ifindex, rules[..n])
  {
    forall i | 0 <= i < RULE_SLOTS
      ensures var t, k := Refilled(table, ifindex, rules, n), Key(ifindex, i);
        (k in t <==> i < n) && (i < n ==> t[k] == rules[..n][i])
    {
      RefilledSlot(table, ifindex, rules, n, i);
    }
  }

  lemma {:induction false} RefilledCard(table: Table, ifindex: u32, rules: seq<Rule>, n: nat)
    requires n <= |rules| && n <= RULE_SLOTS
    ensures |Refilled(table, ifindex, rules, n)| == |Cleared(table, ifindex)| + n
  {
    if n > 0 {
      RefilledCard(table, ifindex, rules, n - 1);
      RefilledSlot(table, ifindex, rules, n - 1, n - 1);
    }
  }

  /** The shared kernel map as user space updates it. */
  class EbpfManager {
    var table: Table

    constructor ()
      ensures table == map[]
    {
      table := map[];
    }

    /** `update_rules`: true stands for Ok, false for a refused insert. */
    method UpdateRules(ifindex: u32, rules: seq<Rule>) returns (ok: bool)
      requires |table| <= MAX_ENTRIES
      modifies this
      ensures |table| <= MAX_ENTRIES
      ensures table == Updated(old(table), ifindex, rules)
      ensures ok <==> Fits(old(table), ifindex, rules)
    {
      ClearSlots(ifindex);
      CardOfRestriction(table, old(table));
      ok := InsertRules(old(table), ifindex, rules);
    }

    method ClearSlots(ifindex: u32)
      modifies this
      ensures table == Cleared(old(table), ifindex)
    {
      var i := 0;
      NoSlotRemoved(table, ifindex);
      while i < 16
        invariant 0 <= i <= 16
        invariant table == WithoutSlots(old(table), ifindex, i)
      {
        RemoveSlot(old(table), ifindex, i);
        var key := ShiftedKey(ifindex, i);
        table := table - {key};
        i := i + 1;
      }
      AllSlotsRemoved(old(table), ifindex);
    }

    method InsertRules(ghost before: Table, ifindex: u32, rules: seq<Rule>) returns (ok: bool)
      requires table == Cleared(before, ifindex) && |table| <= MAX_ENTRIES
      modifies this
      ensures |table| <= MAX_ENTRIES
      ensures table == Updated(before, ifindex, rules)
      ensures ok <==> Fits(before, ifindex, rules)
    {
      var i := 0;
      while i < |rules| && i < 16
        invariant 0 <= i <= Room(before, ifindex, rules)
        invariant table == Refilled(before, ifindex, rules, i)
      {
        RefilledSlot(before, ifindex, rules, i, i);
        RefilledCard(before, ifindex, rules, i);
        var key := ShiftedKey(ifindex, i);
        if key !in table && |table| >= MAX_ENTRIES {
          return false;
        }
        table := table[key := rules[i]];
        i := i + 1;
      }
      RefilledCard(before, ifindex, rules, i);
      ok := true;
    }
  }

  /** The table without the first i slots of ifindex's block. */
  function WithoutSlots(table: Table, ifindex: u32, i: nat): Table {
    map k | k in table && !(k / 16 == Block(ifindex) && k % 16 < i) :: table[k]
  }

  lemma NoSlotRemoved(table: Table, ifindex: u32)
    ensures WithoutSlots(table, ifindex, 0) == table
  {
  }

  lemma RemoveSlot(table: Table, ifindex: u32, i: nat)
    requires i < RULE_SLOTS
    ensures WithoutSlots(table, ifindex, i) - {Key(ifindex, i)} == WithoutSlots(table, ifindex, i + 1)
  {
  }

  lemma AllSlotsRemoved(table: Table, ifindex: u32)
    ensures WithoutSlots(table, ifindex, RULE_SLOTS) == Cleared(table, ifindex)
    ensures Cleared(table, ifindex).Keys <= table.Keys
  {
  }

  lemma CardOfRestriction<K, V>(m: map<K, V>, n: map<K, V>)
    requires m.Keys <= n.Keys
    ensures |m| <= |n|
  {
    SubsetCard(m.Keys, n.Keys);
    assert |m| == |m.Keys| && |n| == |n.Keys|;
  }

  // ---------------------------------------------------------------------------
  // Runs of updates.

  datatype Update = Update(ifindex: u32, rules: seq<Rule>)

  /** The table after a run of updates on an empty map. */
  function After(run: seq<Update>): Table {
    if run == [] then map[]
    else
      var last := run[|run| - 1];
      Updated(After(run[..|run| - 1]), last.ifindex, last.rules)
  }

  /** The rules an interface should have: those of the last update of its block. */
  function LastRules(run: seq<Update>, ifindex: u32): seq<Rule> {
    if run == [] then []
    else
      var last := run[|run| - 1];
      if Block(last.ifindex) == Block(ifindex) then last.rules
      else LastRules(run[..|run| - 1], ifindex)
  }

  /** The rules an interface really has: those that found room in the last update of its block. */
  function KeptRules(run: seq<Update>, ifindex: u32): seq<Rule> {
    if run == [] then []
    else
      var n := |run| - 1;
      var last := run[n];
      if Block(last.ifindex) == Block(ifindex)
      then last.rules[..Room(After(run[..n]), last.ifindex, last.rules)]
      else KeptRules(run[..n], ifindex)
  }

  /** The last update of the interface's block, if there is one, succeeded. */
  predicate LastFits(run: seq<Update>, ifindex: u32) {
    run == [] ||
    (var n := |run| - 1;
     if Block(run[n].ifindex) == Block(ifindex) then Fits(After(run[..n]), run[n].ifindex, run[n].rules)
     else LastFits(run[..n], ifindex))
  }

  /** The blocks that have ever been given rules. */
  function Blocks(run: seq<Update>): set<nat> {
    set u | u in run :: Block(u.ifindex)
  }

  /** Every update of the run succeeded. */
  predicate AllFit(run: seq<Update>) {
    run == [] ||
    (var n := |run| - 1;
     AllFit(run[..n]) && Fits(After(run[..n]), run[n].ifindex, run[n].rules))
  }

  /** No run takes the map over its limit. */
  lemma {:induction false} RunBounded(run: seq<Update>)
    ensures |After(run)| <= MAX_ENTRIES
  {
    if run != [] {
      var n := |run| - 1;
      RunBounded(run[..n]);
      var u, before := run[n], After(run[..n]);
      RefilledCard(before, u.ifindex, u.rules, Room(before, u.ifindex, u.rules));
      CardOfRestriction(Cleared(before, u.ifindex), before);
    }
  }

  /** What an interface really has is what it was last given, cut at sixteen, exactly if that
      update succeeded. */
  lemma {:induction false} KeptIsLastIff(run: seq<Update>, ifindex: u32)
    ensures KeptRules(run, ifindex) == First16(LastRules(run, ifindex)) <==> LastFits(run, ifindex)
  {
    if run != [] {
      var n := |run| - 1;
      if Block(run[n].ifindex) == Block(ifindex) {
        RunBounded(run[..n]);
        RoomForAllIff(After(run[..n]), run[n].ifindex, run[n].rules);
      } else {
        KeptIsLastIff(run[..n], ifindex);
      }
    }
  }

  lemma RoomForAllIff(table: Table, ifindex: u32, rules: seq<Rule>)
    requires |table| <= MAX_ENTRIES
    ensures rules[..Room(table, ifindex, rules)] == First16(rules) <==> Fits(table, ifindex, rules)
  {
    CardOfRestriction(Cleared(table, ifindex), table);
    var room := Room(table, ifindex, rules);
    assert |rules[..room]| == room;
    if room == |First16(rules)| {
      assert rules[..room] == First16(rules);
    }
  }

  lemma {:induction false} AllFitLast(run: seq<Update>, ifindex: u32)
    requires AllFit(run)
    ensures LastFits(run, ifindex)
  {
    if run != [] {
      AllFitLast(run[..|run| - 1], ifindex);
    }
  }

  /** After any run of updates, refused inserts included, an interface's slots are its kept rules. */
  lemma {:induction false} SlotsAfterRun(run: seq<Update>, ifindex: u32)
    ensures Holds(After(run), ifindex, KeptRules(run, ifindex))
  {
    if run != [] {
      var n := |run| - 1;
      var u, before := run[n], After(run[..n]);
      var room := Room(before, u.ifindex, u.rules);
      if Block(u.ifindex) == Block(ifindex) {
        RefilledHolds(before, u.ifindex, u.rules, room);
        assert forall i :: 0 <= i < RULE_SLOTS ==> Key(ifindex, i) == Key(u.ifindex, i);
      } else {
        SlotsAfterRun(run[..n], ifindex);
        forall i | 0 <= i < RULE_SLOTS
          ensures var t, k := After(run), Key(ifindex, i);
            (k in t <==> k in before) && (k in t ==> t[k] == before[k])
        {
          RefilledElsewhere(before, u.ifindex, u.rules, room, Key(ifindex, i));
        }
      }
    }
  }

  /** The verdict after any run of updates is the list verdict on the rules kept, and so does
      not depend on their order nor on any update of another block. */
  lemma VerdictAfterRun(run: seq<Update>, ifindex: u32, flow: Flow)
    ensures SlotsDrop(After(run), ifindex, flow) <==> ListDrops(KeptRules(run, ifindex), flow)
    ensures LastFits(run, ifindex) ==>
      (SlotsDrop(After(run), ifindex, flow) <==> ListDrops(First16(LastRules(run, ifindex)), flow))
  {
    SlotsAfterRun(run, ifindex);
    SlotsDropAsList(After(run), ifindex, KeptRules(run, ifindex), flow);
    KeptIsLastIff(run, ifindex);
  }

  /** The same slot by slot: after a successful update, slot i is at `(ifindex << 4) | i` and holds
      the i-th of the rules last given, for the first sixteen. */
  lemma SlotAfterRun(run: seq<Update>, ifindex: u32, i: nat)
    requires i < 16 && LastFits(run, ifindex)
    ensures var key, rules := ifindex % 0x1000_0000 * 16 + i, LastRules(run, ifindex);
      (key in After(run) <==> i < |rules|) && (key in After(run) ==> After(run)[key] == rules[i])
  {
    SlotsAfterRun(run, ifindex);
    KeptIsLastIff(run, ifindex);
    assert Key(ifindex, i) == ifindex % 0x1000_0000 * 16 + i;
  }

  /** An interface whose one rule allows a range of TCP or UDP ports shoots every packet that can be
      read, other than neighbour discovery, of another protocol or to a port outside that range. */
  lemma PortRuleOnPackets(
    run: seq<Update>, ifindex: u32, protocol: Protocol, a: u16, b: u16, eth: seq<byte>, head: seq<byte>, hopLimit: byte,
    src: Ipv6, dst: Ipv6, hs: Chain, proto: byte, payload: seq<byte>)
    requires (protocol == Tcp || protocol == Udp) && a > 0
    requires KeptRules(run, ifindex) == [Rule(protocol, a, b, Allow, seq(16, _ => 0), 0)]
    requires |eth| == 14 && |head| == 6 && hs.Valid() && hs.Length() < 8 && !IsExtension(proto)
    ensures Shot(Packet(eth, head, hopLimit, src, dst, hs, proto, payload), true, ifindex, After(run)) <==>
      if proto == 58 && payload != [] && 133 <= payload[0] <= 136 then false
      else if proto == 6 then
        |payload| < 20 || protocol == Udp || !(a <= (payload[2] as int) * 256 + payload[3] <= b)
      else if proto == 17 then
        |payload| < 8 || protocol == Tcp || !(a <= (payload[2] as int) * 256 + payload[3] <= b)
      else true
  {
    hide Packet, SlotsDrop, ListDrops, KeptRules, After;
    ParseInvertsPacket(eth, head, hopLimit, src, dst, hs, proto, payload);
    if Expected(src, proto, payload).Traffic? {
      var flow := Expected(src, proto, payload).flow;
      VerdictAfterRun(run, ifindex, flow);
      PortRuleDropsIff(protocol, a, b, flow);
    }
  }

  /** Two runs that leave an interface the same rules, in any order, give every flow the same verdict. */
  lemma VerdictIgnoresOrderAndOthers(run: seq<Update>, run': seq<Update>, ifindex: u32, flow: Flow)
    requires multiset(KeptRules(run, ifindex)) == multiset(KeptRules(run', ifindex))
    ensures SlotsDrop(After(run), ifindex, flow) <==> SlotsDrop(After(run'), ifindex, flow)
  {
    VerdictAfterRun(run, ifindex, flow);
    VerdictAfterRun(run', ifindex, flow);
    ListDropsIgnoresOrder(KeptRules(run, ifindex), KeptRules(run', ifindex), flow);
  }

  /** An update that finds the map full without its own slots leaves its interface open. */
  lemma FullMapOpens(run: seq<Update>, u: Update, flow: Flow)
    requires |Cleared(After(run), u.ifindex)| >= MAX_ENTRIES
    ensures !SlotsDrop(After(run + [u]), u.ifindex, flow)
  {
    assert (run + [u])[..|run|] == run;
    VerdictAfterRun(run + [u], u.ifindex, flow);
  }

  lemma {:induction false} KeptAmongGiven(run: seq<Update>, ifindex: u32, r: Rule)
    requires r in KeptRules(run, ifindex)
    ensures exists u :: u in run && r in u.rules
  {
    var n := |run| - 1;
    assert run[n] in run;
    if Block(run[n].ifindex) != Block(ifindex) {
      KeptAmongGiven(run[..n], ifindex, r);
    }
  }

  // ---------------------------------------------------------------------------
  // Capacity.

  lemma {:induction false} RangeCard(s: set<u32>, lo: nat, n: nat)
    requires forall x :: x in s ==> lo <= x < lo + n
    ensures |s| <= n
  {
    if n == 0 {
      assert s == {};
    } else {
      var below := set x | x in s && x < lo + n - 1;
      RangeCard(below, lo, n - 1);
      if lo + n - 1 in s {
        assert s == below + {lo + n - 1};
      } else {
        assert s == below;
      }
    }
  }

  lemma {:induction false} BlockCard(keys: set<u32>, blocks: set<nat>)
    requires forall k :: k in keys ==> k / 16 in blocks
    ensures |keys| <= 16 * |blocks|
  {
    if keys != {} {
      var b := (var k :| k in keys; k / 16);
      var here := set k | k in keys && k / 16 == b;
      RangeCard(here, 16 * b, 16);
      BlockCard(keys - here, blocks - {b});
      assert keys == (keys - here) + here;
    }
  }

  lemma {:induction false} KeyInBlocks(run: seq<Update>, k: u32)
    requires k in After(run)
    ensures k / 16 in Blocks(run)
  {
    if run != [] {
      var n := |run| - 1;
      var u, before := run[n], After(run[..n]);
      assert u in run;
      if k / 16 != Block(u.ifindex) {
        RefilledElsewhere(before, u.ifindex, u.rules, Room(before, u.ifindex, u.rules), k);
        KeyInBlocks(run[..n], k);
      }
    }
  }

  lemma TableCard(run: seq<Update>, table: Table, blocks: set<nat>)
    requires forall k :: k in table ==> k in After(run)
    requires forall k :: k in table && k / 16 in Blocks(run) ==> k / 16 in blocks
    ensures |table| <= 16 * |blocks|
  {
    forall k | k in table
      ensures k / 16 in blocks
    {
      KeyInBlocks(run, k);
    }
    BlockCard(table.Keys, blocks);
    assert |table| == |table.Keys|;
  }

  /** Room is always left for the sixteen slots of the last block updated. */
  lemma OthersLeaveRoom(run: seq<Update>, u: Update)
    ensures |Cleared(After(run), u.ifindex)| <= 16 * (|Blocks(run + [u])| - 1)
    ensures |Blocks(run)| <= |Blocks(run + [u])|
  {
    var all := Blocks(run + [u]);
    assert u in run + [u] && forall v :: v in run ==> v in run + [u];
    SubsetCard(Blocks(run), all);
    TableCard(run, Cleared(After(run), u.ifindex), all - {Block(u.ifindex)});
  }

  /** With at most 1024 blocks in play the map never outgrows them and no insert is refused. */
  lemma {:induction false} CapacitySuffices(run: seq<Update>)
    requires |Blocks(run)| <= 1024
    ensures |After(run)| <= 16 * |Blocks(run)| && AllFit(run)
  {
    hide Updated, Cleared, Blocks;
    TableCard(run, After(run), Blocks(run));
    if run != [] {
      var n := |run| - 1;
      assert run == run[..n] + [run[n]];
      OthersLeaveRoom(run[..n], run[n]);
      CapacitySuffices(run[..n]);
    }
  }

  // ---------------------------------------------------------------------------
  // One interface more: the capacity is exact.

  function DenyAll(): Rule {
    Rule(Any, 0, 0, Deny, seq(16, _ => 0), 0)
  }

  function Sixteen(): (rules: seq<Rule>)
    ensures |rules| == 16
  {
    seq(16, _ => DenyAll())
  }

  /** Sixteen rules for each of the first n interfaces. */
  function Fill(n: nat): (run: seq<Update>)
    requires n <= 1024
    ensures |run| == n
  {
    seq(n, i requires 0 <= i < n => Update(i, Sixteen()))
  }

  lemma {:induction false} Filled(n: nat)
    requires n <= 1024
    ensures |After(Fill(n))| == 16 * n
    ensures forall k :: k in After(Fill(n)) ==> k / 16 < n
  {
    hide Updated, Sixteen;
    if n > 0 {
      Filled(n - 1);
      FillSplit(n);
      AddSixteen(After(Fill(n - 1)), n - 1);
    }
  }

  lemma FillSplit(n: nat)
    requires 0 < n <= 1024
    ensures Fill(n)[..n - 1] == Fill(n - 1) && Fill(n)[n - 1] == Update(n - 1, Sixteen())
  {
  }

  /** The next interface finds room for all its rules. */
  lemma AddSixteen(before: Table, i: nat)
    requires i < 1024 && |before| == 16 * i && forall k :: k in before ==> k / 16 < i
    ensures var t := Updated(before, i, Sixteen());
      |t| == 16 * i + 16 && forall k :: k in t ==> k / 16 < i + 1
  {
    hide Refilled, Sixteen;
    assert Cleared(before, i) == before;
    RefilledCard(before, i, Sixteen(), 16);
    var t := Updated(before, i, Sixteen());
    forall k | k in t
      ensures k / 16 < i + 1
    {
      if k / 16 != Block(i) {
        RefilledElsewhere(before, i, Sixteen(), 16, k);
      }
    }
  }

  /** With 1024 interfaces holding sixteen rules each, one more that is given a rule to deny
      everything lets everything through. */
  lemma FullMapReached(flow: Flow)
    ensures var run := Fill(1024) + [Update(1024, [DenyAll()])];
      && ListDrops(First16(LastRules(run, 1024)), flow)
      && !SlotsDrop(After(run), 1024, flow)
  {
    hide Refilled, Updated, SlotsDrop;
    var u := Update(1024, [DenyAll()]);
    Filled(1024);
    assert Cleared(After(Fill(1024)), 1024) == After(Fill(1024));
    FullMapOpens(Fill(1024), u, flow);
    LastOfRun(Fill(1024), u);
    DenyOnlyFills([], DenyAll(), flow);
  }

  lemma LastOfRun(run: seq<Update>, u: Update)
    ensures LastRules(run + [u], u.ifindex) == u.rules
  {
    assert (run + [u])[|run|] == u;
  }

  // ---------------------------------------------------------------------------
  // Packets that are classified during an update. The slots are removed one by one, and rules
  // put in one by one; the classifier reads one slot after the other meanwhile.

  /** The table after that many of an update's removals and insertions. */
  function TableAt(before: Table, ifindex: u32, rules: seq<Rule>, moment: nat): Table
    requires moment <= Moments(before, ifindex, rules)
  {
    if moment <= RULE_SLOTS then WithoutSlots(before, ifindex, moment)
    else Refilled(before, ifindex, rules, moment - RULE_SLOTS)
  }

  function Moments(before: Table, ifindex: u32, rules: seq<Rule>): nat {
    RULE_SLOTS + Room(before, ifindex, rules)
  }

  /** What is in slot i at that moment, if the update replaces prior by kept. */
  function SlotAt(prior: seq<Rule>, kept: seq<Rule>, moment: nat, i: nat): Option<Rule>
    requires moment <= RULE_SLOTS + |kept|
  {
    if moment <= RULE_SLOTS then (if moment <= i < |prior| then Some(prior[i]) else None)
    else if i < moment - RULE_SLOTS then Some(kept[i]) else None
  }

  lemma SlotAtMoment(before: Table, ifindex: u32, rules: seq<Rule>, prior: seq<Rule>, moment: nat, i: nat)
    requires Holds(before, ifindex, prior) && moment <= Moments(before, ifindex, rules) && i < RULE_SLOTS
    ensures var t, k := TableAt(before, ifindex, rules, moment), Key(ifindex, i);
      var slot := SlotAt(prior, rules[..Room(before, ifindex, rules)], moment, i);
      (k in t <==> slot.Some?) && (k in t ==> t[k] == slot.value)
  {
    if moment <= RULE_SLOTS {
      assert Key(ifindex, i) / 16 == Block(ifindex) && Key(ifindex, i) % 16 == i;
    } else {
      RefilledSlot(before, ifindex, rules, moment - RULE_SLOTS, i);
    }
  }

  /** When each slot is read: one after the other, in the course of the update. */
  ghost predicate Reading(ms: seq<nat>, last: nat) {
    && |ms| == RULE_SLOTS
    && (forall i :: 0 <= i < RULE_SLOTS ==> ms[i] <= last)
    && (forall i, j :: 0 <= i < j < RULE_SLOTS ==> ms[i] <= ms[j])
  }

  function TablesRead(before: Table, ifindex: u32, rules: seq<Rule>, ms: seq<nat>): (tables: seq<Table>)
    requires Reading(ms, Moments(before, ifindex, rules))
    ensures |tables| == RULE_SLOTS
  {
    seq(RULE_SLOTS, i requires 0 <= i < RULE_SLOTS => TableAt(before, ifindex, rules, ms[i]))
  }

  /** Some slot is seen filled, and none with a rule that permits the flow. */
  ghost predicate SeesNoPermit(prior: seq<Rule>, kept: seq<Rule>, ms: seq<nat>, flow: Flow)
    requires Reading(ms, RULE_SLOTS + |kept|)
  {
    && (exists i :: 0 <= i < RULE_SLOTS && SlotAt(prior, kept, ms[i], i).Some?)
    && (forall i :: 0 <= i < RULE_SLOTS && SlotAt(prior, kept, ms[i], i).Some? ==>
         !Permits(SlotAt(prior, kept, ms[i], i).value, flow))
  }

  /** The classifier's verdict on a flow whose slots are read at these moments. */
  ghost predicate DropsMeanwhile(before: Table, ifindex: u32, rules: seq<Rule>, ms: seq<nat>, flow: Flow)
    requires Reading(ms, Moments(before, ifindex, rules))
  {
    SeenDrop(TablesRead(before, ifindex, rules, ms), ifindex, flow)
  }

  lemma VerdictMeanwhile(before: Table, ifindex: u32, rules: seq<Rule>, prior: seq<Rule>, ms: seq<nat>, flow: Flow)
    requires Holds(before, ifindex, prior) && Reading(ms, Moments(before, ifindex, rules))
    ensures |rules[..Room(before, ifindex, rules)]| == Room(before, ifindex, rules)
    ensures DropsMeanwhile(before, ifindex, rules, ms, flow)
       <==> SeesNoPermit(prior, rules[..Room(before, ifindex, rules)], ms, flow)
  {
    hide Room, TableAt, SlotAt, Permits, Key;
    var tables, kept := TablesRead(before, ifindex, rules, ms), rules[..Room(before, ifindex, rules)];
    forall i | 0 <= i < RULE_SLOTS
      ensures var slot := SlotAt(prior, kept, ms[i], i);
        (Key(ifindex, i) in tables[i] <==> slot.Some?) && (slot.Some? ==> tables[i][Key(ifindex, i)] == slot.value)
    {
      SlotAtMoment(before, ifindex, rules, prior, ms[i], i);
    }
  }

  /** Read all at the moment when everything is removed. */
  function AllRemoved(): seq<nat> {
    seq(RULE_SLOTS, _ => RULE_SLOTS)
  }

  /** Moments at which slot i is seen with its old rule, and every other slot empty. */
  function OldAlone(i: nat): seq<nat> {
    seq(RULE_SLOTS, j => if j <= i then i else RULE_SLOTS)
  }

  /** Moments at which slot i is seen with its new rule, and every other slot empty. */
  function NewAlone(i: nat): seq<nat> {
    seq(RULE_SLOTS, j => if j < i then RULE_SLOTS else RULE_SLOTS + i + 1)
  }

  /** Whatever the old rules and the new ones, every flow can get through during an update. */
  lemma MayPass(before: Table, ifindex: u32, rules: seq<Rule>, prior: seq<Rule>, flow: Flow)
    requires Holds(before, ifindex, prior)
    ensures Reading(AllRemoved(), Moments(before, ifindex, rules))
    ensures !DropsMeanwhile(before, ifindex, rules, AllRemoved(), flow)
  {
    VerdictMeanwhile(before, ifindex, rules, prior, AllRemoved(), flow);
  }

  lemma OneSeen(prior: seq<Rule>, kept: seq<Rule>, r: Rule, flow: Flow) returns (ms: seq<nat>)
    requires |prior| <= RULE_SLOTS && |kept| <= RULE_SLOTS && (r in prior || r in kept) && !Permits(r, flow)
    ensures Reading(ms, RULE_SLOTS + |kept|) && SeesNoPermit(prior, kept, ms, flow)
  {
    hide Permits;
    if r in prior {
      var i :| 0 <= i < |prior| && prior[i] == r;
      ms := OldAlone(i);
      assert SlotAt(prior, kept, ms[i], i) == Some(r);
    } else {
      var i :| 0 <= i < |kept| && kept[i] == r;
      ms := NewAlone(i);
      assert SlotAt(prior, kept, ms[i], i) == Some(r);
    }
  }

  /** A flow can be dropped during an update if and only if some rule, of the old or of the new
      ones, does not permit it. */
  lemma MayDropIff(before: Table, ifindex: u32, rules: seq<Rule>, prior: seq<Rule>, flow: Flow)
    requires Holds(before, ifindex, prior)
    ensures (exists ms :: Reading(ms, Moments(before, ifindex, rules)) && DropsMeanwhile(before, ifindex, rules, ms, flow))
       <==> exists r :: (r in prior || r in rules[..Room(before, ifindex, rules)]) && !Permits(r, flow)
  {
    hide Permits, Room, DropsMeanwhile, SeesNoPermit, Reading, Holds;
    var kept := rules[..Room(before, ifindex, rules)];
    if r :| (r in prior || r in kept) && !Permits(r, flow) {
      KeptFits(before, ifindex, rules, prior);
      var ms := OneSeen(prior, kept, r, flow);
      VerdictMeanwhile(before, ifindex, rules, prior, ms, flow);
    }
    if ms :| Reading(ms, Moments(before, ifindex, rules)) && DropsMeanwhile(before, ifindex, rules, ms, flow) {
      VerdictMeanwhile(before, ifindex, rules, prior, ms, flow);
      var r := SeenIsRule(prior, kept, ms, flow);
    }
  }

  lemma KeptFits(before: Table, ifindex: u32, rules: seq<Rule>, prior: seq<Rule>)
    requires Holds(before, ifindex, prior)
    ensures |prior| <= RULE_SLOTS && |rules[..Room(before, ifindex, rules)]| == Room(before, ifindex, rules) <= RULE_SLOTS
  {
  }

  lemma SeenIsRule(prior: seq<Rule>, kept: seq<Rule>, ms: seq<nat>, flow: Flow) returns (r: Rule)
    requires Reading(ms, RULE_SLOTS + |kept|) && SeesNoPermit(prior, kept, ms, flow)
    ensures (r in prior || r in kept) && !Permits(r, flow)
  {
    hide Permits;
    var i :| 0 <= i < RULE_SLOTS && SlotAt(prior, kept, ms[i], i).Some?;
    r := SlotAt(prior, kept, ms[i], i).value;
  }

  /** So during an update a flow's fate is certain if and only if every rule, old or new, permits
      it: even where both lists drop it, it can get through, and where both let it through, be dropped. */
  lemma CertainMeanwhileIff(before: Table, ifindex: u32, rules: seq<Rule>, prior: seq<Rule>, flow: Flow)
    requires Holds(before, ifindex, prior)
    ensures (forall ms, ms' :: Reading(ms, Moments(before, ifindex, rules)) && Reading(ms', Moments(before, ifindex, rules)) ==>
        (DropsMeanwhile(before, ifindex, rules, ms, flow) <==> DropsMeanwhile(before, ifindex, rules, ms', flow)))
      <==> forall r :: r in prior || r in rules[..Room(before, ifindex, rules)] ==> Permits(r, flow)
  {
    hide Permits, Room, DropsMeanwhile, Reading, Holds, AllRemoved;
    MayPass(before, ifindex, rules, prior, flow);
    MayDropIff(before, ifindex, rules, prior, flow);
  }
}
