/**
 The walk over IPv6 extension headers (section 4 of RFC 8200, section 2.2 of RFC 4302)
 that the egress classifier makes to find the transport header, and a specification
 encoder for header chains that the walk is proved to invert.
 */
module HeaderChain {
  import opened Bits
  import opened Common

  datatype Result<+T> = Ok(value: T) | Err

  const ETH_LEN := 14
  const IPV6_LEN := 40
  const HOP_BY_HOP: byte := 0
  const ROUTING: byte := 43
  const FRAGMENT: byte := 44
  const AUTHENTICATION: byte := 51
  const DESTINATION: byte := 60

  predicate IsExtension(nextHdr: byte) {
    IsOptions(nextHdr) || nextHdr == FRAGMENT || nextHdr == AUTHENTICATION
  }

  predicate IsOptions(nextHdr: byte) {
    nextHdr == HOP_BY_HOP || nextHdr == ROUTING || nextHdr == DESTINATION
  }

  /** A bounds-checked read of n bytes of the packet. */
  function Load(pkt: seq<byte>, offset: nat, n: nat): Option<seq<byte>> {
    if offset + n <= |pkt| then Some(pkt[offset..offset + n]) else None
  }

  /** Bytes taken by a hop-by-hop, routing or destination header with this length octet. */
  function OptionsLen(len: nat): nat {
    len * 8 + 8
  }

  /** Bytes taken by an authentication header with this length octet. */
  function AuthenticationLen(len: nat): nat {
    (len + 2) * 4
  }

  /** The 16-bit field of a fragment header: 13 bits of offset, 2 reserved, 1 more-fragments. */
  function FragmentField(hi: nat, lo: nat): nat {
    hi * 256 + lo
  }

  predicate MarksTrueFragment(field: nat) {
    field / 8 != 0 || field % 2 != 0
  }

  /** The outcome of the walk: where the transport header is, and its protocol. */
  datatype WalkResult = Found(offset: nat, proto: byte) | Failed

  /** What one header at offset means for the walk. */
  datatype Verdict = Unreadable | Stop(proto: byte) | Advance(nextHdr: byte, len: nat)

  function Inspect(pkt: seq<byte>, nextHdr: byte, offset: nat): Verdict {
    if IsOptions(nextHdr) then
      if offset + 2 > |pkt| then Unreadable else Advance(pkt[offset], OptionsLen(pkt[offset + 1]))
    else if nextHdr == FRAGMENT then
      if offset + 8 > |pkt| then Unreadable
      else if MarksTrueFragment(FragmentField(pkt[offset + 2], pkt[offset + 3])) then Stop(0)
      else Advance(pkt[offset], 8)
    else if nextHdr == AUTHENTICATION then
      if offset + 2 > |pkt| then Unreadable else Advance(pkt[offset], AuthenticationLen(pkt[offset + 1]))
    else Stop(nextHdr)
  }

  /** What the walk finds within n more headers, from a header of type nextHdr at offset. */
  function Walk(pkt: seq<byte>, nextHdr: byte, offset: nat, n: nat): WalkResult
    decreases n, nextHdr
  {
    if n == 0 then Failed
    else
      match Inspect(pkt, nextHdr, offset)
      case Unreadable => Failed
      case Stop(proto) => Found(offset, proto)
      case Advance(next, len) => Walk(pkt, next, offset + len, n - 1)
  }

  /** The loop of the classifier: at most eight headers, starting after the fixed header. */
  method TransportOffset(pkt: seq<byte>, firstHdr: byte) returns (r: WalkResult)
    ensures r == Walk(pkt, firstHdr, 54, 8)
  {
    var nextHdr := firstHdr;
    var offset: nat := ETH_LEN + IPV6_LEN;
    for i := 0 to 8
      invariant Walk(pkt, nextHdr, offset, 8 - i) == Walk(pkt, firstHdr, ETH_LEN + IPV6_LEN, 8)
    {
      var verdict := InspectHeader(pkt, nextHdr, offset);
      match verdict {
        case Unreadable => return Failed;
        case Stop(proto) => return Found(offset, proto);
        case Advance(next, len) => nextHdr, offset := next, offset + len;
      }
    }
    r := Failed;
  }

  /** The match inside the loop. */
  method InspectHeader(pkt: seq<byte>, nextHdr: byte, offset: nat) returns (v: Verdict)
    ensures v == Inspect(pkt, nextHdr, offset)
  {
    if nextHdr == 0 || nextHdr == 43 || nextHdr == 60 {
      var hdr := Load(pkt, offset, 2);
      if hdr.None? {
        return Unreadable;
      }
      v := Advance(hdr.value[0], (hdr.value[1] as int) * 8 + 8);
    } else if nextHdr == 44 {
      var hdr := Load(pkt, offset, 8);
      if hdr.None? {
        return Unreadable;
      }
      var trueFragment := TestFragmentBits(hdr.value[2], hdr.value[3]);
      v := if trueFragment then Stop(0) else Advance(hdr.value[0], 8);
    } else if nextHdr == 51 {
      var hdr := Load(pkt, offset, 2);
      if hdr.None? {
        return Unreadable;
      }
      v := Advance(hdr.value[0], ((hdr.value[1] as int) + 2) * 4);
    } else {
      v := Stop(nextHdr);
    }
  }

  /** The source's test: (hi << 8 | lo) >> 3 and the lowest bit. */
  method TestFragmentBits(hi: nat, lo: byte) returns (trueFragment: bool)
    ensures trueFragment <==> MarksTrueFragment(FragmentField(hi, lo))
  {
    FragmentBits(hi, lo);
    var fragOffAndFlags := BitOr(hi * Pow2(8), lo);
    var fragOffset := Shr(fragOffAndFlags, 3);
    var moreFrags := BitAnd(fragOffAndFlags, 1) != 0;
    trueFragment := fragOffset != 0 || moreFrags;
  }

  lemma FragmentBits(hi: nat, lo: byte)
    ensures BitOr(hi * Pow2(8), lo) == FragmentField(hi, lo)
    ensures Shr(FragmentField(hi, lo), 3) == FragmentField(hi, lo) / 8
    ensures BitAnd(FragmentField(hi, lo), 1) == FragmentField(hi, lo) % 2
  {
    assert Pow2(4) == 16 && Pow2(8) == 256;
    OrDisjoint(hi, 8, lo);
    ShrIsDivision(FragmentField(hi, lo), 3);
    assert Pow2(3) == 8;
    AndOne(FragmentField(hi, lo));
  }

  // ---------------------------------------------------------------------------
  // Specification: extension headers and their wire format.

  datatype Header =
    | Options(kind: byte, body: seq<byte>)
    | Authentication(icv: seq<byte>)
    | Fragment(reserved: byte, fragOffset: nat, res: nat, more: bool, id: seq<byte>)
  {
    ghost predicate Valid() {
      match this
      case Options(kind, body) => IsOptions(kind) && |body| % 8 == 6 && |body| <= 255 * 8 + 6
      case Authentication(icv) => |icv| % 4 == 2 && 6 <= |icv| <= 255 * 4 + 6
      case Fragment(_, fragOffset, res, _, id) => fragOffset < 8192 && res < 4 && |id| == 4
    }

    /** The header type that announces this header. */
    function Kind(): byte {
      match this
      case Options(kind, _) => kind
      case Authentication(_) => AUTHENTICATION
      case Fragment(_, _, _, _, _) => FRAGMENT
    }

    /** A packet that is one fragment of several; an atomic fragment is a whole packet. */
    predicate IsTrueFragment() {
      Fragment? && (fragOffset != 0 || more)
    }

    /** The 16-bit field of a fragment header. */
    function FieldValue(): (f: nat)
      requires Fragment?
    {
      fragOffset * 8 + res * 2 + (if more then 1 else 0)
    }

    ghost function Encode(next: byte): (bytes: seq<byte>)
      requires Valid()
      ensures 8 <= |bytes| <= 2048
    {
      match this
      case Options(_, body) => [next, (|body| - 6) / 8] + body
      case Authentication(icv) => [next, (|icv| - 6) / 4] + icv
      case Fragment(reserved, _, _, _, id) => [next, reserved, FieldValue() / 256, FieldValue() % 256] + id
    }
  }

  /** A chain of extension headers, as the walk meets them. */
  datatype Chain = End | Link(header: Header, rest: Chain) {
    function Length(): nat {
      match this
      case End => 0
      case Link(_, rest) => 1 + rest.Length()
    }

    /** Well-formed headers, none of them marking a fragment of a larger packet. */
    ghost predicate Valid() {
      Link? ==> header.Valid() && !header.IsTrueFragment() && rest.Valid()
    }

    /** The header type announced before the chain, if protocol proto follows it. */
    function FirstType(proto: byte): byte {
      match this
      case End => proto
      case Link(h, _) => h.Kind()
    }

    ghost function Encode(proto: byte): (bytes: seq<byte>)
      requires Valid()
    {
      match this
      case End => []
      case Link(h, rest) => h.Encode(rest.FirstType(proto)) + rest.Encode(proto)
    }
  }

  /** The bytes enc are found in the packet at offset. */
  ghost predicate FoundAt(pkt: seq<byte>, offset: nat, enc: seq<byte>) {
    offset + |enc| <= |pkt| && pkt[offset..offset + |enc|] == enc
  }

  lemma FoundAtSplit(pkt: seq<byte>, offset: nat, a: seq<byte>, b: seq<byte>)
    ensures FoundAt(pkt, offset, a + b) <==> FoundAt(pkt, offset, a) && FoundAt(pkt, offset + |a|, b)
  {
    var n := |a| + |b|;
    if offset + n <= |pkt| {
      var whole := pkt[offset..offset + n];
      assert whole[..|a|] == pkt[offset..offset + |a|];
      assert whole[|a|..] == pkt[offset + |a|..offset + n];
      assert whole == whole[..|a|] + whole[|a|..];
      assert (a + b)[..|a|] == a && (a + b)[|a|..] == b;
    }
  }

  /** One encoded header takes the walk exactly one step, to the header behind it. */
  lemma InspectInvertsEncode(pkt: seq<byte>, offset: nat, h: Header, next: byte)
    requires h.Valid() && FoundAt(pkt, offset, h.Encode(next))
    ensures Inspect(pkt, h.Kind(), offset) ==
      if h.IsTrueFragment() then Stop(0) else Advance(next, |h.Encode(next)|)
  {
    var enc := h.Encode(next);
    assert forall i :: 0 <= i < |enc| ==> pkt[offset + i] == enc[i];
    match h {
      case Options(kind, body) =>
        assert enc[0] == next && OptionsLen(enc[1]) == |enc|;
      case Authentication(icv) =>
        assert enc[0] == next && AuthenticationLen(enc[1]) == |enc|;
      case Fragment(_, _, _, _, _) =>
        assert FragmentField(enc[2], enc[3]) == h.FieldValue();
    }
  }

  /** Found at offset, a chain has its first header there and the rest behind it. */
  lemma LinkFound(pkt: seq<byte>, offset: nat, h: Header, rest: Chain, proto: byte) returns (len: nat)
    requires Link(h, rest).Valid() && FoundAt(pkt, offset, Link(h, rest).Encode(proto))
    ensures Inspect(pkt, h.Kind(), offset) == Advance(rest.FirstType(proto), len)
    ensures FoundAt(pkt, offset + len, rest.Encode(proto))
    ensures |Link(h, rest).Encode(proto)| == len + |rest.Encode(proto)|
  {
    var next := rest.FirstType(proto);
    len := |h.Encode(next)|;
    FoundAtSplit(pkt, offset, h.Encode(next), rest.Encode(proto));
    InspectInvertsEncode(pkt, offset, h, next);
  }

  /** Walking an encoded chain uses up one unit of budget per header and goes on behind it. */
  lemma {:induction false} WalkThroughChain(pkt: seq<byte>, offset: nat, hs: Chain, proto: byte, left: nat)
    requires hs.Valid() && FoundAt(pkt, offset, hs.Encode(proto))
    ensures Walk(pkt, hs.FirstType(proto), offset, hs.Length() + left)
         == Walk(pkt, proto, offset + |hs.Encode(proto)|, left)
    decreases hs
  {
    hide Inspect;
    match hs {
      case End =>
      case Link(h, rest) =>
        var len := LinkFound(pkt, offset, h, rest, proto);
        WalkThroughChain(pkt, offset + len, rest, proto, left);
    }
  }

  /** A chain of at least n headers is too long for a budget of n. */
  lemma {:induction false} WalkRunsOut(pkt: seq<byte>, offset: nat, hs: Chain, proto: byte, n: nat)
    requires hs.Valid() && FoundAt(pkt, offset, hs.Encode(proto)) && n <= hs.Length()
    ensures Walk(pkt, hs.FirstType(proto), offset, n) == Failed
    decreases n
  {
    hide Inspect;
    if n > 0 {
      var len := LinkFound(pkt, offset, hs.header, hs.rest, proto);
      WalkRunsOut(pkt, offset + len, hs.rest, proto, n - 1);
    }
  }

  lemma StopAtTransport(pkt: seq<byte>, proto: byte, offset: nat, n: nat)
    requires !IsExtension(proto) && n > 0
    ensures Walk(pkt, proto, offset, n) == Found(offset, proto)
  {
    WalkStops(pkt, proto, offset, n);
  }

  lemma WalkStops(pkt: seq<byte>, nextHdr: byte, offset: nat, n: nat)
    requires Inspect(pkt, nextHdr, offset).Stop? && n > 0
    ensures Walk(pkt, nextHdr, offset, n) == Found(offset, Inspect(pkt, nextHdr, offset).proto)
  {
  }

  /** A chain of fewer than n headers is walked to exactly behind it, at its protocol; a longer one fails. */
  lemma WalkInvertsEncoding(pkt: seq<byte>, offset: nat, hs: Chain, proto: byte, n: nat)
    requires hs.Valid() && !IsExtension(proto) && FoundAt(pkt, offset, hs.Encode(proto))
    ensures Walk(pkt, hs.FirstType(proto), offset, n) ==
      if hs.Length() < n then Found(offset + |hs.Encode(proto)|, proto) else Failed
  {
    hide Inspect;
    if hs.Length() < n {
      WalkThroughChain(pkt, offset, hs, proto, n - hs.Length());
      StopAtTransport(pkt, proto, offset + |hs.Encode(proto)|, n - hs.Length());
    } else {
      WalkRunsOut(pkt, offset, hs, proto, n);
    }
  }

  /** A true fragment within reach stops the walk at its own header, with protocol 0. */
  lemma WalkStopsAtFragment(pkt: seq<byte>, offset: nat, hs: Chain, frag: Header, next: byte, n: nat)
    requires hs.Valid() && frag.Valid() && frag.IsTrueFragment()
    requires FoundAt(pkt, offset, hs.Encode(FRAGMENT))
    requires FoundAt(pkt, offset + |hs.Encode(FRAGMENT)|, frag.Encode(next))
    ensures Walk(pkt, hs.FirstType(FRAGMENT), offset, n) ==
      if hs.Length() < n then Found(offset + |hs.Encode(FRAGMENT)|, 0) else Failed
  {
    hide Inspect, Walk, Chain.Encode, FoundAt;
    if hs.Length() < n {
      var end := offset + |hs.Encode(FRAGMENT)|;
      WalkThroughChain(pkt, offset, hs, FRAGMENT, n - hs.Length());
      InspectInvertsEncode(pkt, end, frag, next);
      WalkStops(pkt, FRAGMENT, end, n - hs.Length());
    } else {
      WalkRunsOut(pkt, offset, hs, FRAGMENT, n);
    }
  }

  lemma ReadOptions(pkt: seq<byte>, kind: byte, offset: nat) returns (h: Header)
    requires IsOptions(kind) && offset + 2 <= |pkt| && offset + OptionsLen(pkt[offset + 1]) <= |pkt|
    ensures h.Valid() && h.Kind() == kind && !h.IsTrueFragment()
    ensures FoundAt(pkt, offset, h.Encode(pkt[offset]))
  {
    var end := offset + OptionsLen(pkt[offset + 1]);
    h := Options(kind, pkt[offset + 2..end]);
    assert pkt[offset..end] == [pkt[offset], pkt[offset + 1]] + pkt[offset + 2..end];
  }

  lemma ReadAuthentication(pkt: seq<byte>, offset: nat) returns (h: Header)
    requires offset + 2 <= |pkt| && offset + AuthenticationLen(pkt[offset + 1]) <= |pkt|
    ensures h.Valid() && h.Kind() == AUTHENTICATION && !h.IsTrueFragment()
    ensures FoundAt(pkt, offset, h.Encode(pkt[offset]))
  {
    var end := offset + AuthenticationLen(pkt[offset + 1]);
    h := Authentication(pkt[offset + 2..end]);
    assert pkt[offset..end] == [pkt[offset], pkt[offset + 1]] + pkt[offset + 2..end];
  }

  lemma ReadFragment(pkt: seq<byte>, offset: nat) returns (h: Header)
    requires offset + 8 <= |pkt|
    ensures h.Valid() && h.Kind() == FRAGMENT
    ensures h.IsTrueFragment() <==> MarksTrueFragment(FragmentField(pkt[offset + 2], pkt[offset + 3]))
    ensures FoundAt(pkt, offset, h.Encode(pkt[offset]))
  {
    var hi, lo, id := pkt[offset + 2], pkt[offset + 3], pkt[offset + 4..offset + 8];
    h := ReadField(pkt[offset + 1], hi, lo, id);
    assert h.Encode(pkt[offset]) == [pkt[offset], pkt[offset + 1], hi, lo] + id;
    assert pkt[offset..offset + 8] == [pkt[offset], pkt[offset + 1], hi, lo] + id;
  }

  lemma ReadField(reserved: byte, hi: byte, lo: byte, id: seq<byte>) returns (h: Header)
    requires |id| == 4
    ensures h.Valid() && h.Fragment? && h.reserved == reserved && h.id == id
    ensures h.IsTrueFragment() <==> MarksTrueFragment(FragmentField(hi, lo))
    ensures h.FieldValue() == FragmentField(hi, lo) && h.FieldValue() / 256 == hi && h.FieldValue() % 256 == lo
  {
    var field := FragmentField(hi, lo);
    var rest, bit := field / 2, field % 2;
    var off, res := rest / 4, rest % 4;
    assert off == field / 8;
    h := Fragment(reserved, off, res, bit == 1, id);
  }

  /** The header that starts at offset, when the walk steps over it within the packet. */
  lemma ReadHeader(pkt: seq<byte>, nextHdr: byte, offset: nat) returns (h: Header)
    requires Inspect(pkt, nextHdr, offset).Advance?
    requires offset + Inspect(pkt, nextHdr, offset).len <= |pkt|
    ensures h.Valid() && h.Kind() == nextHdr && !h.IsTrueFragment()
    ensures FoundAt(pkt, offset, h.Encode(pkt[offset]))
  {
    if IsOptions(nextHdr) {
      h := ReadOptions(pkt, nextHdr, offset);
    } else if nextHdr == AUTHENTICATION {
      h := ReadAuthentication(pkt, offset);
    } else {
      h := ReadFragment(pkt, offset);
    }
  }

  /** A packet reads as the chain hs from a header of type nextHdr at offset: it leads to the
      protocol at end, or, for protocol 0, to a true fragment header there. */
  ghost predicate ReadsAs(pkt: seq<byte>, nextHdr: byte, offset: nat, end: nat, proto: byte, hs: Chain) {
    var last := if proto == 0 then FRAGMENT else proto;
    && hs.Valid()
    && (if proto == 0
        then end + 8 <= |pkt| && MarksTrueFragment(FragmentField(pkt[end + 2], pkt[end + 3]))
        else !IsExtension(proto))
    && hs.FirstType(last) == nextHdr
    && FoundAt(pkt, offset, hs.Encode(last)) && end == offset + |hs.Encode(last)|
  }

  lemma ReadsAsLink(pkt: seq<byte>, offset: nat, end: nat, proto: byte, h: Header, next: byte, rest: Chain)
    requires h.Valid() && !h.IsTrueFragment() && FoundAt(pkt, offset, h.Encode(next))
    requires ReadsAs(pkt, next, offset + |h.Encode(next)|, end, proto, rest)
    ensures ReadsAs(pkt, h.Kind(), offset, end, proto, Link(h, rest))
  {
    FoundAtSplit(pkt, offset, h.Encode(next), rest.Encode(if proto == 0 then FRAGMENT else proto));
  }

  /** Where the walk stops, the packet reads as the empty chain. */
  lemma StopReads(pkt: seq<byte>, nextHdr: byte, offset: nat)
    requires Inspect(pkt, nextHdr, offset).Stop?
    ensures ReadsAs(pkt, nextHdr, offset, offset, Inspect(pkt, nextHdr, offset).proto, End)
       || offset > |pkt|
  {
  }

  lemma ReadsAsStep(pkt: seq<byte>, nextHdr: byte, offset: nat, end: nat, proto: byte, rest: Chain)
    returns (h: Header)
    requires Inspect(pkt, nextHdr, offset).Advance? && offset + Inspect(pkt, nextHdr, offset).len <= |pkt|
    requires var Advance(next, len) := Inspect(pkt, nextHdr, offset);
      ReadsAs(pkt, next, offset + len, end, proto, rest)
    ensures ReadsAs(pkt, nextHdr, offset, end, proto, Link(h, rest))
  {
    h := ReadHeader(pkt, nextHdr, offset);
    InspectInvertsEncode(pkt, offset, h, pkt[offset]);
    ReadsAsLink(pkt, offset, end, proto, h, pkt[offset], rest);
  }

  /** Conversely, whatever the walk accepts inside the packet is an encoded chain, and a short one. */
  lemma {:induction false} WalkFindsChain(pkt: seq<byte>, nextHdr: byte, offset: nat, n: nat) returns (hs: Chain)
    requires Walk(pkt, nextHdr, offset, n).Found? && Walk(pkt, nextHdr, offset, n).offset <= |pkt|
    ensures hs.Length() < n
    ensures var Found(end, proto) := Walk(pkt, nextHdr, offset, n); ReadsAs(pkt, nextHdr, offset, end, proto, hs)
    decreases n
  {
    hs := End;
    var Found(end, proto) := Walk(pkt, nextHdr, offset, n);
    match Inspect(pkt, nextHdr, offset) {
      case Stop(_) =>
        StopReads(pkt, nextHdr, offset);
      case Advance(next, len) =>
        WalkAdvances(pkt, next, offset + len, n - 1);
        var rest := WalkFindsChain(pkt, next, offset + len, n - 1);
        var h := ReadsAsStep(pkt, nextHdr, offset, end, proto, rest);
        hs := Link(h, rest);
    }
  }

  /** The walk never moves back, and moves at most 2048 bytes per header. */
  lemma {:induction false} WalkAdvances(pkt: seq<byte>, nextHdr: byte, offset: nat, n: nat)
    requires Walk(pkt, nextHdr, offset, n).Found?
    ensures n > 0
    ensures offset <= Walk(pkt, nextHdr, offset, n).offset <= offset + 2048 * (n - 1)
    decreases n
  {
    match Inspect(pkt, nextHdr, offset) {
      case Stop(_) =>
      case Advance(next, len) =>
        WalkAdvances(pkt, next, offset + len, n - 1);
    }
  }

  /** A header whose declared length runs past the end of the packet: the walk reads its first
      bytes, and then stops behind the packet, at a protocol it need not read anything for. */
  ghost predicate Overruns(pkt: seq<byte>, kind: byte, offset: nat, end: nat, proto: byte) {
    && (IsOptions(kind) || kind == AUTHENTICATION)
    && offset + 2 <= |pkt| < end && !IsExtension(proto) && pkt[offset] == proto
    && end == offset + if IsOptions(kind) then OptionsLen(pkt[offset + 1]) else AuthenticationLen(pkt[offset + 1])
  }

  /** A packet reads as the chain hs up to such a header of type kind. */
  ghost predicate ReadsBeyond(
    pkt: seq<byte>, nextHdr: byte, offset: nat, end: nat, proto: byte, hs: Chain, kind: byte)
  {
    && hs.Valid() && hs.FirstType(kind) == nextHdr && FoundAt(pkt, offset, hs.Encode(kind))
    && Overruns(pkt, kind, offset + |hs.Encode(kind)|, end, proto)
  }

  lemma OverrunInspected(pkt: seq<byte>, kind: byte, offset: nat, end: nat, proto: byte)
    ensures Overruns(pkt, kind, offset, end, proto) <==>
      && Inspect(pkt, kind, offset).Advance? && !IsExtension(proto) && |pkt| < end
      && Inspect(pkt, kind, offset) == Advance(proto, end - offset)
  {
  }

  /** Behind the packet no extension header can be read. */
  lemma BeyondThePacket(pkt: seq<byte>, nextHdr: byte, offset: nat, n: nat)
    requires offset > |pkt|
    ensures Walk(pkt, nextHdr, offset, n) ==
      if n > 0 && !IsExtension(nextHdr) then Found(offset, nextHdr) else Failed
  {
  }

  /** Where such a header follows a chain, the walk ends behind the packet. */
  lemma OverrunWalked(pkt: seq<byte>, nextHdr: byte, offset: nat, n: nat, end: nat, proto: byte, hs: Chain, kind: byte)
    requires ReadsBeyond(pkt, nextHdr, offset, end, proto, hs, kind) && hs.Length() + 1 < n
    ensures Walk(pkt, nextHdr, offset, n) == Found(end, proto)
  {
    hide Inspect, Overruns;
    var at := offset + |hs.Encode(kind)|;
    WalkThroughChain(pkt, offset, hs, kind, n - hs.Length());
    OverrunInspected(pkt, kind, at, end, proto);
    BeyondThePacket(pkt, proto, end, n - hs.Length() - 1);
  }

  lemma ReadsBeyondLink(
    pkt: seq<byte>, offset: nat, end: nat, proto: byte, h: Header, next: byte, rest: Chain, kind: byte)
    requires h.Valid() && !h.IsTrueFragment() && FoundAt(pkt, offset, h.Encode(next))
    requires ReadsBeyond(pkt, next, offset + |h.Encode(next)|, end, proto, rest, kind)
    ensures ReadsBeyond(pkt, h.Kind(), offset, end, proto, Link(h, rest), kind)
  {
    hide Overruns;
    FoundAtSplit(pkt, offset, h.Encode(next), rest.Encode(kind));
  }

  /** Conversely, a walk that ends behind the packet got there by such a header. */
  lemma {:induction false} WalkFindsOverrun(pkt: seq<byte>, nextHdr: byte, offset: nat, n: nat)
    returns (hs: Chain, kind: byte)
    requires offset <= |pkt|
    requires Walk(pkt, nextHdr, offset, n).Found? && Walk(pkt, nextHdr, offset, n).offset > |pkt|
    ensures hs.Length() + 1 < n
    ensures var Found(end, proto) := Walk(pkt, nextHdr, offset, n);
      ReadsBeyond(pkt, nextHdr, offset, end, proto, hs, kind)
    decreases n
  {
    hide ReadsBeyond, Overruns;
    hs, kind := End, nextHdr;
    var Found(end, proto) := Walk(pkt, nextHdr, offset, n);
    var next, len := StepOver(pkt, nextHdr, offset, n);
    if offset + len > |pkt| {
      BeyondThePacket(pkt, next, offset + len, n - 1);
      OverrunInspected(pkt, nextHdr, offset, end, proto);
      OverrunAtOnce(pkt, nextHdr, offset, end, proto);
    } else {
      var rest;
      rest, kind := WalkFindsOverrun(pkt, next, offset + len, n - 1);
      var h := ReadHeader(pkt, nextHdr, offset);
      InspectInvertsEncode(pkt, offset, h, pkt[offset]);
      ReadsBeyondLink(pkt, offset, end, proto, h, next, rest, kind);
      hs := Link(h, rest);
    }
  }

  /** A walk that does not end where it is takes a step. */
  lemma StepOver(pkt: seq<byte>, nextHdr: byte, offset: nat, n: nat) returns (next: byte, len: nat)
    requires Walk(pkt, nextHdr, offset, n).Found? && Walk(pkt, nextHdr, offset, n).offset != offset
    ensures n > 0 && offset < |pkt| && pkt[offset] == next && Inspect(pkt, nextHdr, offset) == Advance(next, len)
    ensures Walk(pkt, nextHdr, offset, n) == Walk(pkt, next, offset + len, n - 1)
  {
    var v := Inspect(pkt, nextHdr, offset);
    next, len := v.nextHdr, v.len;
  }

  lemma OverrunAtOnce(pkt: seq<byte>, kind: byte, offset: nat, end: nat, proto: byte)
    requires Overruns(pkt, kind, offset, end, proto)
    ensures ReadsBeyond(pkt, kind, offset, end, proto, End, kind)
  {
  }

  /** The walk and the specification agree on every packet: a transport header is reported exactly
      when a chain of fewer than n headers leads to it inside the packet, or when the last of
      fewer than n headers runs past the packet's end. */
  lemma WalkIffChain(pkt: seq<byte>, nextHdr: byte, offset: nat, n: nat, end: nat, proto: byte)
    requires offset <= |pkt|
    ensures Walk(pkt, nextHdr, offset, n) == Found(end, proto) <==>
      if end <= |pkt| then exists hs: Chain :: hs.Length() < n && ReadsAs(pkt, nextHdr, offset, end, proto, hs)
      else exists hs: Chain, kind: byte :: hs.Length() + 1 < n && ReadsBeyond(pkt, nextHdr, offset, end, proto, hs, kind)
  {
    if end <= |pkt| {
      WalkIffInside(pkt, nextHdr, offset, n, end, proto);
    } else {
      WalkIffBeyond(pkt, nextHdr, offset, n, end, proto);
    }
  }

  lemma WalkIffBeyond(pkt: seq<byte>, nextHdr: byte, offset: nat, n: nat, end: nat, proto: byte)
    requires offset <= |pkt| < end
    ensures Walk(pkt, nextHdr, offset, n) == Found(end, proto) <==>
      exists hs: Chain, kind: byte :: hs.Length() + 1 < n && ReadsBeyond(pkt, nextHdr, offset, end, proto, hs, kind)
  {
    hide ReadsBeyond, Walk;
    if Walk(pkt, nextHdr, offset, n) == Found(end, proto) {
      var hs, kind := WalkFindsOverrun(pkt, nextHdr, offset, n);
    }
    forall hs: Chain, kind: byte | hs.Length() + 1 < n && ReadsBeyond(pkt, nextHdr, offset, end, proto, hs, kind)
      ensures Walk(pkt, nextHdr, offset, n) == Found(end, proto)
    {
      OverrunWalked(pkt, nextHdr, offset, n, end, proto, hs, kind);
    }
  }

  lemma WalkIffInside(pkt: seq<byte>, nextHdr: byte, offset: nat, n: nat, end: nat, proto: byte)
    requires end <= |pkt|
    ensures Walk(pkt, nextHdr, offset, n) == Found(end, proto)
       <==> exists hs: Chain :: hs.Length() < n && ReadsAs(pkt, nextHdr, offset, end, proto, hs)
  {
    if Walk(pkt, nextHdr, offset, n) == Found(end, proto) {
      var hs := WalkFindsChain(pkt, nextHdr, offset, n);
    }
    forall hs: Chain | hs.Length() < n && ReadsAs(pkt, nextHdr, offset, end, proto, hs)
      ensures Walk(pkt, nextHdr, offset, n) == Found(end, proto)
    {
      if proto == 0 {
        var frag := ReadFragment(pkt, end);
        WalkStopsAtFragment(pkt, offset, hs, frag, pkt[end], n);
      } else {
        WalkInvertsEncoding(pkt, offset, hs, proto, n);
      }
    }
  }

  // ---------------------------------------------------------------------------
  // The walk in numbers: header types and length units as the standards give them.

  /** Hop-by-hop options, routing and destination options are stepped over in units of eight bytes. */
  lemma OptionsStepped(pkt: seq<byte>, k: byte, offset: nat, next: byte, body: seq<byte>, n: nat)
    requires k == 0 || k == 43 || k == 60
    requires |body| % 8 == 6 && |body| <= 2046 && FoundAt(pkt, offset, [next, (|body| - 6) / 8] + body)
    ensures Walk(pkt, k, offset, n + 1) == Walk(pkt, next, offset + |body| + 2, n)
  {
    ByteFound(pkt, offset, [next, (|body| - 6) / 8] + body, 0);
    ByteFound(pkt, offset, [next, (|body| - 6) / 8] + body, 1);
    assert (|body| - 6) / 8 * 8 + 8 == |body| + 2;
    hide FoundAt;
  }

  /** An authentication header is stepped over in units of four bytes, its length being two less. */
  lemma AuthenticationStepped(pkt: seq<byte>, offset: nat, next: byte, icv: seq<byte>, n: nat)
    requires |icv| % 4 == 2 && 6 <= |icv| <= 1026 && FoundAt(pkt, offset, [next, (|icv| - 6) / 4] + icv)
    ensures Walk(pkt, 51, offset, n + 1) == Walk(pkt, next, offset + |icv| + 2, n)
  {
    ByteFound(pkt, offset, [next, (|icv| - 6) / 4] + icv, 0);
    ByteFound(pkt, offset, [next, (|icv| - 6) / 4] + icv, 1);
    assert ((|icv| - 6) / 4 + 2) * 4 == |icv| + 2;
    hide FoundAt;
  }

  /** A fragment header is stepped over if its offset is 0 and no fragments follow; otherwise the walk
      stops at it, with protocol 0. */
  lemma FragmentStepped(pkt: seq<byte>, offset: nat, next: byte, reserved: byte, hi: byte, lo: byte, id: seq<byte>, n: nat)
    requires |id| == 4 && FoundAt(pkt, offset, [next, reserved, hi, lo] + id)
    ensures Walk(pkt, 44, offset, n + 1) ==
      if hi == 0 && lo < 8 && lo % 2 == 0 then Walk(pkt, next, offset + 8, n) else Found(offset, 0)
  {
    var bytes := [next, reserved, hi, lo] + id;
    ByteFound(pkt, offset, bytes, 0);
    ByteFound(pkt, offset, bytes, 2);
    ByteFound(pkt, offset, bytes, 3);
    assert (hi * 256 + lo) / 8 == 0 <==> hi == 0 && lo < 8;
    assert (hi * 256 + lo) % 2 == lo % 2;
    hide FoundAt;
  }

  lemma ByteFound(pkt: seq<byte>, offset: nat, bytes: seq<byte>, i: nat)
    requires FoundAt(pkt, offset, bytes) && i < |bytes|
    ensures offset + |bytes| <= |pkt| && pkt[offset + i] == bytes[i]
  {
    assert pkt[offset + i] == pkt[offset..offset + |bytes|][i];
  }

  /** Every other type is the transport protocol, found where it is announced. */
  lemma OthersFound(pkt: seq<byte>, k: byte, offset: nat, n: nat)
    requires k != 0 && k != 43 && k != 44 && k != 51 && k != 60
    ensures Walk(pkt, k, offset, n + 1) == Found(offset, k)
  {
  }

  /** A header of which too little is there to tell its length is an error. */
  lemma CutHeaderFails(pkt: seq<byte>, k: byte, offset: nat, n: nat)
    requires ((k == 0 || k == 43 || k == 51 || k == 60) && offset + 2 > |pkt|) || (k == 44 && offset + 8 > |pkt|)
    ensures Walk(pkt, k, offset, n) == Failed
  {
  }

  /** No extension header type is ever reported as a protocol, but for 0, which stands for a fragment. */
  lemma {:induction false} NeverAnExtension(pkt: seq<byte>, k: byte, offset: nat, n: nat)
    requires Walk(pkt, k, offset, n).Found?
    ensures var proto := Walk(pkt, k, offset, n).proto; proto != 43 && proto != 44 && proto != 51 && proto != 60
    decreases n
  {
    match Inspect(pkt, k, offset) {
      case Advance(next, len) => NeverAnExtension(pkt, next, offset + len, n - 1);
      case _ =>
    }
  }
}
