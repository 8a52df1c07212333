/**
 Tailing a growing log file by byte offset: each poll reads from the stored offset, returns
 the complete lines, and holds an unterminated last line back.
 */
module LogTailer {
  import opened Bits
  import opened Common

  const NEWLINE: byte := 10
  const CARRIAGE_RETURN: byte := 13

  type Text = seq<byte>

  // ---------------------------------------------------------------------------
  // A file as its complete lines and an unterminated rest.

  function CutLines(s: Text): seq<Text> {
    if s == [] then []
    else if s[|s| - 1] == NEWLINE then CutLines(s[..|s| - 1]) + [CutTail(s[..|s| - 1])]
    else CutLines(s[..|s| - 1])
  }

  function CutTail(s: Text): Text {
    if s == [] || s[|s| - 1] == NEWLINE then [] else CutTail(s[..|s| - 1]) + [s[|s| - 1]]
  }

  /** The bytes of complete lines. */
  function Join(ls: seq<Text>): Text {
    if ls == [] then [] else Join(ls[..|ls| - 1]) + ls[|ls| - 1] + [NEWLINE]
  }

  lemma {:induction false} CutIsInverse(s: Text)
    ensures s == Join(CutLines(s)) + CutTail(s)
    ensures NEWLINE !in CutTail(s)
  {
    if s != [] {
      var t := s[..|s| - 1];
      CutIsInverse(t);
      assert s == t + [s[|s| - 1]];
      if s[|s| - 1] == NEWLINE {
        assert CutLines(s)[..|CutLines(t)|] == CutLines(t);
      }
    }
  }

  /** Text after a line boundary is cut as if it stood alone. */
  lemma {:induction false} CutAppend(ls: seq<Text>, s: Text, t: Text)
    requires CutLines(s) == ls && CutTail(s) == []
    ensures CutLines(s + t) == ls + CutLines(t) && CutTail(s + t) == CutTail(t)
  {
    if t == [] {
      assert s + t == s;
    } else {
      var t' := t[..|t| - 1];
      CutAppend(ls, s, t');
      assert (s + t)[..|s + t| - 1] == s + t';
    }
  }

  /** Appending to a file keeps its complete lines as they are. */
  lemma {:induction false} CutGrows(s: Text, t: Text)
    requires s <= t
    ensures CutLines(s) <= CutLines(t)
    decreases |t|
  {
    if s == t {
    } else {
      var t' := t[..|t| - 1];
      assert s <= t';
      CutGrows(s, t');
    }
  }

  lemma {:induction false} CutOfJoin(s: Text, k: nat)
    requires k <= |CutLines(s)|
    ensures |Join(CutLines(s)[..k])| <= |s|
    ensures var p := s[..|Join(CutLines(s)[..k])|];
      && p == Join(CutLines(s)[..k])
      && CutLines(p) == CutLines(s)[..k] && CutTail(p) == []
    decreases |s|
  {
    var ls := CutLines(s);
    if s == [] {
    } else {
      var t := s[..|s| - 1];
      if k <= |CutLines(t)| {
        CutOfJoin(t, k);
        assert CutLines(t)[..k] == ls[..k];
        var n := |Join(ls[..k])|;
        assert s[..n] == t[..n];
      } else {
        CutIsInverse(s);
        assert ls[..k] == ls;
        assert s == Join(ls);
        assert s[..|Join(ls)|] == s;
      }
    }
  }

  /** The byte position behind the first k lines. */
  function OffsetOf(s: Text, k: nat): nat
    requires k <= |CutLines(s)|
  {
    |Join(CutLines(s)[..k])|
  }

  /** From the offset behind k lines, exactly the lines after them and the tail remain. */
  lemma RestOfFile(s: Text, k: nat)
    requires k <= |CutLines(s)|
    ensures OffsetOf(s, k) <= |s|
    ensures CutLines(s[OffsetOf(s, k)..]) == CutLines(s)[k..]
    ensures CutTail(s[OffsetOf(s, k)..]) == CutTail(s)
  {
    CutOfJoin(s, k);
    var n := OffsetOf(s, k);
    CutAppend(CutLines(s)[..k], s[..n], s[n..]);
    assert s == s[..n] + s[n..];
  }

  // ---------------------------------------------------------------------------
  // Decoding and polling.

  function Each(f: Text -> Text, ls: seq<Text>): (r: seq<Text>)
    ensures |r| == |ls|
  {
    seq(|ls|, i requires 0 <= i < |ls| => f(ls[i]))
  }

  /** Lossy UTF-8 decoding goes line by line: a newline byte belongs to no other character. */
  ghost predicate LineByLine(lossy: Text -> Text) {
    && lossy([]) == []
    && (forall s: Text :: s != [] ==> lossy(s) != [])
    && (forall s: Text :: CutLines(lossy(s)) == Each(lossy, CutLines(s)) && CutTail(lossy(s)) == lossy(CutTail(s)))
  }

  /** `str::lines` drops a carriage return before a newline, and only there. */
  function StripCr(l: Text): Text {
    if l != [] && l[|l| - 1] == CARRIAGE_RETURN then l[..|l| - 1] else l
  }

  /** `str::lines`. */
  function Lines(text: Text): seq<Text> {
    Each(StripCr, CutLines(text)) + (if CutTail(text) == [] then [] else [CutTail(text)])
  }

  datatype Stat = NotFound | StatFailed | Length(len: nat)

  /** Where a poll reads from: the start again, if the file has become shorter. */
  function From(offset: nat, statLen: nat): nat {
    if statLen < offset then 0 else offset
  }

  class TailedFile {
    var offset: nat

    constructor (at: nat)
      ensures offset == at
    {
      offset := at;
    }

    /** One poll: what stat says, and the content then read, unless the file cannot be opened or
        read. A failed poll may still have noticed that the file is shorter than it was. */
    method ReadNewLines(stat: Stat, content: Option<Text>, lossy: Text -> Text) returns (ok: bool, lines: seq<Text>)
      modifies this
      ensures !stat.Length? ==> lines == [] && offset == old(offset) && ok == stat.NotFound?
      ensures stat.Length? && (content.Some? || stat.len == From(old(offset), stat.len)) ==>
        ok && (offset, lines) == Polled(lossy, old(offset), stat.len, if content.Some? then content.value else [])
      ensures stat.Length? && content.None? && stat.len != From(old(offset), stat.len) ==>
        !ok && lines == [] && offset == From(old(offset), stat.len)
    {
      if stat.NotFound? {
        return true, [];
      }
      if stat.StatFailed? {
        return false, [];
      }
      if stat.len < offset {
        offset := 0;
      }
      if stat.len == offset {
        return true, [];
      }
      if content.None? {
        return false, [];
      }
      var buf := if offset <= |content.value| then content.value[offset..] else [];
      if |buf| == 0 {
        return true, [];
      }
      var advance: nat;
      ok := true;
      lines, advance := HoldBack(lossy(buf));
      offset := offset + advance;
    }

    /** The complete lines of a chunk, and how far to move on: not at all if it ends at a newline. */
    method HoldBack(text: Text) returns (lines: seq<Text>, advance: nat)
      ensures lines == Each(StripCr, CutLines(text)) && advance == Advance(text)
    {
      CutIsInverse(text);
      lines, advance := Lines(text), 0;
      if text == [] || text[|text| - 1] != NEWLINE {
        if |lines| > 0 {
          LinesUnterminated(text);
          var incomplete := lines[|lines| - 1];
          lines := lines[..|lines| - 1];
          advance := |text| - |incomplete|;
        } else {
          advance := |text|;
        }
      }
    }
  }

  /** Bytes a poll moves past: all but the held-back tail, or none if there is no tail. */
  function Advance(text: Text): nat {
    CutIsInverse(text);
    if CutTail(text) == [] then 0 else |text| - |CutTail(text)|
  }

  lemma LinesUnterminated(text: Text)
    requires text != [] && text[|text| - 1] != NEWLINE
    ensures Lines(text) == Each(StripCr, CutLines(text)) + [CutTail(text)]
    ensures CutTail(text) != []
  {
  }

  /** The new offset and the lines returned by a poll of an existing file. */
  function Polled(lossy: Text -> Text, offset: nat, statLen: nat, content: Text): (nat, seq<Text>) {
    var from := From(offset, statLen);
    if statLen == from || |content| <= from then (from, [])
    else
      var text := lossy(content[from..]);
      (from + Advance(text), Each(StripCr, CutLines(text)))
  }

  // ---------------------------------------------------------------------------
  // One poll, in terms of lines.

  ghost predicate ValidLines(lossy: Text -> Text, content: Text) {
    forall l :: l in CutLines(content) ==> lossy(l) == l
  }

  lemma EachIdentity(lossy: Text -> Text, ls: seq<Text>)
    requires forall l :: l in ls ==> lossy(l) == l
    ensures Each(lossy, ls) == ls
  {
    assert forall i :: 0 <= i < |ls| ==> ls[i] in ls;
  }

  /** A poll from behind line k returns the lines from k on; it moves by the length of those
      lines as decoded, and only if an unterminated line follows them. */
  lemma PollMeaning(lossy: Text -> Text, content: Text, k: nat)
    requires LineByLine(lossy) && k <= |CutLines(content)|
    ensures OffsetOf(content, k) <= |content|
    ensures var text, rest := lossy(content[OffsetOf(content, k)..]), CutLines(content)[k..];
      && CutLines(text) == Each(lossy, rest)
      && Advance(text) == (if CutTail(content) == [] then 0 else |Join(Each(lossy, rest))|)
  {
    RestOfFile(content, k);
    var buf := content[OffsetOf(content, k)..];
    CutIsInverse(lossy(buf));
    assert CutTail(lossy(buf)) == lossy(CutTail(buf));
  }

  lemma OffsetAfter(content: Text, k: nat)
    requires k <= |CutLines(content)|
    ensures OffsetOf(content, |CutLines(content)|) == OffsetOf(content, k) + |Join(CutLines(content)[k..])|
  {
    RestOfFile(content, k);
    var ls, n := CutLines(content), OffsetOf(content, k);
    CutIsInverse(content);
    CutIsInverse(content[n..]);
    assert ls[..|ls|] == ls;
  }

  lemma SameOffset(s: Text, t: Text, k: nat)
    requires s <= t && k <= |CutLines(s)|
    ensures CutLines(s) <= CutLines(t) && k <= |CutLines(t)| && OffsetOf(s, k) == OffsetOf(t, k)
  {
    CutGrows(s, t);
    assert CutLines(s)[..k] == CutLines(t)[..k];
  }

  // ---------------------------------------------------------------------------
  // Runs of polls on a file that is only ever appended to.

  /** The file as stat saw its length, and as it was when then read. */
  datatype Poll = Poll(statLen: nat, content: Text)

  /** What a poll returned, and whether it moved the offset. */
  datatype Delivery = Delivery(moved: bool, lines: seq<Text>)

  ghost predicate Grows(before: Text, polls: seq<Poll>)
    decreases |polls|
  {
    polls != [] ==>
      && |before| <= polls[0].statLen <= |polls[0].content| && before <= polls[0].content
      && Grows(polls[0].content, polls[1..])
  }

  function Final(before: Text, polls: seq<Poll>): Text {
    if polls == [] then before else polls[|polls| - 1].content
  }

  function Run(lossy: Text -> Text, offset: nat, polls: seq<Poll>): (nat, seq<Delivery>)
    decreases |polls|
  {
    if polls == [] then (offset, [])
    else
      var (next, lines) := Polled(lossy, offset, polls[0].statLen, polls[0].content);
      var (end, rest) := Run(lossy, next, polls[1..]);
      (end, [Delivery(next != offset, lines)] + rest)
  }

  /** All lines returned, and those returned by polls that moved the offset. */
  function Returned(ds: seq<Delivery>): seq<Text> {
    if ds == [] then [] else ds[0].lines + Returned(ds[1..])
  }

  function Settled(ds: seq<Delivery>): seq<Text> {
    if ds == [] then [] else (if ds[0].moved then ds[0].lines else []) + Settled(ds[1..])
  }

  /** The line number reached by a poll from behind line k. */
  function NextLine(poll: Poll, k: nat): (k': nat)
    requires k <= |CutLines(poll.content)|
    ensures k <= k' <= |CutLines(poll.content)|
  {
    if poll.statLen == OffsetOf(poll.content, k) || CutTail(poll.content) == [] then k
    else |CutLines(poll.content)|
  }

  /** The two ways a poll of valid lines ends: it sees nothing new, or it reads to the end. */
  lemma PollReads(lossy: Text -> Text, content: Text, k: nat, statLen: nat)
    requires LineByLine(lossy) && ValidLines(lossy, content) && k <= |CutLines(content)|
    requires OffsetOf(content, k) <= statLen <= |content|
    ensures Polled(lossy, OffsetOf(content, k), statLen, content) ==
      if statLen == OffsetOf(content, k) then (statLen, [])
      else if CutTail(content) == [] then (OffsetOf(content, k), Each(StripCr, CutLines(content)[k..]))
      else (OffsetOf(content, |CutLines(content)|), Each(StripCr, CutLines(content)[k..]))
  {
    hide CutLines, CutTail, Join, Advance, LineByLine;
    var rest := CutLines(content)[k..];
    PollMeaning(lossy, content, k);
    EachIdentity(lossy, rest);
    OffsetAfter(content, k);
  }

  lemma OffsetStrict(content: Text, k: nat)
    requires k < |CutLines(content)|
    ensures OffsetOf(content, k) < OffsetOf(content, |CutLines(content)|)
  {
    OffsetAfter(content, k);
    assert |Join(CutLines(content)[k..])| > 0;
  }

  lemma PollStep(lossy: Text -> Text, poll: Poll, k: nat)
    requires LineByLine(lossy) && ValidLines(lossy, poll.content) && k <= |CutLines(poll.content)|
    requires OffsetOf(poll.content, k) <= poll.statLen <= |poll.content|
    ensures var content, k' := poll.content, NextLine(poll, k);
      var (next, lines) := Polled(lossy, OffsetOf(content, k), poll.statLen, content);
      && next == OffsetOf(content, k')
      && (lines == [] || lines == Each(StripCr, CutLines(content)[k..]))
      && (k' > k ==> lines == Each(StripCr, CutLines(content)[k..k']))
      && (next != OffsetOf(content, k) <==> k' > k)
  {
    hide Polled, CutLines, CutTail, OffsetOf;
    PollReads(lossy, poll.content, k, poll.statLen);
    var ls := CutLines(poll.content);
    assert ls[k..|ls|] == ls[k..];
    if k < |ls| {
      OffsetStrict(poll.content, k);
    }
  }

  /** Over any run: the offset stays at a line boundary; the polls that moved it returned, in
      order and once each, exactly the lines passed; and nothing but whole lines is returned. */
  lemma {:induction false} TailRun(lossy: Text -> Text, before: Text, k: nat, polls: seq<Poll>) returns (k': nat)
    requires LineByLine(lossy) && Grows(before, polls) && k <= |CutLines(before)|
    requires ValidLines(lossy, Final(before, polls))
    ensures before <= Final(before, polls) && k <= k' <= |CutLines(Final(before, polls))|
    ensures Outcome(Final(before, polls), k, k', Run(lossy, OffsetOf(before, k), polls))
    decreases |polls|
  {
    hide CutLines, CutTail, OffsetOf, Polled, LineByLine;
    k' := k;
    if polls == [] {
      NothingRun(before, k);
    } else {
      var poll, content := polls[0], Final(before, polls);
      FinalGrows(poll.content, polls[1..]);
      assert content == Final(poll.content, polls[1..]);
      ValidPrefix(lossy, poll.content, content);
      SameOffset(before, poll.content, k);
      OffsetInside(before, k);
      PollStep(lossy, poll, k);
      var mid := NextLine(poll, k);
      k' := TailRun(lossy, poll.content, mid, polls[1..]);
      var (next, lines) := Polled(lossy, OffsetOf(poll.content, k), poll.statLen, poll.content);
      ComposeRuns(poll.content, content, k, mid, k', lines, Run(lossy, next, polls[1..]).0, Run(lossy, next, polls[1..]).1);
    }
  }

  /** The run ended behind line k', its moving polls returned lines k to k'-1, and all it returned are lines. */
  ghost predicate Outcome(content: Text, k: nat, k': nat, result: (nat, seq<Delivery>)) {
    && k <= k' <= |CutLines(content)| && result.0 == OffsetOf(content, k')
    && Settled(result.1) == Each(StripCr, CutLines(content)[k..k'])
    && forall l :: l in Returned(result.1) ==> l in Each(StripCr, CutLines(content))
  }

  lemma NothingRun(content: Text, k: nat)
    requires k <= |CutLines(content)|
    ensures Outcome(content, k, k, (OffsetOf(content, k), []))
  {
    assert CutLines(content)[k..k] == [];
  }

  lemma OffsetInside(content: Text, k: nat)
    requires k <= |CutLines(content)|
    ensures OffsetOf(content, k) <= |content|
  {
    CutOfJoin(content, k);
  }

  lemma ValidPrefix(lossy: Text -> Text, s: Text, t: Text)
    requires s <= t && ValidLines(lossy, t)
    ensures ValidLines(lossy, s) && CutLines(s) <= CutLines(t)
  {
    CutGrows(s, t);
    assert forall l :: l in CutLines(s) ==> l in CutLines(t);
  }

  /** A poll from line k to line mid followed by a run from there is a run from line k. */
  lemma ComposeRuns(now: Text, content: Text, k: nat, mid: nat, k': nat, lines: seq<Text>, end: nat, ds: seq<Delivery>)
    requires CutLines(now) <= CutLines(content) && k <= mid <= |CutLines(now)|
    requires Outcome(content, mid, k', (end, ds))
    requires lines == [] || lines == Each(StripCr, CutLines(now)[k..])
    requires mid > k ==> lines == Each(StripCr, CutLines(now)[k..mid])
    ensures Outcome(content, k, k', (end, [Delivery(mid > k, lines)] + ds))
  {
    hide CutLines, OffsetOf;
    var ls, some := CutLines(content), CutLines(now);
    var all := [Delivery(mid > k, lines)] + ds;
    assert all[1..] == ds;
    assert Returned(all) == lines + Returned(ds);
    LinesKept(some, ls, k);
    if mid > k {
      assert some[k..mid] == ls[k..mid];
      assert Each(StripCr, ls[k..mid]) + Each(StripCr, ls[mid..k']) == Each(StripCr, ls[k..k']);
    } else {
      assert Settled(all) == Settled(ds);
    }
  }

  lemma LinesKept(some: seq<Text>, all: seq<Text>, k: nat)
    requires some <= all && k <= |some|
    ensures forall l :: l in Each(StripCr, some[k..]) ==> l in Each(StripCr, all)
  {
    forall l | l in Each(StripCr, some[k..])
      ensures l in Each(StripCr, all)
    {
      var i :| 0 <= i < |some| - k && Each(StripCr, some[k..])[i] == l;
      assert Each(StripCr, all)[k + i] == l;
    }
  }

  lemma {:induction false} FinalGrows(before: Text, polls: seq<Poll>)
    requires Grows(before, polls)
    ensures before <= Final(before, polls)
    decreases |polls|
  {
    if polls != [] {
      FinalGrows(polls[0].content, polls[1..]);
    }
  }

  /** No poll returned lines without moving on. */
  ghost predicate NoRepeats(ds: seq<Delivery>) {
    forall d :: d in ds ==> d.moved || d.lines == []
  }

  lemma {:induction false} RepeatsCount(ds: seq<Delivery>)
    ensures Returned(ds) == Settled(ds) <==> NoRepeats(ds)
    ensures |Returned(ds)| >= |Settled(ds)|
  {
    if ds != [] {
      RepeatsCount(ds[1..]);
      assert forall d :: d in ds <==> d == ds[0] || d in ds[1..];
      var first, rest := ds[0].lines, ds[1..];
      if ds[0].moved || first == [] {
        assert Returned(ds)[|first|..] == Returned(rest);
        assert Settled(ds)[|first|..] == Settled(rest);
      }
    }
  }

  /** The poll reads a non-empty chunk, and the chunk ends at a newline. */
  predicate EndsAtNewline(poll: Poll, offset: nat) {
    poll.statLen != offset && |poll.content| > offset && poll.content[|poll.content| - 1] == NEWLINE
  }

  /** A poll returns lines without moving on exactly when its chunk has lines and ends at a newline. */
  lemma StuckIff(lossy: Text -> Text, poll: Poll, k: nat)
    requires LineByLine(lossy) && ValidLines(lossy, poll.content) && k <= |CutLines(poll.content)|
    requires OffsetOf(poll.content, k) <= poll.statLen <= |poll.content|
    ensures var content, offset := poll.content, OffsetOf(poll.content, k);
      var (next, lines) := Polled(lossy, offset, poll.statLen, content);
      next == offset && lines != []
      <==> EndsAtNewline(poll, offset)
  {
    PollStep(lossy, poll, k);
    PollMeaning(lossy, poll.content, k);
    RestOfFile(poll.content, k);
    CutIsInverse(poll.content[OffsetOf(poll.content, k)..]);
    EachIdentity(lossy, CutLines(poll.content)[k..]);
  }

  ghost predicate NeverEndsAtNewline(lossy: Text -> Text, offset: nat, polls: seq<Poll>)
    decreases |polls|
  {
    polls != [] ==>
      && !EndsAtNewline(polls[0], offset)
      && NeverEndsAtNewline(lossy, Polled(lossy, offset, polls[0].statLen, polls[0].content).0, polls[1..])
  }

  /** A run returns nothing beyond the lines its offset has passed if and only if no chunk it read
      ended at a newline. */
  lemma {:induction false} NothingAheadIff(lossy: Text -> Text, before: Text, k: nat, polls: seq<Poll>)
    requires LineByLine(lossy) && Grows(before, polls) && k <= |CutLines(before)|
    requires ValidLines(lossy, Final(before, polls))
    ensures var offset := OffsetOf(before, k);
      var ds := Run(lossy, offset, polls).1;
      Returned(ds) == Settled(ds) <==> NeverEndsAtNewline(lossy, offset, polls)
    decreases |polls|
  {
    hide CutLines, CutTail, OffsetOf, Polled, LineByLine;
    var offset := OffsetOf(before, k);
    RepeatsCount(Run(lossy, offset, polls).1);
    if polls != [] {
      var poll, content := polls[0], Final(before, polls);
      FinalGrows(poll.content, polls[1..]);
      assert content == Final(poll.content, polls[1..]);
      ValidPrefix(lossy, poll.content, content);
      SameOffset(before, poll.content, k);
      OffsetInside(before, k);
      PollStep(lossy, poll, k);
      StuckIff(lossy, poll, k);
      NothingAheadIff(lossy, poll.content, NextLine(poll, k), polls[1..]);
      var (next, lines) := Polled(lossy, offset, poll.statLen, poll.content);
      var rest := Run(lossy, next, polls[1..]).1;
      RepeatsCount(rest);
      RepeatsCons(Delivery(next != offset, lines), rest);
    }
  }

  lemma RepeatsCons(d: Delivery, ds: seq<Delivery>)
    ensures NoRepeats([d] + ds) <==> (d.moved || d.lines == []) && NoRepeats(ds)
  {
    assert forall e :: e in [d] + ds <==> e == d || e in ds;
  }

  // ---------------------------------------------------------------------------
  // Which lines are returned, by their numbers, and how often.

  function Range(from: nat, to: nat): (r: seq<nat>)
    ensures |r| == if from <= to then to - from else 0
    ensures forall i :: 0 <= i < |r| ==> r[i] == from + i
  {
    if from <= to then seq(to - from, i requires 0 <= i => from + i) else []
  }

  /** The numbers of the lines that a poll from behind line k returns. */
  function LinesRead(poll: Poll, k: nat): seq<nat>
    requires k <= |CutLines(poll.content)|
  {
    if poll.statLen == OffsetOf(poll.content, k) then [] else Range(k, |CutLines(poll.content)|)
  }

  /** The numbers of the lines that a run from behind line k returns, in order. */
  function Positions(before: Text, k: nat, polls: seq<Poll>): seq<nat>
    requires Grows(before, polls) && k <= |CutLines(before)|
    decreases |polls|
  {
    if polls == [] then []
    else
      SameOffset(before, polls[0].content, k);
      LinesRead(polls[0], k) + Positions(polls[0].content, NextLine(polls[0], k), polls[1..])
  }

  /** The lines with these numbers, as they are returned. */
  ghost predicate AreLines(ls: seq<Text>, content: Text, numbers: seq<nat>) {
    && |ls| == |numbers|
    && forall i :: 0 <= i < |ls| ==>
         numbers[i] < |CutLines(content)| && ls[i] == StripCr(CutLines(content)[numbers[i]])
  }

  lemma PollReturns(lossy: Text -> Text, poll: Poll, k: nat)
    requires LineByLine(lossy) && ValidLines(lossy, poll.content) && k <= |CutLines(poll.content)|
    requires OffsetOf(poll.content, k) <= poll.statLen <= |poll.content|
    ensures AreLines(
      Polled(lossy, OffsetOf(poll.content, k), poll.statLen, poll.content).1, poll.content, LinesRead(poll, k))
  {
    hide Polled, CutLines, CutTail, OffsetOf, LineByLine;
    PollReads(lossy, poll.content, k, poll.statLen);
  }

  lemma AreLinesAppend(
    ls: seq<Text>, now: Text, numbers: seq<nat>, ls': seq<Text>, content: Text, numbers': seq<nat>)
    requires AreLines(ls, now, numbers) && CutLines(now) <= CutLines(content) && AreLines(ls', content, numbers')
    ensures AreLines(ls + ls', content, numbers + numbers')
  {
    hide CutLines, StripCr;
  }

  /** What a run returns are the lines with those numbers. */
  lemma {:induction false} PositionsReturned(lossy: Text -> Text, before: Text, k: nat, polls: seq<Poll>)
    requires LineByLine(lossy) && Grows(before, polls) && k <= |CutLines(before)|
    requires ValidLines(lossy, Final(before, polls))
    ensures AreLines(
      Returned(Run(lossy, OffsetOf(before, k), polls).1), Final(before, polls), Positions(before, k, polls))
    decreases |polls|
  {
    hide CutLines, CutTail, OffsetOf, Polled, LineByLine, AreLines, LinesRead, ValidLines;
    if polls == [] {
      NoLines(before);
    } else {
      var poll, content := polls[0], Final(before, polls);
      FinalGrows(poll.content, polls[1..]);
      assert content == Final(poll.content, polls[1..]);
      ValidPrefix(lossy, poll.content, content);
      SameOffset(before, poll.content, k);
      OffsetInside(before, k);
      PollStep(lossy, poll, k);
      PollReturns(lossy, poll, k);
      var offset := OffsetOf(before, k);
      var (next, lines) := Polled(lossy, offset, poll.statLen, poll.content);
      PositionsReturned(lossy, poll.content, NextLine(poll, k), polls[1..]);
      var rest := Run(lossy, next, polls[1..]).1;
      assert ([Delivery(next != offset, lines)] + rest)[1..] == rest;
      AreLinesAppend(
        lines, poll.content, LinesRead(poll, k),
        Returned(rest), content, Positions(poll.content, NextLine(poll, k), polls[1..]));
    }
  }

  lemma NoLines(content: Text)
    ensures AreLines([], content, [])
  {
  }

  /** No poll but the last reads a chunk that ends at a newline. */
  ghost predicate OnlyLastAtNewline(before: Text, k: nat, polls: seq<Poll>)
    requires Grows(before, polls) && k <= |CutLines(before)|
    decreases |polls|
  {
    if |polls| <= 1 then true
    else
      SameOffset(before, polls[0].content, k);
      && !EndsAtNewline(polls[0], OffsetOf(before, k))
      && OnlyLastAtNewline(polls[0].content, NextLine(polls[0], k), polls[1..])
  }

  ghost predicate Distinct(ns: seq<nat>) {
    forall i, j :: 0 <= i < j < |ns| ==> ns[i] != ns[j]
  }

  ghost predicate Consecutive(ns: seq<nat>, k: nat) {
    forall i :: 0 <= i < |ns| ==> ns[i] == k + i
  }

  /** A poll that does not stop at a newline reads the lines it moves past, and no others. */
  lemma UnstuckReads(poll: Poll, k: nat)
    requires k <= |CutLines(poll.content)| && OffsetOf(poll.content, k) <= poll.statLen <= |poll.content|
    ensures !EndsAtNewline(poll, OffsetOf(poll.content, k)) ==> LinesRead(poll, k) == Range(k, NextLine(poll, k))
    ensures EndsAtNewline(poll, OffsetOf(poll.content, k)) ==>
      NextLine(poll, k) == k < |CutLines(poll.content)| && LinesRead(poll, k) == Range(k, |CutLines(poll.content)|)
  {
    hide OffsetOf;
    TailOfChunk(poll.content, k);
  }

  /** Behind a line boundary, the file ends at a newline exactly if lines and no tail follow. */
  lemma TailOfChunk(content: Text, k: nat)
    requires k <= |CutLines(content)|
    ensures OffsetOf(content, k) <= |content|
    ensures |content| > OffsetOf(content, k) && content[|content| - 1] == NEWLINE ==>
      CutTail(content) == [] && k < |CutLines(content)|
    ensures |content| > OffsetOf(content, k) && CutTail(content) == [] ==> content[|content| - 1] == NEWLINE
  {
    RestOfFile(content, k);
    CutIsInverse(content[OffsetOf(content, k)..]);
  }

  /** After a poll that stopped at a newline, the next one starts over from the same line. */
  lemma ReadAgain(before: Text, k: nat, poll: Poll)
    requires before <= poll.content && |before| <= poll.statLen && k < |CutLines(before)|
    requires k <= |CutLines(poll.content)|
    ensures LinesRead(poll, k) != [] && LinesRead(poll, k)[0] == k
  {
    hide CutLines, OffsetOf;
    SameOffset(before, poll.content, k);
    OffsetStrict(before, k);
    OffsetInside(before, |CutLines(before)|);
  }

  /** A run returns the lines from k on, one after the other, exactly once each, if and only if no
      poll but its last reads a chunk that ends at a newline; otherwise it returns some line twice. */
  lemma {:induction false} ExactlyOnceIff(before: Text, k: nat, polls: seq<Poll>)
    requires Grows(before, polls) && k <= |CutLines(before)|
    ensures var ns := Positions(before, k, polls);
      && (OnlyLastAtNewline(before, k, polls) <==> Consecutive(ns, k))
      && (OnlyLastAtNewline(before, k, polls) <==> Distinct(ns))
      && (ns != [] ==> ns[0] == k)
    decreases |polls|
  {
    hide CutLines, OffsetOf, LinesRead, EndsAtNewline, Consecutive, Distinct, NextLine;
    if polls == [] {
      NoneTwice(k);
    } else {
      var poll, rest := polls[0], polls[1..];
      SameOffset(before, poll.content, k);
      OffsetInside(before, k);
      UnstuckReads(poll, k);
      var k' := NextLine(poll, k);
      ExactlyOnceIff(poll.content, k', rest);
      var first, later := LinesRead(poll, k), Positions(poll.content, k', rest);
      if EndsAtNewline(poll, OffsetOf(before, k)) {
        if rest == [] {
          assert first + [] == first;
          RangeOnce(k, |CutLines(poll.content)|);
        } else {
          SameOffset(poll.content, rest[0].content, k);
          ReadAgain(poll.content, k, rest[0]);
          SecondTime(first, later, k);
        }
      } else {
        JoinedRuns(k, k', later);
        NoneTwice(k');
        assert rest == [] ==> OnlyLastAtNewline(before, k, polls);
      }
    }
  }

  lemma NoneTwice(k: nat)
    ensures Consecutive([], k) && Distinct([])
  {
  }

  lemma RangeOnce(k: nat, m: nat)
    ensures Consecutive(Range(k, m), k) && Distinct(Range(k, m))
  {
  }

  lemma SecondTime(first: seq<nat>, later: seq<nat>, k: nat)
    requires first != [] && first[0] == k && later != [] && later[0] == k
    ensures !Distinct(first + later) && !Consecutive(first + later, k)
  {
    var ns := first + later;
    assert ns[0] == ns[|first|] == k;
  }

  lemma JoinedRuns(k: nat, k': nat, later: seq<nat>)
    requires k <= k' && (later != [] ==> later[0] == k')
    requires Consecutive(later, k') <==> Distinct(later)
    ensures var ns := Range(k, k') + later;
      && (Consecutive(ns, k) <==> Consecutive(later, k'))
      && (Distinct(ns) <==> Distinct(later))
  {
    var first := Range(k, k');
    var ns := first + later;
    assert forall i :: 0 <= i < |later| ==> later[i] == ns[|first| + i];
    if Consecutive(later, k') {
      assert Consecutive(ns, k);
      ConsecutiveDistinct(ns, k);
    } else if Distinct(ns) {
      DistinctTail(first, later);
    }
  }

  lemma ConsecutiveDistinct(ns: seq<nat>, k: nat)
    requires Consecutive(ns, k)
    ensures Distinct(ns)
  {
  }

  lemma DistinctTail(first: seq<nat>, later: seq<nat>)
    requires Distinct(first + later)
    ensures Distinct(later)
  {
    var ns := first + later;
    forall i, j | 0 <= i < j < |later|
      ensures later[i] != later[j]
    {
      assert ns[|first| + i] == later[i] && ns[|first| + j] == later[j];
    }
  }

  /** A file that ends at a newline is returned again by every poll. */
  lemma RepeatsAtNewline()
    ensures var poll := Poll(2, [65, NEWLINE]);
      Returned(Run(s => s, 0, [poll, poll]).1) == [[65], [65]]
  {
    var content: Text := [65, NEWLINE];
    var poll, id := Poll(2, content), (s: Text) => s;
    OneLine(content);
    var once := Delivery(false, [[65]]);
    assert content[0..] == content;
    assert Advance(content) == 0;
    assert Each(StripCr, [[65]]) == [StripCr([65])];
    assert StripCr([65]) == [65];
    assert Polled(id, 0, 2, content) == (0, [[65]]);
    assert [poll, poll][1..] == [poll] && [poll][1..] == [];
    assert Run(id, 0, [poll]).1 == [once];
    assert Run(id, 0, [poll, poll]).1 == [once, once];
    assert [once, once][1..] == [once] && [once][1..] == [];
    assert Returned([once]) == [[65]];
  }

  lemma OneLine(c: Text)
    requires |c| == 2 && c[0] == 65 && c[1] == NEWLINE
    ensures CutLines(c) == [[65]] && CutTail(c) == []
  {
    TerminatedLine([65]);
    assert c == [65] + [NEWLINE];
  }

  // ---------------------------------------------------------------------------
  // Bytes that are not text: the offset moves by the length of the decoded lines.

  /** Replacing invalid bytes never makes text shorter: at most three bytes become one character
      of three. */
  ghost predicate Lengthens(lossy: Text -> Text) {
    forall s: Text :: |lossy(s)| >= |s|
  }

  lemma {:induction false} JoinLengthens(lossy: Text -> Text, ls: seq<Text>)
    requires Lengthens(lossy)
    ensures |Join(Each(lossy, ls))| >= |Join(ls)|
  {
    if ls != [] {
      var n := |ls| - 1;
      JoinLengthens(lossy, ls[..n]);
      assert Each(lossy, ls)[..n] == Each(lossy, ls[..n]);
      assert |lossy(ls[n])| >= |ls[n]|;
    }
  }

  ghost predicate IsBoundary(content: Text, offset: nat) {
    exists j: nat :: j <= |CutLines(content)| && OffsetOf(content, j) == offset
  }

  lemma BoundariesInOrder(content: Text, j: nat)
    requires j <= |CutLines(content)|
    ensures OffsetOf(content, j) <= OffsetOf(content, |CutLines(content)|)
  {
    OffsetAfter(content, j);
  }

  /** A poll that moves from one line boundary ends at another if and only if the lines it passes
      are as long decoded as they are in the file. */
  lemma BoundaryKeptIff(lossy: Text -> Text, content: Text, k: nat, statLen: nat)
    requires LineByLine(lossy) && Lengthens(lossy) && k <= |CutLines(content)|
    requires OffsetOf(content, k) < statLen <= |content| && CutTail(content) != []
    ensures var rest := CutLines(content)[k..];
      IsBoundary(content, Polled(lossy, OffsetOf(content, k), statLen, content).0)
      <==> |Join(Each(lossy, rest))| == |Join(rest)|
  {
    hide CutLines, CutTail, Join, Advance, LineByLine;
    var rest, n := CutLines(content)[k..], |CutLines(content)|;
    PollMeaning(lossy, content, k);
    JoinLengthens(lossy, rest);
    OffsetAfter(content, k);
    var next := Polled(lossy, OffsetOf(content, k), statLen, content).0;
    assert next == OffsetOf(content, k) + |Join(Each(lossy, rest))|;
    if |Join(Each(lossy, rest))| == |Join(rest)| {
      assert OffsetOf(content, n) == next;
    }
    if j: nat :| j <= n && OffsetOf(content, j) == next {
      BoundariesInOrder(content, j);
    }
  }

  /** One invalid byte in a line takes the offset two bytes too far: past the end of this file,
      so that the next poll starts over; and once a line has been appended, into that line. */
  lemma InvalidByteOvershoots(lossy: Text -> Text)
    requires lossy([0xff, NEWLINE, 65]) == [0xef, 0xbf, 0xbd, NEWLINE, 65]
    requires lossy([NEWLINE]) == [NEWLINE]
    ensures var file: Text := [0xff, NEWLINE, 65];
      && Polled(lossy, 0, 3, file) == (4, [[0xef, 0xbf, 0xbd]])
      && Polled(lossy, 4, 3, file) == (4, [[0xef, 0xbf, 0xbd]])
      && Polled(lossy, 4, 5, file + [66, NEWLINE]) == (4, [[]])
      && CutLines(file + [66, NEWLINE]) == [[0xff], [65, 66]]
  {
    hide StripCr, CutLines, CutTail, Advance;
    var file: Text := [0xff, NEWLINE, 65];
    var bad: Text := [0xef, 0xbf, 0xbd];
    assert file[0..] == file && (file + [66, NEWLINE])[4..] == [NEWLINE];
    LineAndTail(bad, [65]);
    LineAndTail([], []);
    assert bad + [NEWLINE] + [65] == [0xef, 0xbf, 0xbd, NEWLINE, 65];
    assert [] + [NEWLINE] + [] == [NEWLINE];
    NoReturn(bad);
    NoReturn([]);
    TwoLines([0xff], [65, 66]);
    assert [0xff] + [NEWLINE] + [65, 66] + [NEWLINE] == file + [66, NEWLINE];
  }

  lemma LineAndTail(w: Text, t: Text)
    requires NEWLINE !in w && NEWLINE !in t
    ensures var s := w + [NEWLINE] + t;
      CutLines(s) == [w] && CutTail(s) == t && Advance(s) == if t == [] then 0 else |w| + 1
  {
    TerminatedLine(w);
    CutWord(t);
    CutAppend([w], w + [NEWLINE], t);
    assert [w] + [] == [w];
  }

  lemma TwoLines(v: Text, w: Text)
    requires NEWLINE !in v && NEWLINE !in w
    ensures CutLines(v + [NEWLINE] + w + [NEWLINE]) == [v, w]
  {
    TerminatedLine(v);
    TerminatedLine(w);
    CutAppend([v], v + [NEWLINE], w + [NEWLINE]);
    assert v + [NEWLINE] + w + [NEWLINE] == v + [NEWLINE] + (w + [NEWLINE]);
    assert [v] + [w] == [v, w];
  }

  lemma NoReturn(w: Text)
    requires w == [] || w[|w| - 1] != CARRIAGE_RETURN
    ensures Each(StripCr, [w]) == [w]
  {
    assert StripCr(w) == w;
    assert Each(StripCr, [w])[0] == StripCr(w);
  }

  /** Text without a newline is one unterminated line. */
  lemma {:induction false} CutWord(w: Text)
    requires NEWLINE !in w
    ensures CutLines(w) == [] && CutTail(w) == w
  {
    if w != [] {
      CutWord(w[..|w| - 1]);
      assert w == w[..|w| - 1] + [w[|w| - 1]];
    }
  }

  lemma TerminatedLine(w: Text)
    requires NEWLINE !in w
    ensures CutLines(w + [NEWLINE]) == [w] && CutTail(w + [NEWLINE]) == []
  {
    CutWord(w);
    assert (w + [NEWLINE])[..|w|] == w;
    assert [] + [w] == [w];
  }

  // ---------------------------------------------------------------------------
  // In bytes.

  /** Lines end at byte 10 and nowhere else; a byte 13 before that is dropped, and only there. */
  lemma LineEnds(v: Text, w: Text, tail: Text)
    requires 10 !in v && 10 !in w && 10 !in tail
    ensures var text := v + [10] + w + [13, 10] + tail;
      && CutLines(text) == [v, w + [13]] && CutTail(text) == tail
      && (v == [] || v[|v| - 1] != 13 ==> Each(StripCr, CutLines(text)) == [v, w])
    ensures Lines(tail) == if tail == [] then [] else [tail]
  {
    TwoLinesAndTail(v, w + [13], tail);
    assert v + [10] + (w + [13]) + [10] + tail == v + [10] + w + [13, 10] + tail;
    CutWord(tail);
    hide CutLines, CutTail;
    if v == [] || v[|v| - 1] != 13 {
      assert StripCr(v) == v && StripCr(w + [13]) == w;
    }
  }

  lemma TwoLinesAndTail(v: Text, w: Text, tail: Text)
    requires NEWLINE !in v && NEWLINE !in w && NEWLINE !in tail
    ensures var text := v + [NEWLINE] + w + [NEWLINE] + tail; CutLines(text) == [v, w] && CutTail(text) == tail
  {
    hide CutLines, CutTail;
    var lines := v + [NEWLINE] + w + [NEWLINE];
    TwoLines(v, w);
    CutWord(tail);
    EndsCut(v + [NEWLINE] + w);
    CutAppend([v, w], lines, tail);
    assert [v, w] + [] == [v, w];
  }

  lemma EndsCut(s: Text)
    ensures CutTail(s + [NEWLINE]) == []
  {
  }

  /** A file that is shorter than the offset is read from the start. */
  lemma TruncatedStartsOver(lossy: Text -> Text, offset: nat, statLen: nat, content: Text)
    requires statLen < offset
    ensures Polled(lossy, offset, statLen, content) == Polled(lossy, 0, statLen, content)
  {
  }
}
