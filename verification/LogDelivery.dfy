/**
 Shipping the lines of a file that is tailed: what the polls of a growing file come to at the other
 end, line by line.
 */
module LogDelivery {
  import opened Common
  import T = LogTailer
  import S = LogShipper

  type Text = T.Text

  /** The lines of one poll as the shipper is given them. */
  function EventsOfPoll(source: S.Source, lines: seq<Text>, show: Text -> string, at: int): (events: seq<S.Event>)
    ensures |events| == |lines|
    ensures forall e :: e in events ==> e.Line?
  {
    seq(|lines|, i requires 0 <= i < |lines| => S.Line(source, show(lines[i]), at))
  }

  /** The lines of a run of polls, the first of them having that number. */
  function EventsOfRun(
    source: S.Source, ds: seq<T.Delivery>, show: Text -> string, clock: nat -> int, first: nat): seq<S.Event>
    decreases |ds|
  {
    if ds == [] then []
    else EventsOfPoll(source, ds[0].lines, show, clock(first)) + EventsOfRun(source, ds[1..], show, clock, first + 1)
  }

  lemma RunUnfolds(lossy: Text -> Text, offset: nat, polls: seq<T.Poll>, source: S.Source, show: Text -> string,
                   clock: nat -> int, first: nat)
    requires polls != []
    ensures var (next, lines) := T.Polled(lossy, offset, polls[0].statLen, polls[0].content);
      && T.Run(lossy, offset, polls).0 == T.Run(lossy, next, polls[1..]).0
      && EventsOfRun(source, T.Run(lossy, offset, polls).1, show, clock, first)
         == EventsOfPoll(source, lines, show, clock(first))
            + EventsOfRun(source, T.Run(lossy, next, polls[1..]).1, show, clock, first + 1)
  {
    var (next, lines) := T.Polled(lossy, offset, polls[0].statLen, polls[0].content);
    var rest := T.Run(lossy, next, polls[1..]).1;
    assert ([T.Delivery(next != offset, lines)] + rest)[1..] == rest;
  }

  /** The polling loop of `spawn_from_paths` for one file: the shipper ends up as if it had been
      given the lines of all polls one by one. */
  method TailAndShip(
      tail: T.TailedFile, shipper: S.LogShipper, source: S.Source, polls: seq<T.Poll>,
      lossy: Text -> Text, show: Text -> string, clock: nat -> int,
      ghost before: seq<S.Event>, ghost kept: seq<string>)
    requires S.Tracked(before, kept, shipper.appStarted, S.Concat(shipper.flushed) + shipper.batch, shipper.buffer)
    modifies tail, shipper
    ensures tail.offset == T.Run(lossy, old(tail.offset), polls).0
    ensures S.Tracked(
      before + EventsOfRun(source, T.Run(lossy, old(tail.offset), polls).1, show, clock, 0),
      kept, shipper.appStarted, S.Concat(shipper.flushed) + shipper.batch, shipper.buffer)
  {
    hide S.Tracked, S.Concat, T.Polled, T.Run, EventsOfRun, S.Added, T.From;
    ghost var all := EventsOfRun(source, T.Run(lossy, tail.offset, polls).1, show, clock, 0);
    ghost var seen := [];
    var i := 0;
    assert polls[0..] == polls && before + [] == before && [] + all == all;
    while i < |polls|
      invariant i <= |polls|
      invariant T.Run(lossy, tail.offset, polls[i..]).0 == T.Run(lossy, old(tail.offset), polls).0
      invariant seen + EventsOfRun(source, T.Run(lossy, tail.offset, polls[i..]).1, show, clock, i) == all
      invariant S.Tracked(before + seen, kept, shipper.appStarted, S.Concat(shipper.flushed) + shipper.batch, shipper.buffer)
    {
      RunUnfolds(lossy, tail.offset, polls[i..], source, show, clock, i);
      assert polls[i..][0] == polls[i] && polls[i..][1..] == polls[i + 1..];
      var ok, lines := tail.ReadNewLines(T.Length(polls[i].statLen), Some(polls[i].content), lossy);
      var events := EventsOfPoll(source, lines, show, clock(i));
      shipper.ShipPolledLines(before + seen, kept, events);
      assert before + (seen + events) == (before + seen) + events;
      seen := seen + events;
      i := i + 1;
    }
    assert polls[|polls|..] == [];
    NothingLeft(lossy, tail.offset, source, show, clock, i);
    assert seen + [] == seen;
  }

  lemma NothingLeft(lossy: Text -> Text, offset: nat, source: S.Source, show: Text -> string, clock: nat -> int, i: nat)
    ensures T.Run(lossy, offset, []) == (offset, [])
    ensures EventsOfRun(source, [], show, clock, i) == []
  {
  }

  /** The events are the returned lines, one for one. */
  ghost predicate AreEvents(events: seq<S.Event>, source: S.Source, lines: seq<Text>, show: Text -> string) {
    && |events| == |lines|
    && forall i :: 0 <= i < |events| ==>
         events[i].Line? && events[i].source == source && events[i].message == show(lines[i])
  }

  lemma {:induction false} EventsAreLines(
    source: S.Source, ds: seq<T.Delivery>, show: Text -> string, clock: nat -> int, first: nat)
    ensures AreEvents(EventsOfRun(source, ds, show, clock, first), source, T.Returned(ds), show)
    decreases |ds|
  {
    if ds != [] {
      EventsAreLines(source, ds[1..], show, clock, first + 1);
    }
  }

  /** The entries are the lines of the file with these numbers, in this order. */
  ghost predicate AreNumbered(entries: seq<S.Entry>, content: Text, show: Text -> string, numbers: seq<nat>) {
    && |entries| == |numbers|
    && forall i :: 0 <= i < |entries| ==>
         numbers[i] < |T.CutLines(content)|
         && entries[i].message == show(T.StripCr(T.CutLines(content)[numbers[i]]))
  }

  lemma {:induction false} EntriesAreEvents(events: seq<S.Event>)
    requires forall e :: e in events ==> e.Line?
    ensures |S.EntriesOf(events)| == |events|
    ensures forall i :: 0 <= i < |events| ==> S.EntriesOf(events)[i].message == events[i].message
  {
    if events != [] {
      var n := |events| - 1;
      assert events[n] in events;
      EntriesAreEvents(events[..n]);
    }
  }

  lemma LinesNumbered(
    events: seq<S.Event>, source: S.Source, lines: seq<Text>, show: Text -> string, content: Text, numbers: seq<nat>,
    from: nat)
    requires AreEvents(events, source, lines, show) && T.AreLines(lines, content, numbers) && from <= |events|
    ensures AreNumbered(S.EntriesOf(events[from..]), content, show, numbers[from..])
  {
    hide T.CutLines, T.StripCr;
    forall e | e in events[from..]
      ensures e.Line?
    {
    }
    EntriesAreEvents(events[from..]);
  }

  /** A run of polls from behind line k of a file. */
  ghost predicate TailedRun(lossy: Text -> Text, before: Text, k: nat, polls: seq<T.Poll>) {
    && T.LineByLine(lossy) && T.Grows(before, polls) && k <= |T.CutLines(before)|
    && T.ValidLines(lossy, T.Final(before, polls))
  }

  /** The lines of such a run as the shipper is given them. */
  function EventsFrom(
    source: S.Source, lossy: Text -> Text, before: Text, k: nat, polls: seq<T.Poll>, show: Text -> string, clock: nat -> int)
    : seq<S.Event>
    requires k <= |T.CutLines(before)|
  {
    EventsOfRun(source, T.Run(lossy, T.OffsetOf(before, k), polls).1, show, clock, 0)
  }

  /** Once the application has started, a run ships each line from k on once, in order and without a
      gap, if and only if no poll but the last reads a chunk that ends at a newline; otherwise it
      ships some line twice. */
  lemma ShippedOnceIff(
    source: S.Source, lossy: Text -> Text, before: Text, k: nat, polls: seq<T.Poll>, show: Text -> string, clock: nat -> int)
    requires TailedRun(lossy, before, k, polls)
    ensures var entries := S.Added(true, EventsFrom(source, lossy, before, k, polls, show, clock));
      var ns := T.Positions(before, k, polls);
      && AreNumbered(entries, T.Final(before, polls), show, ns)
      && (T.OnlyLastAtNewline(before, k, polls) <==> T.Consecutive(ns, k))
      && (T.OnlyLastAtNewline(before, k, polls) <==> T.Distinct(ns))
  {
    hide T.CutLines, T.Run, T.Positions, T.AreLines, EventsOfRun, AreEvents, AreNumbered;
    var ds := T.Run(lossy, T.OffsetOf(before, k), polls).1;
    var events := EventsFrom(source, lossy, before, k, polls, show, clock);
    T.PositionsReturned(lossy, before, k, polls);
    EventsAreLines(source, ds, show, clock, 0);
    LinesNumbered(events, source, T.Returned(ds), show, T.Final(before, polls), T.Positions(before, k, polls), 0);
    assert events[0..] == events && T.Positions(before, k, polls)[0..] == T.Positions(before, k, polls);
    T.ExactlyOnceIff(before, k, polls);
  }

  /** The first poll of the run reads the first marker, as its m-th line. */
  ghost predicate MarkerFirst(events: seq<S.Event>, before: Text, k: nat, polls: seq<T.Poll>)
    requires T.Grows(before, polls) && k <= |T.CutLines(before)|
  {
    && polls != []
    && (T.SameOffset(before, polls[0].content, k); S.FirstMarker(events) < |T.LinesRead(polls[0], k)|)
  }

  /** From the poll on that reads the start marker: what is shipped are the lines read behind it;
      and these are the lines that follow the marker in the file, each once, if and only if no poll
      but the last reads a chunk that ends at a newline. */
  lemma ShippedAfterMarkerIff(
    lossy: Text -> Text, before: Text, k: nat, polls: seq<T.Poll>, show: Text -> string, clock: nat -> int)
    requires TailedRun(lossy, before, k, polls)
    requires MarkerFirst(EventsFrom(S.Stdout, lossy, before, k, polls, show, clock), before, k, polls)
    ensures var events := EventsFrom(S.Stdout, lossy, before, k, polls, show, clock);
      var ns, m := T.Positions(before, k, polls), S.FirstMarker(events);
      && m < |ns| && ns[m] == k + m
      && AreNumbered(S.Shipped(events), T.Final(before, polls), show, ns[m + 1..])
      && (T.Consecutive(ns[m + 1..], k + m + 1) <==> T.OnlyLastAtNewline(before, k, polls))
  {
    hide T.CutLines, T.Run, T.AreLines, T.OffsetOf, T.Positions, T.LinesRead, T.OnlyLastAtNewline, T.Consecutive;
    hide EventsOfRun, EventsFrom, AreEvents, AreNumbered, S.Shipped, S.FirstMarker, S.EntriesOf, T.Distinct, T.ValidLines;
    var events := EventsFrom(S.Stdout, lossy, before, k, polls, show, clock);
    var ns, m := T.Positions(before, k, polls), S.FirstMarker(events);
    var lines := RunLines(lossy, before, k, polls, show, clock);
    SameCount(events, lines, show, T.Final(before, polls), ns);
    T.SameOffset(before, polls[0].content, k);
    FirstRead(before, k, polls);
    ShippedSuffix(events);
    LinesNumbered(events, S.Stdout, lines, show, T.Final(before, polls), ns, m + 1);
    T.ExactlyOnceIff(before, k, polls);
    SuffixConsecutive(ns, k, m);
  }

  /** What a run returns, as lines of the file and as events. */
  lemma RunLines(
    lossy: Text -> Text, before: Text, k: nat, polls: seq<T.Poll>, show: Text -> string, clock: nat -> int)
    returns (lines: seq<Text>)
    requires TailedRun(lossy, before, k, polls)
    ensures AreEvents(EventsFrom(S.Stdout, lossy, before, k, polls, show, clock), S.Stdout, lines, show)
    ensures T.AreLines(lines, T.Final(before, polls), T.Positions(before, k, polls))
  {
    hide T.CutLines, T.Run, T.Positions, T.AreLines, EventsOfRun, AreEvents;
    var ds := T.Run(lossy, T.OffsetOf(before, k), polls).1;
    lines := T.Returned(ds);
    T.PositionsReturned(lossy, before, k, polls);
    EventsAreLines(S.Stdout, ds, show, clock, 0);
  }

  lemma ShippedSuffix(events: seq<S.Event>)
    requires S.FirstMarker(events) < |events|
    ensures S.Shipped(events) == S.EntriesOf(events[S.FirstMarker(events) + 1..])
  {
    hide S.FirstMarker, S.EntriesOf;
  }

  lemma SameCount(events: seq<S.Event>, lines: seq<Text>, show: Text -> string, content: Text, numbers: seq<nat>)
    requires AreEvents(events, S.Stdout, lines, show) && T.AreLines(lines, content, numbers)
    ensures |events| == |numbers|
  {
  }

  /** The first poll's lines come first, from line k on. */
  lemma FirstRead(before: Text, k: nat, polls: seq<T.Poll>)
    requires T.Grows(before, polls) && k <= |T.CutLines(before)| && polls != []
    ensures k <= |T.CutLines(polls[0].content)|
    ensures var first := T.LinesRead(polls[0], k);
      && |first| <= |T.Positions(before, k, polls)|
      && forall i :: 0 <= i < |first| ==> T.Positions(before, k, polls)[i] == k + i
  {
    hide T.CutLines, T.OffsetOf;
    T.SameOffset(before, polls[0].content, k);
  }

  lemma SuffixConsecutive(ns: seq<nat>, k: nat, m: nat)
    requires m < |ns| && forall i :: 0 <= i <= m ==> ns[i] == k + i
    ensures T.Consecutive(ns[m + 1..], k + m + 1) <==> T.Consecutive(ns, k)
  {
    var rest := ns[m + 1..];
    if T.Consecutive(rest, k + m + 1) {
      forall i | 0 <= i < |ns|
        ensures ns[i] == k + i
      {
        if i > m {
          assert rest[i - m - 1] == ns[i];
        }
      }
    }
  }

  /** If the poll that reads the marker reads a chunk that ends at a newline, and is not the last, the
      marker is shipped as a line of the application. */
  lemma MarkerShipped(
    lossy: Text -> Text, before: Text, k: nat, polls: seq<T.Poll>, show: Text -> string, clock: nat -> int)
    requires TailedRun(lossy, before, k, polls) && |polls| > 1 && T.EndsAtNewline(polls[0], T.OffsetOf(before, k))
    requires MarkerFirst(EventsFrom(S.Stdout, lossy, before, k, polls, show, clock), before, k, polls)
    ensures exists e :: e in S.Shipped(EventsFrom(S.Stdout, lossy, before, k, polls, show, clock)) && e.message == S.MARKER
  {
    hide T.CutLines, T.Run, T.OffsetOf, T.EndsAtNewline, T.Positions, T.LinesRead, T.Consecutive, T.OnlyLastAtNewline;
    hide EventsOfRun, EventsFrom, S.Shipped, S.EntriesOf, AreNumbered, AreEvents, T.AreLines, T.ValidLines;
    var events := EventsFrom(S.Stdout, lossy, before, k, polls, show, clock);
    var ns, m := T.Positions(before, k, polls), S.FirstMarker(events);
    ShippedAfterMarkerIff(lossy, before, k, polls, show, clock);
    T.SameOffset(before, polls[0].content, k);
    var j := ReadTwice(before, k, polls, m);
    var lines := RunLines(lossy, before, k, polls, show, clock);
    SameCount(events, lines, show, T.Final(before, polls), ns);
    MarkerText(events, lines, show, T.Final(before, polls), ns, m);
    ShipsMarker(S.Shipped(events), T.Final(before, polls), show, ns, m, j);
  }

  /** It happens to a log that holds the marker's line alone, read twice. */
  lemma MarkerShippedReached(line: Text, show: Text -> string, clock: nat -> int)
    requires T.NEWLINE !in line && show(T.StripCr(line)) == S.MARKER
    ensures var poll := T.Poll(|line| + 1, line + [T.NEWLINE]);
      exists e :: e in S.Shipped(EventsFrom(S.Stdout, Plain, [], 0, [poll, poll], show, clock)) && e.message == S.MARKER
  {
    hide T.CutLines, T.CutTail, T.StripCr, T.Run, T.Positions, EventsOfRun, EventsFrom, S.Shipped, S.FirstMarker, T.LinesRead;
    var content := line + [T.NEWLINE];
    var poll := T.Poll(|line| + 1, content);
    var polls := [poll, poll];
    T.TerminatedLine(line);
    T.CutWord([]);
    SameTailed(content, polls);
    assert T.OffsetOf([], 0) == 0;
    OneLineRead(poll);
    var lines := RunLines(Plain, [], 0, polls, show, clock);
    var events := EventsFrom(S.Stdout, Plain, [], 0, polls, show, clock);
    FirstRead([], 0, polls);
    SameCount(events, lines, show, T.Final([], polls), T.Positions([], 0, polls));
    MarkerAtOnce(events, lines, show, content, T.Positions([], 0, polls));
    MarkerShipped(Plain, [], 0, polls, show, clock);
  }

  /** Decoding of text that is all valid. */
  function Plain(s: Text): Text { s }

  lemma PlainLines(ls: seq<Text>)
    ensures T.Each(Plain, ls) == ls
  {
    T.EachIdentity(Plain, ls);
  }

  /** Decoding that changes nothing, on a file that stays as it is. */
  lemma SameTailed(content: Text, polls: seq<T.Poll>)
    requires polls == [T.Poll(|content|, content), T.Poll(|content|, content)]
    ensures TailedRun(Plain, [], 0, polls) && T.Final([], polls) == content
  {
    hide T.CutLines, T.CutTail;
    forall s: Text
      ensures T.Each(Plain, T.CutLines(s)) == T.CutLines(s)
    {
      PlainLines(T.CutLines(s));
    }
    assert T.LineByLine(Plain);
    assert polls[1..] == [polls[1]] && polls[1..][1..] == [];
    assert T.Grows(content, polls[1..]);
  }

  lemma OneLineRead(poll: T.Poll)
    requires |T.CutLines(poll.content)| == 1 && poll.statLen > 0
    ensures |T.LinesRead(poll, 0)| == 1
  {
    hide T.CutLines;
    assert T.OffsetOf(poll.content, 0) == 0;
  }

  lemma MarkerAtOnce(events: seq<S.Event>, lines: seq<Text>, show: Text -> string, content: Text, ns: seq<nat>)
    requires AreEvents(events, S.Stdout, lines, show) && T.AreLines(lines, content, ns) && |ns| > 0 && ns[0] == 0
    requires |T.CutLines(content)| == 1 && show(T.StripCr(T.CutLines(content)[0])) == S.MARKER
    ensures S.FirstMarker(events) == 0
  {
    hide T.CutLines, T.StripCr;
    assert S.IsMarker(events[0]);
  }

  lemma MarkerText(
    events: seq<S.Event>, lines: seq<Text>, show: Text -> string, content: Text, ns: seq<nat>, m: nat)
    requires AreEvents(events, S.Stdout, lines, show) && T.AreLines(lines, content, ns)
    requires m == S.FirstMarker(events) < |events|
    ensures |ns| == |events| && ns[m] < |T.CutLines(content)|
    ensures show(T.StripCr(T.CutLines(content)[ns[m]])) == S.MARKER
  {
    hide T.CutLines, T.StripCr;
    assert S.IsMarker(events[m]);
  }

  lemma ShipsMarker(shipped: seq<S.Entry>, content: Text, show: Text -> string, ns: seq<nat>, m: nat, j: nat)
    requires m < j < |ns| && ns[j] == ns[m] < |T.CutLines(content)| && AreNumbered(shipped, content, show, ns[m + 1..])
    requires show(T.StripCr(T.CutLines(content)[ns[m]])) == S.MARKER
    ensures exists e :: e in shipped && e.message == S.MARKER
  {
    hide T.CutLines, T.StripCr;
    var i := j - m - 1;
    assert ns[m + 1..][i] == ns[j];
    assert shipped[i] in shipped && shipped[i].message == S.MARKER;
  }

  /** Every line that such a poll reads is read again by the next. */
  lemma ReadTwice(before: Text, k: nat, polls: seq<T.Poll>, m: nat) returns (j: nat)
    requires T.Grows(before, polls) && k <= |T.CutLines(before)| && |polls| > 1
    requires T.EndsAtNewline(polls[0], T.OffsetOf(before, k)) && k <= |T.CutLines(polls[0].content)|
    requires m < |T.LinesRead(polls[0], k)|
    ensures m < j < |T.Positions(before, k, polls)| && T.Positions(before, k, polls)[j] == k + m
  {
    hide T.OffsetOf, T.CutLines, T.EndsAtNewline;
    T.SameOffset(before, polls[0].content, k);
    T.OffsetInside(before, k);
    T.UnstuckReads(polls[0], k);
    var first := T.LinesRead(polls[0], k);
    j := |first| + m;
    var content := polls[0].content;
    T.SameOffset(content, polls[1].content, k);
    T.ReadAgain(content, k, polls[1]);
    assert polls[1..][0] == polls[1];
    FirstRead(content, k, polls[1..]);
    T.SameOffset(content, polls[1].content, |T.CutLines(content)|);
  }
}
