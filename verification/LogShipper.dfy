/**
 The log shipper: lines from two streams and a timer interleave; every line goes to a bounded
 local buffer, application lines also to batches that are flushed in order.
 */
module LogShipper {

  const MARKER := "__MIKROM_APP_START__"
  const BATCH_SIZE := 50
  const BUFFER_SIZE := 1000

  datatype Source = Stdout | Stderr

  datatype Entry = Entry(source: Source, message: string, timestamp: int)

  /** What the select loop sees next: a line of one stream, read at some time, or the timer. */
  datatype Event = Line(source: Source, message: string, at: int) | Tick

  // ---------------------------------------------------------------------------
  // Specification over the whole interleaving.

  function IsMarker(e: Event): bool {
    e.Line? && e.source == Stdout && e.message == MARKER
  }

  /** The start marker has been seen on stdout. */
  predicate Started(events: seq<Event>) {
    exists i :: 0 <= i < |events| && IsMarker(events[i])
  }

  /** Where the first start marker is; the number of events if there is none. */
  function FirstMarker(events: seq<Event>): (m: nat)
    ensures m <= |events|
    ensures m < |events| ==> IsMarker(events[m])
    ensures forall i :: 0 <= i < m ==> !IsMarker(events[i])
  {
    if events == [] then 0
    else
      var n := |events| - 1;
      var m := FirstMarker(events[..n]);
      if m < n then m else if IsMarker(events[n]) then n else n + 1
  }

  /** All lines among the events, as entries. */
  function EntriesOf(events: seq<Event>): seq<Entry> {
    if events == [] then []
    else
      var n := |events| - 1;
      EntriesOf(events[..n]) +
      match events[n]
      case Tick => []
      case Line(source, message, at) => [Entry(source, message, at)]
  }

  /** The application's lines: everything after the first start marker. */
  function Shipped(events: seq<Event>): seq<Entry> {
    var m := FirstMarker(events);
    if m < |events| then EntriesOf(events[m + 1..]) else []
  }

  function Formatted(source: Source, started: bool, message: string): string {
    match source
    case Stderr => (if started then "[stderr] " else "[system-err] ") + message
    case Stdout => (if started then "" else "[system] ") + message
  }

  /** All lines among the events, as the buffer shows them in one phase. */
  function Tagged(events: seq<Event>, started: bool): seq<string> {
    if events == [] then []
    else
      var n := |events| - 1;
      Tagged(events[..n], started) +
      match events[n]
      case Tick => []
      case Line(source, message, _) => [Formatted(source, started, message)]
  }

  /** Every line except the first start marker, tagged by stream and by the side of it they are on. */
  function Shown(events: seq<Event>): seq<string> {
    var m := FirstMarker(events);
    Tagged(events[..m], false) + (if m < |events| then Tagged(events[m + 1..], true) else [])
  }

  function Last<T>(n: nat, s: seq<T>): seq<T> {
    if |s| <= n then s else s[|s| - n..]
  }

  function Concat(batches: seq<seq<Entry>>): seq<Entry> {
    if batches == [] then [] else Concat(batches[..|batches| - 1]) + batches[|batches| - 1]
  }

  ghost predicate BatchesFit(batches: seq<seq<Entry>>) {
    forall b :: b in batches ==> 0 < |b| <= BATCH_SIZE
  }

  // ---------------------------------------------------------------------------

  class LogShipper {
    var buffer: seq<string>
    var batch: seq<Entry>
    var flushed: seq<seq<Entry>>
    var appStarted: bool

    constructor (kept: seq<string>)
      requires |kept| <= BUFFER_SIZE
      ensures buffer == kept && batch == [] && flushed == [] && !appStarted
    {
      buffer, batch, flushed, appStarted := kept, [], [], false;
    }

    method ProcessLine(source: Source, message: string, at: int, isAppLog: bool)
      requires |buffer| <= BUFFER_SIZE
      modifies this`buffer, this`batch
      ensures buffer == Last(1000, old(buffer) + [Formatted(source, isAppLog, message)])
      ensures |buffer| > 0 && buffer[|buffer| - 1] ==
        match source
        case Stderr => if isAppLog then "[stderr] " + message else "[system-err] " + message
        case Stdout => if isAppLog then message else "[system] " + message
      ensures batch == old(batch) + (if isAppLog then [Entry(source, message, at)] else [])
    {
      if |buffer| >= BUFFER_SIZE {
        buffer := buffer[1..];
      }
      var formatted :=
        if source == Stderr && isAppLog then "[stderr] " + message
        else if source == Stderr then "[system-err] " + message
        else if !isAppLog then "[system] " + message
        else message;
      assert "" + message == message;
      buffer := buffer + [formatted];
      if isAppLog {
        batch := batch + [Entry(source, message, at)];
      }
    }

    /** Publishing may fail; the batch is given up either way. */
    method Flush()
      modifies this`batch, this`flushed
      ensures batch == [] && flushed == old(flushed) + [old(batch)]
    {
      flushed := flushed + [batch];
      batch := [];
    }

    method Handle(e: Event)
      requires |buffer| <= BUFFER_SIZE && |batch| < BATCH_SIZE && BatchesFit(flushed)
      modifies this
      ensures appStarted == AfterStart(old(appStarted), e)
      ensures |batch| < BATCH_SIZE && BatchesFit(flushed)
      ensures Concat(flushed) + batch == old(Concat(flushed) + batch) + AfterEntries(old(appStarted), e)
      ensures var all := old(batch) + AfterEntries(old(appStarted), e);
        if if e.Tick? then |all| > 0 else |all| >= 50
        then flushed == old(flushed) + [all] && batch == []
        else flushed == old(flushed) && batch == all
      ensures buffer == AfterBuffer(old(appStarted), old(buffer), e)
    {
      hide Concat, BatchesFit, Formatted, Last;
      ghost var all := batch + AfterEntries(appStarted, e);
      assert batch + [] == batch;
      match e {
        case Line(source, message, at) =>
          if source == Stdout && !appStarted && message == MARKER {
            appStarted := true;
            ConcatKept(old(flushed), old(batch), [], flushed, batch, all);
            return;
          }
          ProcessLine(source, message, at, appStarted);
          if |batch| >= BATCH_SIZE {
            Flush();
          }
        case Tick =>
          if |batch| > 0 {
            Flush();
          }
      }
      ConcatKept(old(flushed), old(batch), AfterEntries(old(appStarted), e), flushed, batch, all);
    }

    /** `spawn`: handle events until a stream closes, then flush what is left. */
    method Spawn(events: seq<Event>)
      requires |buffer| <= BUFFER_SIZE && batch == [] && flushed == [] && !appStarted
      modifies this
      ensures batch == [] && Concat(flushed) == Shipped(events)
      ensures forall b :: b in flushed ==> 0 < |b| <= 50
      ensures buffer == Last(1000, old(buffer) + Shown(events))
      ensures appStarted <==> exists i, at :: 0 <= i < |events| && events[i] == Line(Stdout, "__MIKROM_APP_START__", at)
    {
      hide Tracked, Concat, Shipped, Shown, Started, Last, AfterStart, AfterEntries, AfterBuffer;
      ghost var kept := buffer;
      TrackedFromStart(kept);
      NothingFlushed();
      assert events[..0] == [] && Concat(flushed) + batch == [];
      for i := 0 to |events|
        invariant |batch| < BATCH_SIZE && BatchesFit(flushed)
        invariant Tracked(events[..i], kept, appStarted, Concat(flushed) + batch, buffer)
      {
        assert events[..i + 1] == events[..i] + [events[i]];
        TrackedNext(events[..i], events[i], kept, appStarted, Concat(flushed) + batch, buffer);
        Handle(events[i]);
      }
      assert events[..|events|] == events;
      TrackedMeans(events, kept, appStarted, Concat(flushed) + batch, buffer);
      if |batch| > 0 {
        ghost var before := flushed;
        Flush();
        FlushKeeps(before, flushed);
      }
      assert Concat(flushed) + [] == Concat(flushed);
      StartedMeans(events);
      FitMeans(flushed);
    }

    /** A line read by a poll of `spawn_from_paths`: processed without looking at the batch size. */
    method HandlePolled(e: Event)
      requires |buffer| <= BUFFER_SIZE && e.Line?
      modifies this`buffer, this`batch, this`appStarted
      ensures appStarted == AfterStart(old(appStarted), e)
      ensures batch == old(batch) + AfterEntries(old(appStarted), e)
      ensures buffer == AfterBuffer(old(appStarted), old(buffer), e)
    {
      if e.source == Stdout && !appStarted && e.message == MARKER {
        appStarted := true;
      } else {
        ProcessLine(e.source, e.message, e.at, appStarted);
      }
    }

    /** One stream's part of a poll in `spawn_from_paths`: all its lines are processed before the
        batch is looked at, so that it is flushed whole, whatever its size. */
    method ShipPolledLines(ghost before: seq<Event>, ghost kept: seq<string>, lines: seq<Event>)
      requires forall e :: e in lines ==> e.Line?
      requires Tracked(before, kept, appStarted, Concat(flushed) + batch, buffer)
      modifies this
      ensures Tracked(before + lines, kept, appStarted, Concat(flushed) + batch, buffer)
      ensures var all := old(batch) + Added(old(appStarted), lines);
        if |all| < 50 then flushed == old(flushed) && batch == all
        else flushed == old(flushed) + [all] && batch == []
    {
      hide Polled, Concat, AfterStart, AfterEntries, AfterBuffer, Added, Tracked, BatchesFit;
      ghost var started, pending, shipped := appStarted, batch, Concat(flushed);
      PollBegins(before, kept, lines, started, shipped, pending, buffer);
      var i := 0;
      while i < |lines|
        invariant i <= |lines| && flushed == old(flushed)
        invariant Polled(before, kept, lines[..i], started, shipped, pending, appStarted, batch, buffer)
      {
        assert lines[..i + 1] == lines[..i] + [lines[i]] && lines[i] in lines;
        PolledNext(before, kept, lines[..i], lines[i], started, shipped, pending, appStarted, batch, buffer);
        HandlePolled(lines[i]);
        i := i + 1;
      }
      assert lines[..|lines|] == lines;
      PolledMeans(before, kept, lines, started, shipped, pending, appStarted, batch, buffer);
      if |batch| >= BATCH_SIZE {
        ghost var all := batch;
        Flush();
        FlushKeeps(old(flushed), flushed);
        assert Concat(flushed) + batch == shipped + all;
      }
    }
  }

  /** After some of a poll's lines: flag, batch and buffer, from what they were before the poll. */
  ghost predicate Polled(
    before: seq<Event>, kept: seq<string>, lines: seq<Event>, started0: bool, shipped: seq<Entry>, pending: seq<Entry>,
    started: bool, batch: seq<Entry>, buffer: seq<string>)
  {
    && started == StartedAfter(started0, lines) && batch == pending + Added(started0, lines)
    && Tracked(before + lines, kept, started, shipped + batch, buffer)
  }

  lemma PollBegins(
    before: seq<Event>, kept: seq<string>, lines: seq<Event>, started: bool, shipped: seq<Entry>, pending: seq<Entry>,
    buffer: seq<string>)
    requires Tracked(before, kept, started, shipped + pending, buffer)
    ensures Polled(before, kept, lines[..0], started, shipped, pending, started, pending, buffer)
  {
    hide Tracked, Added, StartedAfter;
    NothingAdded(started);
    assert lines[..0] == [] && before + [] == before && pending + [] == pending;
  }

  lemma PolledNext(
    before: seq<Event>, kept: seq<string>, lines: seq<Event>, e: Event, started0: bool, shipped: seq<Entry>,
    pending: seq<Entry>, started: bool, batch: seq<Entry>, buffer: seq<string>)
    requires Polled(before, kept, lines, started0, shipped, pending, started, batch, buffer)
    ensures |buffer| <= BUFFER_SIZE
    ensures Polled(before, kept, lines + [e], started0, shipped, pending,
      AfterStart(started, e), batch + AfterEntries(started, e), AfterBuffer(started, buffer, e))
  {
    hide Tracked, Added, StartedAfter, AfterStart, AfterEntries, AfterBuffer;
    TrackedNext(before + lines, e, kept, started, shipped + batch, buffer);
    NextAdded(started0, lines, e);
    assert before + (lines + [e]) == (before + lines) + [e];
    assert shipped + (batch + AfterEntries(started, e)) == (shipped + batch) + AfterEntries(started, e);
    assert pending + (Added(started0, lines) + AfterEntries(started, e))
        == (pending + Added(started0, lines)) + AfterEntries(started, e);
  }

  lemma PolledMeans(
    before: seq<Event>, kept: seq<string>, lines: seq<Event>, started0: bool, shipped: seq<Entry>, pending: seq<Entry>,
    started: bool, batch: seq<Entry>, buffer: seq<string>)
    requires Polled(before, kept, lines, started0, shipped, pending, started, batch, buffer)
    ensures batch == pending + Added(started0, lines)
    ensures Tracked(before + lines, kept, started, shipped + batch, buffer)
  {
  }

  /** What lines read in one go add to the batch: all of them once the application has started,
      before that only those behind the marker. */
  function Added(started: bool, lines: seq<Event>): seq<Entry> {
    if started then EntriesOf(lines) else Shipped(lines)
  }

  predicate StartedAfter(started: bool, lines: seq<Event>) {
    started || Started(lines)
  }

  lemma NothingAdded(started: bool)
    ensures Added(started, []) == [] && StartedAfter(started, []) == started
  {
  }

  lemma NextAdded(started: bool, lines: seq<Event>, e: Event)
    ensures Added(started, lines + [e]) == Added(started, lines) + AfterEntries(StartedAfter(started, lines), e)
    ensures StartedAfter(started, lines + [e]) == AfterStart(StartedAfter(started, lines), e)
  {
    hide Shipped, EntriesOf, Started;
    NextShipped(lines, e);
    NextStarted(lines, e);
    EntriesAppend(lines, e);
  }

  lemma {:induction false} OneEntryPerLine(lines: seq<Event>)
    requires forall e :: e in lines ==> e.Line?
    ensures |EntriesOf(lines)| == |lines|
  {
    if lines != [] {
      var n := |lines| - 1;
      assert lines[n] in lines;
      OneEntryPerLine(lines[..n]);
    }
  }

  /** How many entries polled lines add: every line behind the first marker, or every line. */
  lemma AddedCount(started: bool, lines: seq<Event>)
    requires forall e :: e in lines ==> e.Line?
    ensures var m := FirstMarker(lines);
      |Added(started, lines)| == if started then |lines| else if m < |lines| then |lines| - m - 1 else 0
  {
    OneEntryPerLine(lines);
    var m := FirstMarker(lines);
    if m < |lines| {
      OneEntryPerLine(lines[m + 1..]);
    }
  }

  /** The batches of a polling shipper stay within the batch size, across a poll of one stream's
      lines, if and only if what is pending and what is added come to no more than that. */
  lemma PolledBatchFitsIff(flushed: seq<seq<Entry>>, batch: seq<Entry>, started: bool, lines: seq<Event>)
    requires BatchesFit(flushed)
    ensures var all := batch + Added(started, lines);
      BatchesFit(if |all| < BATCH_SIZE then flushed else flushed + [all])
      <==> |batch| + |Added(started, lines)| <= 50
  {
    hide Added;
    var all := batch + Added(started, lines);
    assert all in flushed + [all];
  }

  /** A marker and n lines behind it, as one poll may find them in a file. */
  function MarkerAndLines(n: nat): (lines: seq<Event>)
    ensures |lines| == n + 1 && forall e :: e in lines ==> e.Line?
  {
    [Line(Stdout, MARKER, 0)] + seq(n, _ => Line(Stdout, "line", 0))
  }

  /** The batch size fails with 51 lines behind the marker: they are flushed as one batch of 51. */
  method FiftyOneLines() returns (shipper: LogShipper)
    ensures fresh(shipper) && |shipper.flushed| == 1 && |shipper.flushed[0]| == 51
    ensures !BatchesFit(shipper.flushed)
  {
    hide Tracked, Concat, Added, MarkerAndLines, BatchesFit;
    shipper := new LogShipper([]);
    TrackedFromStart([]);
    NothingFlushed();
    assert Concat([]) + [] == [];
    MarkerAddsLines(51);
    shipper.ShipPolledLines([], [], MarkerAndLines(51));
    assert [] + Added(false, MarkerAndLines(51)) == Added(false, MarkerAndLines(51));
    TooLarge(shipper.flushed);
  }

  lemma MarkerAddsLines(n: nat)
    ensures |Added(false, MarkerAndLines(n))| == n
  {
    hide MarkerAndLines;
    FirstIsMarker(n);
    AddedCount(false, MarkerAndLines(n));
  }

  lemma TooLarge(flushed: seq<seq<Entry>>)
    requires flushed != [] && |flushed[0]| > BATCH_SIZE
    ensures !BatchesFit(flushed)
  {
    assert flushed[0] in flushed;
  }

  lemma FirstIsMarker(n: nat)
    ensures FirstMarker(MarkerAndLines(n)) == 0
  {
    assert IsMarker(MarkerAndLines(n)[0]);
  }

  /** Flushed whole or kept, nothing is lost or added. */
  lemma ConcatKept(
    before: seq<seq<Entry>>, pending: seq<Entry>, added: seq<Entry>, flushed: seq<seq<Entry>>, batch: seq<Entry>,
    all: seq<Entry>)
    requires all == pending + added && |all| <= BATCH_SIZE && BatchesFit(before)
    requires (flushed == before + [all] && batch == [] && |all| > 0) || (flushed == before && batch == all)
    ensures Concat(flushed) + batch == (Concat(before) + pending) + added && BatchesFit(flushed)
  {
    FlushKeeps(before, flushed);
    hide Concat;
    assert (Concat(before) + pending) + added == Concat(before) + all;
    assert (Concat(before) + all) + [] == Concat(before) + all;
  }

  lemma StartedMeans(events: seq<Event>)
    ensures Started(events) <==> exists i, at :: 0 <= i < |events| && events[i] == Line(Stdout, "__MIKROM_APP_START__", at)
  {
    if i :| 0 <= i < |events| && IsMarker(events[i]) {
      assert events[i] == Line(Stdout, "__MIKROM_APP_START__", events[i].at);
    }
    if i, at :| 0 <= i < |events| && events[i] == Line(Stdout, "__MIKROM_APP_START__", at) {
      assert IsMarker(events[i]);
    }
  }

  lemma FitMeans(flushed: seq<seq<Entry>>)
    requires BatchesFit(flushed)
    ensures forall b :: b in flushed ==> 0 < |b| <= 50
  {
  }

  // The effect of one event on the start flag, the shipped entries and the buffer.

  function AfterStart(started: bool, e: Event): bool {
    started || IsMarker(e)
  }

  function AfterEntries(started: bool, e: Event): seq<Entry> {
    if e.Line? && started then [Entry(e.source, e.message, e.at)] else []
  }

  function AfterBuffer(started: bool, buffer: seq<string>, e: Event): seq<string> {
    if e.Tick? || (IsMarker(e) && !started) then buffer
    else Last(BUFFER_SIZE, buffer + [Formatted(e.source, started, e.message)])
  }

  /** The start flag, the entries flushed and pending, and the buffer are the right ones for
      these events, the buffer having held kept before them. */
  ghost predicate Tracked(
    events: seq<Event>, kept: seq<string>, started: bool, shipped: seq<Entry>, buffer: seq<string>)
  {
    started == Started(events) && shipped == Shipped(events) && buffer == Last(BUFFER_SIZE, kept + Shown(events))
  }

  lemma TrackedFromStart(kept: seq<string>)
    requires |kept| <= BUFFER_SIZE
    ensures Tracked([], kept, false, [], kept)
  {
    assert kept + [] == kept;
  }

  lemma TrackedMeans(
    events: seq<Event>, kept: seq<string>, started: bool, shipped: seq<Entry>, buffer: seq<string>)
    requires Tracked(events, kept, started, shipped, buffer)
    ensures started == Started(events) && shipped == Shipped(events)
    ensures buffer == Last(BUFFER_SIZE, kept + Shown(events))
  {
  }

  lemma NothingFlushed()
    ensures Concat([]) == []
  {
  }

  lemma TrackedNext(
    events: seq<Event>, e: Event, kept: seq<string>, started: bool, shipped: seq<Entry>, buffer: seq<string>)
    requires Tracked(events, kept, started, shipped, buffer)
    ensures |buffer| <= BUFFER_SIZE
    ensures Tracked(events + [e], kept,
      AfterStart(started, e), shipped + AfterEntries(started, e), AfterBuffer(started, buffer, e))
  {
    NextStarted(events, e);
    NextShipped(events, e);
    NextShown(events, e);
    if Shown(events + [e]) != Shown(events) {
      var line := Formatted(e.source, started, e.message);
      assert kept + (Shown(events) + [line]) == (kept + Shown(events)) + [line];
      LastAppend(BUFFER_SIZE, kept + Shown(events), line);
    }
  }

  lemma FlushKeeps(before: seq<seq<Entry>>, after: seq<seq<Entry>>)
    ensures |after| == |before| + 1 && before <= after ==> Concat(after) == Concat(before) + after[|before|]
  {
    if |after| == |before| + 1 && before <= after {
      assert after[..|before|] == before;
    }
  }

  lemma NextStarted(events: seq<Event>, e: Event)
    ensures Started(events + [e]) == AfterStart(Started(events), e)
  {
    if i :| 0 <= i < |events| && IsMarker(events[i]) {
      assert (events + [e])[i] == events[i];
    }
    if IsMarker(e) {
      assert (events + [e])[|events|] == e;
    }
  }

  lemma NextMarker(events: seq<Event>, e: Event)
    ensures Started(events) <==> FirstMarker(events) < |events|
    ensures FirstMarker(events + [e]) ==
      if FirstMarker(events) < |events| then FirstMarker(events)
      else if IsMarker(e) then |events| else |events| + 1
  {
    assert (events + [e])[..|events|] == events;
  }

  lemma NextShipped(events: seq<Event>, e: Event)
    ensures Shipped(events + [e]) == Shipped(events) + AfterEntries(Started(events), e)
  {
    hide FirstMarker, Started, EntriesOf, IsMarker;
    NextMarker(events, e);
    var next, n, m := events + [e], |events|, FirstMarker(events);
    if m < n {
      assert next[m + 1..] == events[m + 1..] + [e];
      EntriesAppend(events[m + 1..], e);
    } else {
      assert next[n + 1..] == [];
      NoEntries();
    }
  }

  lemma NoEntries()
    ensures EntriesOf([]) == []
  {
  }

  lemma NextShown(events: seq<Event>, e: Event)
    ensures Shown(events + [e]) == Shown(events) +
      if e.Tick? || (IsMarker(e) && !Started(events)) then [] else [Formatted(e.source, Started(events), e.message)]
  {
    hide FirstMarker, Started, Tagged, IsMarker, Formatted;
    NextMarker(events, e);
    var next, n, m := events + [e], |events|, FirstMarker(events);
    NothingTagged();
    MarkerIsLine(e);
    if m < n {
      assert next[..m] == events[..m];
      assert next[m + 1..] == events[m + 1..] + [e];
      TaggedAppend(events[m + 1..], e, true);
    } else if IsMarker(e) {
      assert next[..n] == events[..n] && next[n + 1..] == [];
    } else {
      assert next[..n + 1] == events[..n] + [e];
      TaggedAppend(events[..n], e, false);
    }
  }

  lemma MarkerIsLine(e: Event)
    ensures IsMarker(e) ==> e.Line?
  {
  }

  lemma NothingTagged()
    ensures Tagged([], true) == []
  {
  }

  lemma TaggedAppend(events: seq<Event>, e: Event, started: bool)
    ensures Tagged(events + [e], started) ==
      Tagged(events, started) + if e.Tick? then [] else [Formatted(e.source, started, e.message)]
  {
    assert (events + [e])[..|events|] == events;
  }

  lemma EntriesAppend(events: seq<Event>, e: Event)
    ensures EntriesOf(events + [e]) == EntriesOf(events) + AfterEntries(true, e)
  {
    assert (events + [e])[..|events|] == events;
  }

  lemma LastAppend<T>(n: nat, s: seq<T>, x: T)
    ensures Last(n, s + [x]) == Last(n, Last(n, s) + [x])
  {
    if |s| > n {
      var k := |s| - n;
      assert (s + [x])[k + 1..] == (s[k..] + [x])[1..];
    }
  }
}
