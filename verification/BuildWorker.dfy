/**
 The build worker: permits, leases and the store, as a state machine over the separate steps of
 concurrent request handlers, with expiry, metadata, persistence and restarts in between.
 */
module BuildWorker {
  import opened BuildStore
  import opened Common

  /** How far the handler of a build has come, from its lease to its release. */
  datatype Phase =
    | Leased
    | Recorded               // the record is in the store, not yet counted as started
    | Running
    | Finalized(o: Outcome)  // the record is final, the outcome not yet counted
    | Counted(o: Outcome)

  /** A snapshot of the store on its way to the file or in it, and what the lost builds would
      come to by falling back on it. */
  datatype Snapshot = Snapshot(memory: Memory, lost: int)

  /** waiting: permits taken without a lease yet. handlers: how far the handler of every build has
      come that has not returned; aborted: those of them that will never do. leaving: permits of
      handlers that are done. active: the cancellation tokens. collected: the records of the persist
      that is waiting for the metrics. lost: builds counted as started whose end no handler will
      count, for the handlers were gone with a restart. */
  datatype State = State(
    limit: nat, waiting: nat, handlers: map<string, Phase>, aborted: set<string>, leaving: nat,
    active: map<string, bool>, memory: Memory, collected: Option<map<string, BuildRecord>>,
    pending: Option<Snapshot>, file: Snapshot, used: set<string>, lost: int)

  /** What building the image gives the handler. */
  datatype BuildOutput = Built(result: BuildResult) | Error(message: string)

  /** The handler calls an error a cancellation if its message says so, in any case of letters. */
  function OutcomeOf(r: BuildOutput): Outcome {
    match r
    case Built(result) => Success(result)
    case Error(message) => if Contains(Lower(message), "cancel") then Cancelled(message) else Failure(message)
  }

  /** A build counts as cancelled exactly if it ended in an error in whose message the word stands
      somewhere, whatever the case of its letters. */
  lemma CancelledIff(r: BuildOutput)
    ensures OutcomeOf(r).Cancelled? <==>
      r.Error? && exists i: nat :: StandsAt(Lower(r.message), "cancel", i)
    ensures r.Built? ==> OutcomeOf(r) == Success(r.result)
    ensures r.Error? ==> OutcomeOf(r) == Failure(r.message) || OutcomeOf(r) == Cancelled(r.message)
  {
    if r.Error? {
      ContainsIff(Lower(r.message), "cancel");
    }
    hide Contains, Lower;
  }

  /** Lower case takes the letters A to Z to a to z, in their places, and leaves all else alone. */
  lemma LowerMeans(s: string, i: nat)
    requires i < |s|
    ensures |Lower(s)| == |s|
    ensures 'A' <= s[i] <= 'Z' ==> Lower(s)[i] as int == s[i] as int + 32
    ensures !('A' <= s[i] <= 'Z') ==> Lower(s)[i] == s[i]
  {
  }

  datatype Event =
    | Accept
    | Malformed
    | Lease(id: string)
    | InsertRecord(id: string, now: int)
    | CountStart(id: string)
    | Finish(id: string, r: BuildOutput, now: int)
    | CountEnd(id: string)
    | ReturnSuccess(id: string)
    | ReturnFailure(id: string)
    | Abort(id: string)
    | Leave
    | Git(id: string, git: GitMetadata, now: int)
    | Expire(nowMs: int, ttlMs: nat)
    | CancelAll
    | Collect
    | Capture
    | Commit
    | Abandon
    | Restart(now: int, seen: bool)

  /** The size of the semaphore. */
  function Permits(limit: nat): nat {
    if limit == 0 then 1 else limit
  }

  /** Builds with a live lease. */
  function Leases(s: State): set<string> {
    s.handlers.Keys - s.aborted
  }

  function Held(s: State): nat {
    s.waiting + |Leases(s)| + s.leaving
  }

  function RecordedIds(handlers: map<string, Phase>): set<string> {
    set id | id in handlers && handlers[id].Recorded?
  }

  function RunningIds(handlers: map<string, Phase>): set<string> {
    set id | id in handlers && handlers[id].Running?
  }

  function FinalizedIds(handlers: map<string, Phase>): set<string> {
    set id | id in handlers && handlers[id].Finalized?
  }

  /** How far the handler of a build with a live lease has come. */
  function PhaseOf(s: State, id: string): Option<Phase> {
    if id in s.handlers && id !in s.aborted then Some(s.handlers[id]) else None
  }

  predicate Enabled(s: State, e: Event) {
    match e
    case Accept => Held(s) < Permits(s.limit)
    case Malformed => s.waiting > 0
    case Lease(id) => s.waiting > 0 && id !in s.used
    case InsertRecord(id, _) => PhaseOf(s, id) == Some(Leased)
    case CountStart(id) => PhaseOf(s, id) == Some(Recorded)
    case Finish(id, _, _) => PhaseOf(s, id) == Some(Running)
    case CountEnd(id) => PhaseOf(s, id).Some? && PhaseOf(s, id).value.Finalized?
    case ReturnSuccess(id) =>
      PhaseOf(s, id).Some? && PhaseOf(s, id).value.Counted? && PhaseOf(s, id).value.o.Success?
    case ReturnFailure(id) =>
      PhaseOf(s, id).Some? && PhaseOf(s, id).value.Counted? && !PhaseOf(s, id).value.o.Success?
    case Abort(id) => PhaseOf(s, id).Some?
    case Leave => s.leaving > 0
    // The I/O lock: one persist at a time.
    case Collect => s.collected.None? && s.pending.None?
    case Capture => s.collected.Some?
    case Commit => s.pending.Some?
    case _ => true
  }

  /** The builds that memory counts as started and not yet as ended. */
  function InFlight(s: State): nat {
    |RunningIds(s.handlers)| + |FinalizedIds(s.handlers)|
  }

  /** The handler of a build has returned: its lease is dropped, and its permit after that. */
  function Returned(s: State, id: string): State {
    s.(handlers := s.handlers - {id}, leaving := s.leaving + 1, active := s.active - {id})
  }

  function Step(s: State, e: Event): State
    requires Enabled(s, e)
  {
    match e
    case Accept => s.(waiting := s.waiting + 1)
    // A request that cannot be decoded ends before a lease is taken.
    case Malformed => s.(waiting := s.waiting - 1, leaving := s.leaving + 1)
    case Lease(id) =>
      s.(waiting := s.waiting - 1, handlers := s.handlers[id := Leased], active := s.active[id := false],
         used := s.used + {id})
    case InsertRecord(id, now) => s.(handlers := s.handlers[id := Recorded], memory := PutNew(s.memory, id, now))
    case CountStart(id) => s.(handlers := s.handlers[id := Running], memory := CountStarted(s.memory))
    case Finish(id, r, now) =>
      s.(handlers := s.handlers[id := Finalized(OutcomeOf(r))], memory := PutOutcome(s.memory, id, OutcomeOf(r), now))
    case CountEnd(id) =>
      s.(handlers := s.handlers[id := Counted(s.handlers[id].o)], memory := CountOutcome(s.memory, s.handlers[id].o))
    // After a success the lease is dropped by name, after a failure by returning.
    case ReturnSuccess(id) => Returned(s, id)
    case ReturnFailure(id) => Returned(s, id)
    // A handler that panics or is given up, wherever it is, drops its lease and its permit too.
    case Abort(id) => s.(aborted := s.aborted + {id}, leaving := s.leaving + 1, active := s.active - {id})
    case Leave => s.(leaving := s.leaving - 1)
    case Git(id, git, now) => s.(memory := SetGit(s.memory, id, git, now))
    case Expire(nowMs, ttlMs) => s.(memory := Removed(s.memory, Expired(s.memory.records, nowMs, ttlMs)))
    case CancelAll => s.(active := map id | id in s.active :: true)
    case Collect => s.(collected := Some(s.memory.records))
    case Capture =>
      var snapshot := Assembled(s.collected.value, s.memory.metrics);
      s.(memory := s.memory.(metrics := snapshot.metrics), collected := None,
         pending := Some(Snapshot(snapshot, s.lost + InFlight(s))))
    case Commit => s.(file := s.pending.value, pending := None)
    case Abandon => s.(collected := None, pending := None)
    // The handlers are gone; memory is what the file says, with the builds under way failed. A file
    // that cannot be looked for counts as missing.
    case Restart(now, seen) =>
      if seen then Restarted(s, Reloaded(s.file.memory, now), s.file.lost)
      else Restarted(s, Memory(map[], NO_METRICS), 0)
  }

  /** A new process on this store. */
  function Restarted(s: State, m: Memory, lost: int): State {
    State(s.limit, 0, map[], {}, 0, map[], m, None, None, s.file, s.used, lost)
  }

  /** A worker starting on a store that has just been loaded and stored. */
  function Booted(limit: nat, m: Memory): State {
    State(limit, 0, map[], {}, 0, map[], m, None, None, Snapshot(m, Unended(m.metrics)), m.records.Keys, Drift(m))
  }

  /** The state after a run, if every event was possible when it happened. */
  function Exec(start: State, run: seq<Event>): Option<State> {
    if run == [] then Some(start)
    else
      var n := |run| - 1;
      match Exec(start, run[..n])
      case None => None
      case Some(s) => if Enabled(s, run[n]) then Some(Step(s, run[n])) else None
  }

  // ---------------------------------------------------------------------------
  // What every step keeps.

  ghost predicate PermitsInv(s: State) {
    && Held(s) <= Permits(s.limit)
    && s.active.Keys == Leases(s)
    && s.aborted <= s.handlers.Keys
  }

  /** Records still building are exactly those of handlers between insertion and finalization;
      they have no completion time, and a handler with a bare lease has no record. */
  ghost predicate BuildsInv(s: State) {
    && Building(s.memory.records) == RecordedIds(s.handlers) + RunningIds(s.handlers)
    && (forall id :: id in s.handlers && s.handlers[id].Leased? ==> id !in s.memory.records)
    && (forall id :: id in Building(s.memory.records) ==> s.memory.records[id].completedAt.None?)
  }

  /** Ids are fresh when leased, so every id to be found anywhere has been used. */
  ghost predicate UsedInv(s: State) {
    && s.handlers.Keys <= s.used && s.memory.records.Keys <= s.used && s.file.memory.records.Keys <= s.used
    && (s.pending.Some? ==> s.pending.value.memory.records.Keys <= s.used)
    && (s.collected.Some? ==> s.collected.value.Keys <= s.used)
  }

  /** What falling back on a snapshot loses is what its own numbers say. */
  ghost predicate SnapshotInv(p: Snapshot) {
    Unended(p.memory.metrics) == p.lost
  }

  /** The handler is done, one way or another. */
  predicate Exits(e: Event) {
    e.ReturnSuccess? || e.ReturnFailure? || e.Abort?
  }

  predicate Returns(e: Event) {
    e.ReturnSuccess? || e.ReturnFailure?
  }

  /** Every way a handler can end, from whatever phase, releases its lease and its token at once
      and no other's, and leaves its permit to be released next. */
  lemma ExitsRelease(s: State, e: Event)
    requires PermitsInv(s) && Exits(e) && Enabled(s, e)
    ensures var s' := Step(s, e);
      && e.id in Leases(s) && Leases(s') == Leases(s) - {e.id}
      && s'.active == s.active - {e.id}
      && s'.leaving == s.leaving + 1 && Held(s') == Held(s) && Enabled(s', Leave)
  {
    var s' := Step(s, e);
    assert Leases(s') == Leases(s) - {e.id};
  }

  lemma OneMore(all: set<string>, some: set<string>, active: set<string>, id: string)
    requires id !in all && some <= all && active == all - some
    ensures (all + {id}) - some == (all - some) + {id} && |(all - some) + {id}| == |all - some| + 1
    ensures active + {id} == (all + {id}) - some
  {
  }

  lemma LeaseEffect(s: State, id: string)
    requires Enabled(s, Lease(id))
    ensures var s' := Step(s, Lease(id));
      && s'.handlers.Keys == s.handlers.Keys + {id} && s'.active.Keys == s.active.Keys + {id}
      && s'.aborted == s.aborted && s'.leaving == s.leaving && s'.waiting == s.waiting - 1 && s'.limit == s.limit
  {
  }

  lemma FreshId(s: State, id: string)
    requires UsedInv(s) && id !in s.used
    ensures id !in s.handlers
  {
  }

  lemma PermitsLease(s: State, id: string)
    requires PermitsInv(s) && UsedInv(s) && Enabled(s, Lease(id))
    ensures PermitsInv(Step(s, Lease(id)))
  {
    FreshId(s, id);
    hide UsedInv, Step;
    LeaseEffect(s, id);
    OneMore(s.handlers.Keys, s.aborted, s.active.Keys, id);
  }

  lemma SameLeases(s: State, e: Event)
    requires PermitsInv(s) && Enabled(s, e) && !Exits(e) && !e.Lease? && !e.Restart?
    ensures Leases(Step(s, e)) == Leases(s) && Step(s, e).active.Keys == s.active.Keys
  {
  }

  lemma PermitsExit(s: State, e: Event)
    requires PermitsInv(s) && Exits(e) && Enabled(s, e)
    ensures PermitsInv(Step(s, e))
  {
    ExitsRelease(s, e);
  }

  lemma PermitsOther(s: State, e: Event)
    requires PermitsInv(s) && Enabled(s, e) && !Exits(e) && !e.Lease? && !e.Restart?
    ensures PermitsInv(Step(s, e))
  {
    SameLeases(s, e);
  }

  lemma PermitsStep(s: State, e: Event)
    requires PermitsInv(s) && UsedInv(s) && Enabled(s, e)
    ensures PermitsInv(Step(s, e))
  {
    hide Step, Enabled, UsedInv, PermitsInv;
    if Exits(e) {
      PermitsExit(s, e);
    } else if e.Lease? {
      PermitsLease(s, e.id);
    } else if e.Restart? {
      PermitsRestart(s, e);
    } else {
      PermitsOther(s, e);
    }
  }

  lemma PermitsRestart(s: State, e: Event)
    requires e.Restart?
    ensures PermitsInv(Step(s, e))
  {
    hide Reloaded;
    assert Leases(Step(s, e)) == {};
  }

  lemma UsedStep(s: State, e: Event)
    requires UsedInv(s) && Enabled(s, e)
    ensures UsedInv(Step(s, e))
  {
  }

  // Phases and statuses move one build at a time.

  lemma PhaseSets(handlers: map<string, Phase>, id: string, to: Phase)
    ensures RecordedIds(handlers[id := to]) ==
      if to.Recorded? then RecordedIds(handlers) + {id} else RecordedIds(handlers) - {id}
    ensures RunningIds(handlers[id := to]) ==
      if to.Running? then RunningIds(handlers) + {id} else RunningIds(handlers) - {id}
    ensures FinalizedIds(handlers[id := to]) ==
      if to.Finalized? then FinalizedIds(handlers) + {id} else FinalizedIds(handlers) - {id}
  {
  }

  lemma BuildingSet(records: map<string, BuildRecord>, id: string, r: BuildRecord)
    ensures Building(records[id := r]) ==
      if r.status == BUILDING then Building(records) + {id} else Building(records) - {id}
  {
  }

  lemma OutcomeStatus(m: Memory, id: string, o: Outcome, now: int)
    requires id in m.records
    ensures var m' := PutOutcome(m, id, o, now);
      id in m'.records && m' == m.(records := m.records[id := m'.records[id]]) && m'.records[id].status != BUILDING
  {
  }

  /** A handler puts a record in, or makes it final. */
  lemma HandlerStep(s: State, e: Event)
    requires BuildsInv(s) && Enabled(s, e) && (e.InsertRecord? || e.Finish?)
    ensures BuildsInv(Step(s, e))
  {
    match e {
      case InsertRecord(id, now) =>
        PhaseSets(s.handlers, id, Recorded);
        BuildingSet(s.memory.records, id, NewRecord(id, now));
      case Finish(id, r, now) =>
        var o := OutcomeOf(r);
        PhaseSets(s.handlers, id, Finalized(o));
        assert id in Building(s.memory.records);
        OutcomeStatus(s.memory, id, o, now);
        BuildingSet(s.memory.records, id, PutOutcome(s.memory, id, o, now).records[id]);
    }
  }

  lemma ExpiryKeepsBuilding(m: Memory, nowMs: int, ttlMs: nat)
    requires forall id :: id in Building(m.records) ==> m.records[id].completedAt.None?
    ensures Building(Removed(m, Expired(m.records, nowMs, ttlMs)).records) == Building(m.records)
  {
  }

  /** Other steps that touch records leave statuses, completion times and the set being built alone. */
  lemma OutsideStep(s: State, e: Event)
    requires BuildsInv(s) && (e.Git? || e.Expire? || e.Restart?)
    ensures BuildsInv(Step(s, e))
  {
    match e {
      case Git(id, git, now) =>
        if id in s.memory.records {
          BuildingSet(s.memory.records, id, WithGit(s.memory.records[id], git, now));
        }
      case Expire(nowMs, ttlMs) =>
        ExpiryKeepsBuilding(s.memory, nowMs, ttlMs);
      case Restart(now, seen) =>
    }
  }

  lemma BuildsStep(s: State, e: Event)
    requires BuildsInv(s) && UsedInv(s) && Enabled(s, e)
    ensures BuildsInv(Step(s, e))
  {
    hide NewRecord, PutOutcome, SetGit, Removed, Building;
    match e {
      case InsertRecord(_, _) => HandlerStep(s, e);
      case Finish(_, _, _) => HandlerStep(s, e);
      case Git(_, _, _) => OutsideStep(s, e);
      case Expire(_, _) => OutsideStep(s, e);
      case Restart(_, _) => OutsideStep(s, e);
      case _ =>
    }
  }

  // ---------------------------------------------------------------------------
  // Conservation.

  /** Every counter is at most n. */
  ghost predicate CountsUpTo(m: Memory, n: nat) {
    m.metrics.started <= n && m.metrics.succeeded <= n && m.metrics.failed <= n && m.metrics.cancelled <= n
  }

  ghost predicate CountsInv(s: State, n: nat) {
    CountsUpTo(s.memory, n) && CountsUpTo(s.file.memory, n) && (s.pending.Some? ==> CountsUpTo(s.pending.value.memory, n))
  }

  lemma CountsStep(s: State, e: Event, n: nat)
    requires CountsInv(s, n) && Enabled(s, e)
    ensures CountsInv(Step(s, e), n + 1)
  {
  }

  /** What the equation is about: the drift and the sizes of the sets between two counts. */
  function Balance(s: State): int {
    Drift(s.memory) + |RecordedIds(s.handlers)| - |FinalizedIds(s.handlers)|
  }

  lemma InsertBalance(s: State, id: string, now: int)
    requires BuildsInv(s) && Enabled(s, InsertRecord(id, now))
    ensures Balance(Step(s, InsertRecord(id, now))) == Balance(s)
  {
    PhaseSets(s.handlers, id, Recorded);
    BuildingSet(s.memory.records, id, NewRecord(id, now));
  }

  lemma FinishSets(s: State, id: string, r: BuildOutput, now: int)
    requires BuildsInv(s) && Enabled(s, Finish(id, r, now))
    ensures var s' := Step(s, Finish(id, r, now));
      && s'.memory.metrics == s.memory.metrics
      && id in Building(s.memory.records) && Building(s'.memory.records) == Building(s.memory.records) - {id}
      && RecordedIds(s'.handlers) == RecordedIds(s.handlers)
      && id !in FinalizedIds(s.handlers) && FinalizedIds(s'.handlers) == FinalizedIds(s.handlers) + {id}
  {
    hide PutOutcome, OutcomeOf;
    var o := OutcomeOf(r);
    PhaseSets(s.handlers, id, Finalized(o));
    assert id in Building(s.memory.records);
    OutcomeStatus(s.memory, id, o, now);
    BuildingSet(s.memory.records, id, PutOutcome(s.memory, id, o, now).records[id]);
  }

  lemma FinishBalance(s: State, id: string, r: BuildOutput, now: int)
    requires BuildsInv(s) && Enabled(s, Finish(id, r, now))
    ensures Balance(Step(s, Finish(id, r, now))) == Balance(s)
  {
    hide Step, Building, RecordedIds, FinalizedIds, BuildsInv;
    FinishSets(s, id, r, now);
  }

  lemma CountStartBalance(s: State, id: string)
    requires Enabled(s, CountStart(id)) && CountsUpTo(s.memory, U64_MAX - 1)
    ensures Balance(Step(s, CountStart(id))) == Balance(s)
  {
    hide Building;
    PhaseSets(s.handlers, id, Running);
  }

  lemma CountEndSets(s: State, id: string)
    requires Enabled(s, CountEnd(id))
    ensures var s' := Step(s, CountEnd(id));
      && s'.memory.records == s.memory.records
      && RecordedIds(s'.handlers) == RecordedIds(s.handlers)
      && id in FinalizedIds(s.handlers) && FinalizedIds(s'.handlers) == FinalizedIds(s.handlers) - {id}
  {
    hide CountOutcome;
    CountedOnce(s.memory, s.handlers[id].o);
    PhaseSets(s.handlers, id, Counted(s.handlers[id].o));
  }

  lemma CountedOnce(m: Memory, o: Outcome)
    ensures CountOutcome(m, o).records == m.records
    ensures CountsUpTo(m, U64_MAX - 1) ==> Drift(CountOutcome(m, o)) == Drift(m) - 1
  {
  }

  lemma CountEndBalance(s: State, id: string)
    requires Enabled(s, CountEnd(id)) && CountsUpTo(s.memory, U64_MAX - 1)
    ensures Balance(Step(s, CountEnd(id))) == Balance(s)
  {
    CountEndSets(s, id);
    CountedOnce(s.memory, s.handlers[id].o);
    assert Step(s, CountEnd(id)).memory == CountOutcome(s.memory, s.handlers[id].o);
    hide Step, CountOutcome, Drift, RecordedIds, FinalizedIds, Building;
  }

  lemma OutsideBalance(s: State, e: Event)
    requires BuildsInv(s) && (e.Git? || e.Expire?)
    ensures Balance(Step(s, e)) == Balance(s)
  {
    match e {
      case Git(id, git, now) =>
        if id in s.memory.records {
          BuildingSet(s.memory.records, id, WithGit(s.memory.records[id], git, now));
        }
      case Expire(nowMs, ttlMs) =>
        ExpiryKeepsBuilding(s.memory, nowMs, ttlMs);
    }
  }

  /** A handler that returns has been counted, so none of the sets is concerned. */
  lemma ReturnedSets(s: State, id: string)
    requires id in s.handlers && s.handlers[id].Counted?
    ensures var s' := Returned(s, id);
      && s'.memory == s.memory && RecordedIds(s'.handlers) == RecordedIds(s.handlers)
      && RunningIds(s'.handlers) == RunningIds(s.handlers) && FinalizedIds(s'.handlers) == FinalizedIds(s.handlers)
  {
  }

  /** A fresh id is in no set, before and after. */
  lemma LeasedSets(s: State, id: string)
    requires UsedInv(s) && Enabled(s, Lease(id))
    ensures var s' := Step(s, Lease(id));
      && s'.memory == s.memory && RecordedIds(s'.handlers) == RecordedIds(s.handlers)
      && RunningIds(s'.handlers) == RunningIds(s.handlers) && FinalizedIds(s'.handlers) == FinalizedIds(s.handlers)
  {
    hide RecordedIds, RunningIds, FinalizedIds;
    PhaseSets(s.handlers, id, Leased);
    NotInSets(s.handlers, id);
  }

  lemma NotInSets(handlers: map<string, Phase>, id: string)
    requires id !in handlers
    ensures id !in RecordedIds(handlers) && id !in RunningIds(handlers) && id !in FinalizedIds(handlers)
  {
  }

  lemma LeaseBalance(s: State, e: Event)
    requires UsedInv(s) && Enabled(s, e)
    requires e.Accept? || e.Malformed? || e.Lease? || Exits(e) || e.Leave? || e.CancelAll?
      || e.Collect? || e.Capture? || e.Commit? || e.Abandon?
    ensures Balance(Step(s, e)) == Balance(s)
  {
    hide RecordedIds, RunningIds, FinalizedIds, Building, UsedInv, Leases;
    match e {
      case Lease(id) => LeasedSets(s, id);
      case ReturnSuccess(id) => ReturnedSets(s, id);
      case ReturnFailure(id) => ReturnedSets(s, id);
      case _ =>
    }
  }

  /** Every step but a restart leaves the balance alone, whatever the handlers are up to. */
  lemma BalanceStep(s: State, e: Event)
    requires BuildsInv(s) && UsedInv(s) && Enabled(s, e) && !e.Restart? && CountsUpTo(s.memory, U64_MAX - 1)
    ensures Balance(Step(s, e)) == Balance(s)
  {
    hide Balance, Step;
    match e {
      case InsertRecord(id, now) => InsertBalance(s, id, now);
      case Finish(id, r, now) => FinishBalance(s, id, r, now);
      case CountStart(id) => CountStartBalance(s, id);
      case CountEnd(id) => CountEndBalance(s, id);
      case Git(_, _, _) => OutsideBalance(s, e);
      case Expire(_, _) => OutsideBalance(s, e);
      case _ => LeaseBalance(s, e);
    }
  }

  /** A snapshot completed now carries the builds that would be lost by falling back on it, whenever
      its records were collected. */
  lemma CaptureBalance(s: State)
    requires BuildsInv(s) && Balance(s) == s.lost && Enabled(s, Capture)
    ensures SnapshotInv(Step(s, Capture).pending.value)
  {
    assert |RecordedIds(s.handlers) + RunningIds(s.handlers)| == |RecordedIds(s.handlers)| + |RunningIds(s.handlers)|;
  }

  /** A restart loses exactly the builds that its snapshot counts as started and not as ended. */
  lemma RestartBalance(s: State, now: int, seen: bool)
    requires SnapshotInv(s.file)
    ensures Balance(Step(s, Restart(now, seen))) == Step(s, Restart(now, seen)).lost == if seen then s.file.lost else 0
  {
    hide Step, Drift, RecordedIds, FinalizedIds, AllConverted, Reloaded;
    RestartEffect(s, now, seen);
    NoPhases();
    if seen {
      ReloadedDrift(s.file.memory, now);
    } else {
      EmptyDrift();
    }
  }

  lemma ReloadedDrift(m: Memory, now: int)
    ensures Drift(Reloaded(m, now)) == Unended(m.metrics)
  {
    NothingBuilding(m.records, now);
    hide Building, AllConverted;
  }

  lemma RestartEffect(s: State, now: int, seen: bool)
    ensures var s' := Step(s, Restart(now, seen));
      && s'.handlers == map[] && s'.lost == (if seen then s.file.lost else 0)
      && s'.memory == if seen then Reloaded(s.file.memory, now) else Memory(map[], NO_METRICS)
  {
  }

  lemma NoPhases()
    ensures RecordedIds(map[]) == {} == FinalizedIds(map[])
  {
  }

  lemma NothingBuilding(records: map<string, BuildRecord>, now: int)
    ensures Building(AllConverted(records, now)) == {}
  {
  }

  ghost predicate ConservedInv(s: State) {
    Balance(s) == s.lost && SnapshotInv(s.file) && (s.pending.Some? ==> SnapshotInv(s.pending.value))
  }

  lemma ConservedStep(s: State, e: Event)
    requires BuildsInv(s) && UsedInv(s) && ConservedInv(s) && Enabled(s, e) && CountsUpTo(s.memory, U64_MAX - 1)
    ensures ConservedInv(Step(s, e))
  {
    hide Balance, SnapshotInv, BuildsInv, UsedInv, CountsUpTo, AllConverted, InFlight, Refreshed;
    match e {
      case Restart(now, seen) => RestartBalance(s, now, seen);
      case Capture =>
        CaptureBalance(s);
        BalanceStep(s, e);
      case _ => BalanceStep(s, e);
    }
  }

  /** A worker on the store loaded from f, with counters no higher than c. */
  ghost predicate BootedFrom(start: State, limit: nat, f: File, now: int, c: nat) {
    && Loaded(f, now).Some?
    && start == Booted(limit, Loaded(f, now).value)
    && CountsUpTo(start.memory, c)
  }

  /** In every reachable state: permits bound leases, leases are what is active, records being
      built are those of running handlers, and the drift is what was lost. */
  lemma {:induction false} RunInvariant(start: State, limit: nat, f: File, now: int, c: nat, run: seq<Event>)
    requires BootedFrom(start, limit, f, now, c) && Exec(start, run).Some? && c + |run| < U64_MAX
    ensures var s := Exec(start, run).value;
      PermitsInv(s) && BuildsInv(s) && UsedInv(s) && ConservedInv(s) && CountsInv(s, c + |run|) && s.limit == limit
  {
    hide BootedFrom, PermitsInv, BuildsInv, UsedInv, ConservedInv, CountsInv, Step, Enabled;
    if run == [] {
      BootInvariant(start, limit, f, now, c);
    } else {
      var n := |run| - 1;
      RunInvariant(start, limit, f, now, c, run[..n]);
      var s, e := Exec(start, run[..n]).value, run[n];
      CountsBound(s, c + n);
      PermitsStep(s, e);
      BuildsStep(s, e);
      UsedStep(s, e);
      CountsStep(s, e, c + n);
      ConservedStep(s, e);
      LimitKept(s, e);
    }
  }

  lemma BootInvariant(start: State, limit: nat, f: File, now: int, c: nat)
    requires BootedFrom(start, limit, f, now, c)
    ensures PermitsInv(start) && BuildsInv(start) && UsedInv(start) && ConservedInv(start) && CountsInv(start, c)
    ensures start.limit == limit
  {
    if f.Current? || f.Legacy? {
      LoadKeepsCompleted(f, now);
    }
    assert Building(start.memory.records) == {};
  }

  lemma CountsBound(s: State, n: nat)
    requires CountsInv(s, n) && n < U64_MAX
    ensures CountsUpTo(s.memory, U64_MAX - 1)
  {
  }

  lemma LimitKept(s: State, e: Event)
    requires Enabled(s, e)
    ensures Step(s, e).limit == s.limit
  {
  }

  /** Never more builds active than permits held, nor more permits held than the limit allows;
      and the active builds are exactly those with a live lease. */
  lemma ActiveWithinPermits(start: State, limit: nat, f: File, now: int, c: nat, run: seq<Event>)
    requires BootedFrom(start, limit, f, now, c) && Exec(start, run).Some? && c + |run| < U64_MAX
    ensures var s := Exec(start, run).value;
      |s.active| <= Held(s) <= (if limit == 0 then 1 else limit) && s.active.Keys == Leases(s)
  {
    hide BootedFrom, PermitsInv, BuildsInv, UsedInv, ConservedInv, CountsInv, Step, Exec, Held, Leases;
    RunInvariant(start, limit, f, now, c, run);
    ActiveAtMostHeld(Exec(start, run).value);
  }

  lemma ActiveAtMostHeld(s: State)
    requires PermitsInv(s)
    ensures |s.active| <= Held(s) <= Permits(s.limit) && s.active.Keys == Leases(s)
  {
    assert |s.active| == |s.active.Keys| == |Leases(s)|;
  }

  /** And no fewer: while that many permits are not yet held, another request is accepted. */
  lemma PermitsReached(s: State)
    ensures Enabled(s, Accept) <==> Held(s) < if s.limit == 0 then 1 else s.limit
  {
  }

  // ---------------------------------------------------------------------------
  // No permit leaks: handlers that go on to their end free them all.

  lemma {:induction false} ExecAppend(s: State, a: seq<Event>, t: State, b: seq<Event>)
    requires Exec(s, a) == Some(t)
    ensures Exec(s, a + b) == Exec(t, b)
    decreases |b|
  {
    hide Step, Enabled;
    if b == [] {
      assert a + b == a;
    } else {
      var n := |b| - 1;
      ExecAppend(s, a, t, b[..n]);
      assert (a + b)[..|a + b| - 1] == a + b[..n];
    }
  }

  lemma ExecOne(s: State, e: Event)
    requires Enabled(s, e)
    ensures Exec(s, [e]) == Some(Step(s, e))
  {
    hide Step, Enabled;
    assert [e][..0] == [];
    assert Exec(s, []) == Some(s);
  }

  /** A handler's own steps to its end, and the release of permits; no abort among them. */
  predicate Ordinary(e: Event) {
    e.Malformed? || e.InsertRecord? || e.CountStart? || e.Finish? || e.CountEnd? || Returns(e) || e.Leave?
  }

  ghost predicate AllOrdinary(run: seq<Event>) {
    forall e :: e in run ==> Ordinary(e)
  }

  lemma OrdinaryFirst(e: Event, run: seq<Event>)
    requires Ordinary(e) && AllOrdinary(run)
    ensures AllOrdinary([e] + run)
  {
  }

  /** What a handler with a live lease does next, if its build fails. */
  function NextEvent(s: State, id: string): (e: Event)
    requires id in Leases(s)
    ensures Enabled(s, e) && Ordinary(e)
  {
    match s.handlers[id]
    case Leased => InsertRecord(id, 0)
    case Recorded => CountStart(id)
    case Running => Finish(id, Error(""), 0)
    case Finalized(_) => CountEnd(id)
    case Counted(o) => if o.Success? then ReturnSuccess(id) else ReturnFailure(id)
  }

  function StepsLeft(p: Phase): nat {
    match p
    case Leased => 5
    case Recorded => 4
    case Running => 3
    case Finalized(_) => 2
    case Counted(_) => 1
  }

  lemma NextStep(s: State, id: string)
    requires PermitsInv(s) && id in Leases(s)
    ensures var e, s' := NextEvent(s, id), Step(s, NextEvent(s, id));
      && PermitsInv(s') && s'.waiting == s.waiting
      && (if Returns(e) then Leases(s') == Leases(s) - {id} && s'.leaving == s.leaving + 1
          else Leases(s') == Leases(s) && s'.leaving == s.leaving
               && StepsLeft(s'.handlers[id]) == StepsLeft(s.handlers[id]) - 1)
  {
    hide PutNew, PutOutcome, CountOutcome, CountStarted, OutcomeOf, PermitsInv, Held;
    var e := NextEvent(s, id);
    if Returns(e) {
      ExitsRelease(s, e);
    } else {
      SameLeases(s, e);
    }
    KeepsPermits(s, e);
  }

  lemma KeepsPermits(s: State, e: Event)
    requires PermitsInv(s) && Enabled(s, e) && Ordinary(e)
    ensures PermitsInv(Step(s, e))
  {
    if Returns(e) {
      ExitsRelease(s, e);
    } else {
      SameLeases(s, e);
    }
  }

  /** From any state a handler can go on to its end. */
  lemma {:induction false} HandlerReturns(s: State, id: string) returns (run: seq<Event>, t: State)
    requires PermitsInv(s) && id in Leases(s)
    ensures Exec(s, run) == Some(t) && AllOrdinary(run) && PermitsInv(t)
    ensures t.waiting == s.waiting && Leases(t) == Leases(s) - {id} && t.leaving == s.leaving + 1
    decreases StepsLeft(s.handlers[id])
  {
    hide PermitsInv, Step, Enabled, NextEvent, Exec, Leases, Ordinary, AllOrdinary;
    var e := NextEvent(s, id);
    NextStep(s, id);
    ExecOne(s, e);
    if Returns(e) {
      run, t := [e], Step(s, e);
      NothingOrdinary();
      OrdinaryFirst(e, []);
      assert [e] + [] == [e];
    } else {
      var rest;
      rest, t := HandlerReturns(Step(s, e), id);
      run := [e] + rest;
      ExecAppend(s, [e], Step(s, e), rest);
      OrdinaryFirst(e, rest);
    }
  }

  lemma NothingOrdinary()
    ensures AllOrdinary([])
  {
  }

  lemma OrdinaryAppend(a: seq<Event>, b: seq<Event>)
    requires AllOrdinary(a) && AllOrdinary(b)
    ensures AllOrdinary(a + b)
  {
  }

  /** From any state the worker can come to hold no permit and no lease, by nothing but handlers
      going on to their end, whatever was aborted before. */
  lemma {:induction false} PermitsComeBack(s: State) returns (run: seq<Event>, t: State)
    requires PermitsInv(s)
    ensures Exec(s, run) == Some(t) && AllOrdinary(run)
    ensures Held(t) == 0 && t.active == map[]
    decreases s.waiting, |Leases(s)|, s.leaving
  {
    hide Exec, AllOrdinary, Step;
    var first, u;
    if s.waiting > 0 {
      first, u := Released(s, Malformed);
    } else if id :| id in Leases(s) {
      first, u := HandlerReturns(s, id);
    } else if s.leaving > 0 {
      first, u := Released(s, Leave);
    } else {
      NothingOrdinary();
      run, t := [], s;
      ExecNothing(s);
      assert s.active.Keys == {};
      return;
    }
    run, t := PermitsComeBack(u);
    ExecAppend(s, first, u, run);
    OrdinaryAppend(first, run);
    run := first + run;
  }

  lemma ExecNothing(s: State)
    ensures Exec(s, []) == Some(s)
  {
  }

  lemma Released(s: State, e: Event) returns (run: seq<Event>, t: State)
    requires PermitsInv(s) && Enabled(s, e) && (e.Malformed? || e.Leave?)
    ensures Exec(s, run) == Some(t) && AllOrdinary(run) && PermitsInv(t) && Leases(t) == Leases(s)
    ensures if e.Malformed? then t.waiting == s.waiting - 1 else t.waiting == s.waiting && t.leaving == s.leaving - 1
  {
    run, t := [e], Step(s, e);
    ExecOne(s, e);
  }

  /** In every reachable state, started builds are those that succeeded, failed or were cancelled,
      those whose handler has started and not yet counted their end, and those lost. A handler that
      was aborted in between stays where it was. */
  lemma StartedIsAccountedFor(start: State, limit: nat, f: File, now: int, c: nat, run: seq<Event>)
    requires BootedFrom(start, limit, f, now, c) && Exec(start, run).Some? && c + |run| < U64_MAX
    ensures var s := Exec(start, run).value;
      var m := s.memory.metrics;
      m.started == m.succeeded + m.failed + m.cancelled + |RunningIds(s.handlers)| + |FinalizedIds(s.handlers)| + s.lost
  {
    RunInvariant(start, limit, f, now, c, run);
    BalanceMeans(Exec(start, run).value);
  }

  lemma BalanceMeans(s: State)
    requires BuildsInv(s)
    ensures Balance(s) == Unended(s.memory.metrics) - InFlight(s)
  {
    assert |RecordedIds(s.handlers) + RunningIds(s.handlers)| == |RecordedIds(s.handlers)| + |RunningIds(s.handlers)|;
  }

  /** What a handler had not counted when it was aborted is not counted later. */
  lemma AbortedStays(s: State, e: Event, id: string)
    requires id in s.aborted && id in s.handlers && UsedInv(s) && Enabled(s, e) && !e.Restart?
    ensures var s' := Step(s, e); id in s'.aborted && id in s'.handlers && s'.handlers[id] == s.handlers[id]
  {
  }

  /** Without a restart nothing is lost beyond the drift the store was loaded with: none at all
      from an empty store, or from a legacy file without records of odd status. */
  lemma {:induction false} NothingLostWithoutRestart(start: State, run: seq<Event>)
    requires Exec(start, run).Some? && forall e :: e in run ==> !e.Restart?
    ensures Exec(start, run).value.lost == start.lost
  {
    hide Enabled;
    if run != [] {
      var n := |run| - 1;
      assert run[n] in run;
      NothingLostWithoutRestart(start, run[..n]);
    }
  }

  /** A restart on a snapshot just captured and committed leaves the counters short by exactly the
      builds that had started and not been counted as ended when the metrics were locked, besides
      those lost before; while every record of theirs, like any other, is as it was collected, but
      failed if it was building. */
  lemma RestartLoses(s: State, now: int)
    requires BuildsInv(s) && UsedInv(s) && ConservedInv(s) && Enabled(s, Capture)
    ensures var m := Step(Step(Step(s, Capture), Commit), Restart(now, true)).memory;
      && m.metrics.started - m.metrics.succeeded - m.metrics.failed - m.metrics.cancelled
         == s.lost + |RunningIds(s.handlers)| + |FinalizedIds(s.handlers)|
      && m.records == AllConverted(s.collected.value, now) && Building(m.records) == {}
  {
    BalanceMeans(s);
  }

  /** A build that is collected as building, and finished and counted before the metrics are
      locked, is in the snapshot as building and as succeeded; after a restart, as failed. */
  lemma MixedSnapshot(now: int)
    ensures var run := [
        Accept, Lease("b"), InsertRecord("b", now), CountStart("b"), Collect,
        Finish("b", Built(BuildResult("t", 0)), now), CountEnd("b"), Capture, Commit, Restart(now, true)];
      var s := Exec(Booted(1, Memory(map[], NO_METRICS)), run);
      && s.Some? && "b" in s.value.memory.records && s.value.memory.records["b"].status == FAILED
      && s.value.memory.metrics.succeeded == 1 && s.value.memory.metrics.failed == 0 && s.value.lost == 0
  {
    hide Exec;
    var b, done := "b", Built(BuildResult("t", 0));
    var s0 := Booted(1, Memory(map[], NO_METRICS));
    var run0 := [Accept, Lease(b), InsertRecord(b, now), CountStart(b), Collect];
    var run1 := [Finish(b, done, now), CountEnd(b), Capture, Commit, Restart(now, true)];
    var s5 := ToCollected(s0, b, now);
    var s10 := ToRestarted(s5, b, done, now);
    ExecAppend(s0, run0, s5, run1);
    assert run0 + run1 == [
      Accept, Lease("b"), InsertRecord("b", now), CountStart("b"), Collect,
      Finish("b", Built(BuildResult("t", 0)), now), CountEnd("b"), Capture, Commit, Restart(now, true)];
  }

  lemma ExecMore(s: State, run: seq<Event>, t: State, e: Event, more: seq<Event>)
    requires Exec(s, run) == Some(t) && Enabled(t, e) && more == run + [e]
    ensures Exec(s, more) == Some(Step(t, e))
  {
    hide Exec, Step, Enabled;
    ExecOne(t, e);
    ExecAppend(s, run, t, [e]);
  }

  lemma ExecFive(s: State, a: Event, b: Event, c: Event, d: Event, e: Event, t: State)
    requires Enabled(s, a) && Enabled(Step(s, a), b) && Enabled(Step(Step(s, a), b), c)
    requires Enabled(Step(Step(Step(s, a), b), c), d)
    requires Enabled(Step(Step(Step(Step(s, a), b), c), d), e)
    requires t == Step(Step(Step(Step(Step(s, a), b), c), d), e)
    ensures Exec(s, [a, b, c, d, e]) == Some(t)
  {
    hide Step, Enabled, Exec;
    var s1 := Step(s, a);
    var s2 := Step(s1, b);
    var s3 := Step(s2, c);
    var s4 := Step(s3, d);
    ExecOne(s, a);
    ExecMore(s, [a], s1, b, [a, b]);
    ExecMore(s, [a, b], s2, c, [a, b, c]);
    ExecMore(s, [a, b, c], s3, d, [a, b, c, d]);
    ExecMore(s, [a, b, c, d], s4, e, [a, b, c, d, e]);
  }

  /** One build is all there is, in that phase; the counters are as given. */
  ghost predicate OnlyBuild(s: State, id: string, p: Phase, started: u64, succeeded: u64) {
    && s.handlers == map[id := p] && s.aborted == {} && s.lost == 0 && s.pending.None?
    && s.memory.metrics.started == started && s.memory.metrics.succeeded == succeeded
    && s.memory.metrics.failed == 0 && s.memory.metrics.cancelled == 0
  }

  ghost predicate HasStatus(records: map<string, BuildRecord>, id: string, status: int) {
    id in records && records[id].status == status
  }

  lemma FirstLease(s0: State, id: string)
    requires s0 == Booted(1, Memory(map[], NO_METRICS))
    ensures Enabled(s0, Accept) && Enabled(Step(s0, Accept), Lease(id))
    ensures var s := Step(Step(s0, Accept), Lease(id)); OnlyBuild(s, id, Leased, 0, 0) && s.collected.None?
  {
    hide Drift, Building;
    EmptyDrift();
    assert Leases(s0) == {};
    assert (map[])[id := Leased] == map[id := Leased];
  }

  lemma ToRunning(s: State, id: string, now: int)
    requires OnlyBuild(s, id, Leased, 0, 0) && s.collected.None?
    ensures Enabled(s, InsertRecord(id, now)) && Enabled(Step(s, InsertRecord(id, now)), CountStart(id))
    ensures var t := Step(Step(s, InsertRecord(id, now)), CountStart(id));
      OnlyBuild(t, id, Running, 1, 0) && t.collected.None? && HasStatus(t.memory.records, id, BUILDING)
  {
    assert (map[id := Leased])[id := Recorded] == map[id := Recorded];
    assert (map[id := Recorded])[id := Running] == map[id := Running];
  }

  lemma CollectNow(s: State, id: string)
    requires OnlyBuild(s, id, Running, 1, 0) && s.collected.None? && HasStatus(s.memory.records, id, BUILDING)
    ensures Enabled(s, Collect)
    ensures var t := Step(s, Collect);
      OnlyBuild(t, id, Running, 1, 0) && HasStatus(t.memory.records, id, BUILDING) && t.collected == Some(t.memory.records)
  {
  }

  lemma ToCollected(s0: State, id: string, now: int) returns (s: State)
    requires s0 == Booted(1, Memory(map[], NO_METRICS))
    ensures Exec(s0, [Accept, Lease(id), InsertRecord(id, now), CountStart(id), Collect]) == Some(s)
    ensures OnlyBuild(s, id, Running, 1, 0) && HasStatus(s.memory.records, id, BUILDING)
    ensures s.collected == Some(s.memory.records)
  {
    FirstLease(s0, id);
    var s2 := Step(Step(s0, Accept), Lease(id));
    ToRunning(s2, id, now);
    var s4 := Step(Step(s2, InsertRecord(id, now)), CountStart(id));
    CollectNow(s4, id);
    hide Step, Enabled, Exec, Booted, OnlyBuild, HasStatus;
    s := Step(s4, Collect);
    ExecFive(s0, Accept, Lease(id), InsertRecord(id, now), CountStart(id), Collect, s);
  }

  lemma ToCounted(s: State, id: string, done: BuildOutput, now: int)
    requires OnlyBuild(s, id, Running, 1, 0) && HasStatus(s.memory.records, id, BUILDING) && done.Built?
    ensures Enabled(s, Finish(id, done, now)) && Enabled(Step(s, Finish(id, done, now)), CountEnd(id))
    ensures var t := Step(Step(s, Finish(id, done, now)), CountEnd(id));
      OnlyBuild(t, id, Counted(OutcomeOf(done)), 1, 1) && t.collected == s.collected
  {
    assert (map[id := Running])[id := Finalized(OutcomeOf(done))] == map[id := Finalized(OutcomeOf(done))];
    assert (map[id := Finalized(OutcomeOf(done))])[id := Counted(OutcomeOf(done))] == map[id := Counted(OutcomeOf(done))];
    hide Succeeded;
  }

  lemma CaptureAndRestart(s: State, id: string, o: Outcome, now: int)
    requires OnlyBuild(s, id, Counted(o), 1, 1) && s.collected.Some? && HasStatus(s.collected.value, id, BUILDING)
    ensures Enabled(s, Capture) && Enabled(Step(s, Capture), Commit)
    ensures var t := Step(Step(Step(s, Capture), Commit), Restart(now, true));
      && HasStatus(t.memory.records, id, FAILED)
      && t.memory.metrics.succeeded == 1 && t.memory.metrics.failed == 0 && t.lost == 0
  {
    hide Building;
    assert RunningIds(s.handlers) == {} && FinalizedIds(s.handlers) == {};
  }

  lemma RestartPossible(s: State, now: int)
    ensures Enabled(s, Restart(now, true))
  {
  }

  lemma ToRestarted(s0: State, id: string, done: BuildOutput, now: int) returns (s: State)
    requires OnlyBuild(s0, id, Running, 1, 0) && HasStatus(s0.memory.records, id, BUILDING) && done.Built?
    requires s0.collected == Some(s0.memory.records)
    ensures Exec(s0, [Finish(id, done, now), CountEnd(id), Capture, Commit, Restart(now, true)]) == Some(s)
    ensures HasStatus(s.memory.records, id, FAILED)
    ensures s.memory.metrics.succeeded == 1 && s.memory.metrics.failed == 0 && s.lost == 0
  {
    ToCounted(s0, id, done, now);
    var s2 := Step(Step(s0, Finish(id, done, now)), CountEnd(id));
    CaptureAndRestart(s2, id, OutcomeOf(done), now);
    hide Step, Enabled, Exec, OnlyBuild, OutcomeOf;
    RestartPossible(Step(Step(s2, Capture), Commit), now);
    s := Step(Step(Step(s2, Capture), Commit), Restart(now, true));
    ExecFive(s0, Finish(id, done, now), CountEnd(id), Capture, Commit, Restart(now, true), s);
  }

  // ---------------------------------------------------------------------------
  // When a snapshot's records and counters agree: its records are those of the moment they were
  // collected, its counters those of the moment the metrics were locked.

  /** The steps others take while a persist waits for the metrics. */
  ghost predicate Meanwhile(mid: seq<Event>) {
    forall e :: e in mid ==> !e.Restart? && !e.Abandon? && !e.Capture?
  }

  lemma CollectedStep(s: State, e: Event)
    requires s.collected.Some? && Enabled(s, e) && !e.Restart? && !e.Abandon? && !e.Capture?
    ensures Step(s, e).collected == s.collected
  {
  }

  lemma {:induction false} CollectedKept(s: State, mid: seq<Event>, t: State)
    requires s.collected.Some? && Meanwhile(mid) && Exec(s, mid) == Some(t)
    ensures t.collected == s.collected
  {
    hide Step, Enabled;
    if mid != [] {
      var n := |mid| - 1;
      assert mid[n] in mid;
      assert Meanwhile(mid[..n]);
      CollectedKept(s, mid[..n], Exec(s, mid[..n]).value);
      CollectedStep(Exec(s, mid[..n]).value, mid[n]);
    }
  }

  /** Builds counted as started, and as ended, by these steps. */
  function Starts(mid: seq<Event>): set<string> {
    set e | e in mid && e.CountStart? :: e.id
  }

  function Ends(mid: seq<Event>): set<string> {
    set e | e in mid && e.CountEnd? :: e.id
  }

  lemma StartsAppend(mid: seq<Event>, e: Event)
    ensures Starts(mid + [e]) == if e.CountStart? then Starts(mid) + {e.id} else Starts(mid)
    ensures Ends(mid + [e]) == if e.CountEnd? then Ends(mid) + {e.id} else Ends(mid)
  {
    assert forall x :: x in mid + [e] <==> x in mid || x == e;
  }

  /** Builds counted as started and not yet as ended. */
  function InFlightIds(handlers: map<string, Phase>): set<string> {
    RunningIds(handlers) + FinalizedIds(handlers)
  }

  ghost predicate IdsUsed(s: State) {
    s.handlers.Keys <= s.used
  }

  /** A step moves a build into flight by counting its start, and out by counting its end. */
  lemma InFlightStep(s: State, e: Event)
    requires IdsUsed(s) && Enabled(s, e) && !e.Restart?
    ensures var s' := Step(s, e);
      && IdsUsed(s')
      && InFlightIds(s'.handlers) ==
           (if e.CountStart? then InFlightIds(s.handlers) + {e.id}
            else if e.CountEnd? then InFlightIds(s.handlers) - {e.id}
            else InFlightIds(s.handlers))
  {
    hide PutNew, PutOutcome, CountOutcome, CountStarted, OutcomeOf, Assembled, Removed, SetGit, Leases;
  }

  /** Builds in flight at first are never counted as started again, and those that have ended meanwhile
      are never again in a phase before that. */
  ghost predicate Past(s: State, t: State, mid: seq<Event>) {
    && (forall id :: id in InFlightIds(s.handlers) || id in Ends(mid) ==> id in t.used)
    && (forall id :: id in InFlightIds(s.handlers) && id in t.handlers ==>
         !t.handlers[id].Leased? && !t.handlers[id].Recorded?)
    && (forall id :: id in Ends(mid) && id in t.handlers ==> t.handlers[id].Counted?)
  }

  lemma PastStep(s: State, t: State, mid: seq<Event>, e: Event)
    requires Past(s, t, mid) && IdsUsed(t) && Enabled(t, e) && !e.Restart?
    ensures Past(s, Step(t, e), mid + [e])
  {
    hide PutNew, PutOutcome, CountOutcome, CountStarted, OutcomeOf, Assembled, Removed, SetGit, Leases, InFlightIds, Ends;
    StartsAppend(mid, e);
  }

  /** In flight after some steps is what was before, with what has been counted as started and
      without what has been counted as ended; none of which was in flight before it started. */
  lemma {:induction false} InFlightAfter(s: State, mid: seq<Event>, t: State)
    requires IdsUsed(s) && Meanwhile(mid) && Exec(s, mid) == Some(t)
    ensures InFlightIds(t.handlers) == (InFlightIds(s.handlers) + Starts(mid)) - Ends(mid)
    ensures Starts(mid) !! InFlightIds(s.handlers) && IdsUsed(t) && Past(s, t, mid)
  {
    hide Step, Enabled, InFlightIds, Starts, Ends, Past, IdsUsed;
    if mid == [] {
      NothingMeanwhile(s);
    } else {
      var n := |mid| - 1;
      var u, e := Exec(s, mid[..n]).value, mid[n];
      assert e in mid && mid == mid[..n] + [e];
      assert Meanwhile(mid[..n]);
      InFlightAfter(s, mid[..n], u);
      InFlightStep(u, e);
      PastStep(s, u, mid[..n], e);
      StartsAppend(mid[..n], e);
      if e.CountStart? {
        NotStartedBefore(s, u, mid[..n], e);
      }
    }
  }

  lemma NothingMeanwhile(s: State)
    requires IdsUsed(s)
    ensures Starts([]) == {} == Ends([]) && Past(s, s, [])
  {
  }

  lemma NotStartedBefore(s: State, t: State, mid: seq<Event>, e: Event)
    requires Past(s, t, mid) && Enabled(t, e) && e.CountStart?
    ensures e.id !in InFlightIds(s.handlers) && e.id !in Ends(mid)
  {
    hide InFlightIds, Ends;
  }

  /** The records a snapshot shows as building are the builds its counters show as in flight, if
      and only if meanwhile: of the builds not yet counted as ended, exactly those recorded at
      first have been counted as started; of those running at first none has been counted as ended;
      and of those finalized at first all have been. */
  lemma SnapshotAgreesIff(s: State, mid: seq<Event>, t: State)
    requires BuildsInv(s) && UsedInv(s) && Enabled(s, Collect)
    requires Meanwhile(mid) && Exec(Step(s, Collect), mid) == Some(t)
    ensures t.collected == Some(s.memory.records)
    ensures Building(s.memory.records) == InFlightIds(t.handlers) <==>
      && RecordedIds(s.handlers) == Starts(mid) - Ends(mid)
      && RunningIds(s.handlers) !! Ends(mid)
      && FinalizedIds(s.handlers) <= Ends(mid)
  {
    CollectStep(s);
    CollectedKept(Step(s, Collect), mid, t);
    InFlightAfter(Step(s, Collect), mid, t);
    hide Step, Exec, Enabled, UsedInv, Starts, Ends, Past, Building;
    assert Building(s.memory.records) == RecordedIds(s.handlers) + RunningIds(s.handlers);
    PhasesApart(s.handlers);
    hide RecordedIds, RunningIds, FinalizedIds, BuildsInv;
    SetsAgree(RecordedIds(s.handlers), RunningIds(s.handlers), FinalizedIds(s.handlers), Starts(mid), Ends(mid));
  }

  lemma CollectStep(s: State)
    requires UsedInv(s) && Enabled(s, Collect)
    ensures var s' := Step(s, Collect);
      IdsUsed(s') && s'.handlers == s.handlers && s'.collected == Some(s.memory.records) && s'.memory == s.memory
  {
  }

  lemma PhasesApart(handlers: map<string, Phase>)
    ensures RecordedIds(handlers) !! RunningIds(handlers) !! FinalizedIds(handlers)
  {
  }

  lemma SetsAgree(recorded: set<string>, running: set<string>, finalized: set<string>, starts: set<string>, ends: set<string>)
    requires recorded !! running !! finalized && starts !! (running + finalized)
    ensures recorded + running == ((running + finalized) + starts) - ends <==>
      recorded == starts - ends && running !! ends && finalized <= ends
  {
    var left, right := recorded + running, ((running + finalized) + starts) - ends;
    if left == right {
      assert forall id :: id in starts - ends ==> id in right;
      assert forall id :: id in recorded ==> id in left;
      assert forall id :: id in running ==> id in left;
      assert forall id :: id in finalized ==> id !in left;
    }
  }

  /** A snapshot's own numbers show no other drift than what has really been lost, if and only if as
      many builds were in flight when the metrics were locked as were recorded or running when the
      records were collected. */
  lemma SnapshotDriftIff(s: State, mid: seq<Event>, t: State)
    requires BuildsInv(s) && BuildsInv(t) && ConservedInv(t) && Enabled(s, Collect)
    requires Meanwhile(mid) && Exec(Step(s, Collect), mid) == Some(t)
    ensures t.collected == Some(s.memory.records)
    ensures Drift(Assembled(s.memory.records, t.memory.metrics)) == t.lost <==>
      |RunningIds(t.handlers)| + |FinalizedIds(t.handlers)| == |RecordedIds(s.handlers)| + |RunningIds(s.handlers)|
  {
    CollectedKept(Step(s, Collect), mid, t);
    BalanceMeans(t);
    BalanceMeans(s);
  }

  lemma {:induction false} ExecSplit(s: State, a: seq<Event>, b: seq<Event>)
    requires Exec(s, a + b).Some?
    ensures Exec(s, a).Some? && Exec(s, a + b) == Exec(Exec(s, a).value, b)
    decreases |b|
  {
    hide Step, Enabled;
    if b == [] {
      assert a + b == a;
    } else {
      var n := |b| - 1;
      assert (a + b)[..|a + b| - 1] == a + b[..n];
      ExecSplit(s, a, b[..n]);
    }
  }

  lemma ExecSplitOne(s: State, e: Event)
    requires Exec(s, [e]).Some?
    ensures Enabled(s, e) && Exec(s, [e]) == Some(Step(s, e))
  {
    hide Step, Enabled;
    assert [e][..0] == [];
    assert Exec(s, []) == Some(s);
  }

  /** A run that collects after run and waits for the metrics during mid. */
  lemma CollectedRun(start: State, run: seq<Event>, mid: seq<Event>)
    requires Exec(start, run + [Collect] + mid).Some?
    ensures Exec(start, run).Some? && Enabled(Exec(start, run).value, Collect)
    ensures Exec(Step(Exec(start, run).value, Collect), mid) == Exec(start, run + [Collect] + mid)
  {
    hide Exec, Step, Enabled;
    ExecSplit(start, run + [Collect], mid);
    ExecSplit(start, run, [Collect]);
    ExecSplitOne(Exec(start, run).value, Collect);
  }

  /** In every run, whatever came before the collection and whatever happens between it and the
      locking of the metrics: what is collected is what the store then held, and the snapshot's
      records and counters agree, build by build and in number, exactly under these conditions. */
  lemma SnapshotsInRuns(start: State, limit: nat, f: File, now: int, c: nat, run: seq<Event>, mid: seq<Event>)
    requires BootedFrom(start, limit, f, now, c) && Meanwhile(mid) && c + |run| + 1 + |mid| < U64_MAX
    requires Exec(start, run + [Collect] + mid).Some?
    ensures Exec(start, run).Some?
    ensures var s, t := Exec(start, run).value, Exec(start, run + [Collect] + mid).value;
      && t.collected == Some(s.memory.records)
      && (Building(s.memory.records) == InFlightIds(t.handlers) <==>
           && RecordedIds(s.handlers) == Starts(mid) - Ends(mid)
           && RunningIds(s.handlers) !! Ends(mid)
           && FinalizedIds(s.handlers) <= Ends(mid))
      && (Drift(Assembled(s.memory.records, t.memory.metrics)) == t.lost <==>
           |RunningIds(t.handlers)| + |FinalizedIds(t.handlers)| == |RecordedIds(s.handlers)| + |RunningIds(s.handlers)|)
  {
    hide BootedFrom, Exec, Step, Enabled, PermitsInv, BuildsInv, UsedInv, ConservedInv, CountsInv, Meanwhile;
    CollectedRun(start, run, mid);
    RunInvariant(start, limit, f, now, c, run);
    RunInvariant(start, limit, f, now, c, run + [Collect] + mid);
    var s, t := Exec(start, run).value, Exec(start, run + [Collect] + mid).value;
    SnapshotAgreesIff(s, mid, t);
    SnapshotDriftIff(s, mid, t);
  }

  /** Without expiry and restarts, from a store without a file, a snapshot's counters are what a
      recount of its own records would give, if and only if meanwhile as many starts were counted as
      builds were recorded and not yet counted at first, and as many ends of each kind as builds were
      final and not yet counted. */
  lemma SnapshotRecountIff(start: State, limit: nat, now: int, run: seq<Event>, mid: seq<Event>)
    requires start == Booted(limit, Loaded(Missing, now).value) && |run| + 1 + |mid| < U64_MAX
    requires Exec(start, run + [Collect] + mid).Some? && Meanwhile(mid)
    requires forall e :: e in run + [Collect] + mid ==> !e.Expire? && !e.Restart?
    ensures Exec(start, run).Some?
    ensures var s, t := Exec(start, run).value, Exec(start, run + [Collect] + mid).value;
      && t.collected == Some(s.memory.records)
      && (Assembled(s.memory.records, t.memory.metrics).metrics == Recount(s.memory.records) <==>
           && t.memory.metrics.started - s.memory.metrics.started == |RecordedIds(s.handlers)|
           && CountedMeanwhile(s, t, AsSuccess)
           && CountedMeanwhile(s, t, AsFailure)
           && CountedMeanwhile(s, t, AsCancelled))
  {
    hide Exec, Step, Enabled, PermitsInv, BuildsInv, UsedInv, ConservedInv, CountsInv, RecountInv, Booted, Assembled, Recount;
    var all := run + [Collect] + mid;
    CollectedRun(start, run, mid);
    CollectedNow(Exec(start, run).value);
    CollectedKept(Step(Exec(start, run).value, Collect), mid, Exec(start, all).value);
    forall e | e in run
      ensures !e.Expire? && !e.Restart?
    {
      assert e in all;
    }
    RecountRun(start, limit, now, run);
    RecountRun(start, limit, now, all);
    RecountBoot(limit, now);
    RunInvariant(start, limit, Missing, now, 0, all);
    CountsBound(Exec(start, all).value, |all|);
    RecountMeanwhile(Exec(start, run).value, Exec(start, all).value);
  }

  lemma CollectedNow(s: State)
    requires Enabled(s, Collect)
    ensures Step(s, Collect).collected == Some(s.memory.records)
  {
  }

  /** As many ends of that kind were counted meanwhile as were waiting for it at first. */
  ghost predicate CountedMeanwhile(s: State, t: State, kind: Kind) {
    Counter(t.memory.metrics, kind) - Counter(s.memory.metrics, kind) == |Uncounted(s.handlers, kind)|
  }

  lemma RecountMeanwhile(s: State, t: State)
    requires RecountInv(s) && RecountInv(t) && CountsUpTo(t.memory, U64_MAX - 1)
    ensures Assembled(s.memory.records, t.memory.metrics).metrics == Recount(s.memory.records) <==>
      && t.memory.metrics.started - s.memory.metrics.started == |RecordedIds(s.handlers)|
      && CountedMeanwhile(s, t, AsSuccess) && CountedMeanwhile(s, t, AsFailure) && CountedMeanwhile(s, t, AsCancelled)
  {
    hide WithStatus, CancelledIds, RecordedIds, Uncounted;
    CountedExactly(|s.memory.records|, t.memory.metrics.started);
    CountedExactly(|TakenAs(s.memory.records, AsSuccess)|, t.memory.metrics.succeeded);
    CountedExactly(|TakenAs(s.memory.records, AsFailure)|, t.memory.metrics.failed);
    CountedExactly(|TakenAs(s.memory.records, AsCancelled)|, t.memory.metrics.cancelled);
    hide AsU64;
  }

  lemma BootDrift(limit: nat, f: File, now: int)
    requires f.Missing? || (f.Legacy? && |FromList(f.list)| <= U64_MAX)
    ensures Booted(limit, Loaded(f, now).value).lost == if f.Legacy? then |OddIds(FromList(f.list))| else 0
  {
    hide Recount, AllConverted, OddIds, Building, FromList;
    if f.Legacy? {
      LegacyDrift(f.list, now);
    } else {
      EmptyDrift();
    }
  }

  lemma EmptyDrift()
    ensures Drift(Memory(map[], NO_METRICS)) == 0 && Building(map[]) == {}
  {
  }

  // ---------------------------------------------------------------------------
  // Recounting: while nothing expires and nothing is restarted, the counters are what a
  // legacy load would reconstruct from the records.

  datatype Kind = AsSuccess | AsFailure | AsCancelled

  function KindOf(o: Outcome): Kind {
    match o
    case Success(_) => AsSuccess
    case Failure(_) => AsFailure
    case Cancelled(_) => AsCancelled
  }

  /** Records that a recount takes for a success, a failure or a cancellation. */
  function TakenAs(records: map<string, BuildRecord>, kind: Kind): set<string> {
    match kind
    case AsSuccess => WithStatus(records, SUCCESS)
    case AsFailure => WithStatus(records, FAILED) - CancelledIds(records)
    case AsCancelled => CancelledIds(records)
  }

  function Counter(m: Metrics, kind: Kind): u64 {
    match kind
    case AsSuccess => m.succeeded
    case AsFailure => m.failed
    case AsCancelled => m.cancelled
  }

  /** Builds finalized as that kind and not yet counted. */
  function Uncounted(handlers: map<string, Phase>, kind: Kind): set<string> {
    set id | id in handlers && handlers[id].Finalized? && KindOf(handlers[id].o) == kind
  }

  ghost predicate KindInv(s: State, kind: Kind) {
    |TakenAs(s.memory.records, kind)| == Counter(s.memory.metrics, kind) + |Uncounted(s.handlers, kind)|
  }

  /** Every record was counted as started when it was, and nothing has gone. */
  ghost predicate StartedInv(s: State) {
    && |s.memory.records| == s.memory.metrics.started + |RecordedIds(s.handlers)|
    && s.memory.metrics.expiredRemoved == 0
  }

  ghost predicate RecountInv(s: State) {
    StartedInv(s) && KindInv(s, AsSuccess) && KindInv(s, AsFailure) && KindInv(s, AsCancelled)
  }

  predicate TakesRecord(r: BuildRecord, kind: Kind) {
    match kind
    case AsSuccess => r.status == SUCCESS
    case AsFailure => r.status == FAILED && !SpeaksOfCancelling(r)
    case AsCancelled => r.status == FAILED && SpeaksOfCancelling(r)
  }

  lemma TakenSet(records: map<string, BuildRecord>, id: string, r: BuildRecord, kind: Kind)
    ensures TakenAs(records[id := r], kind) ==
      if TakesRecord(r, kind) then TakenAs(records, kind) + {id} else TakenAs(records, kind) - {id}
    ensures id in records ==> (id in TakenAs(records, kind) <==> TakesRecord(records[id], kind))
    ensures id !in records ==> id !in TakenAs(records, kind)
  {
    hide SpeaksOfCancelling;
  }

  lemma UncountedSet(handlers: map<string, Phase>, id: string, to: Phase, kind: Kind)
    ensures Uncounted(handlers[id := to], kind) ==
      if to.Finalized? && KindOf(to.o) == kind then Uncounted(handlers, kind) + {id} else Uncounted(handlers, kind) - {id}
  {
  }

  /** A final record is taken for what the handler took the result for: both look for the same
      word in the same message. */
  lemma TakenForItsOutcome(m: Memory, id: string, r: BuildOutput, now: int, kind: Kind)
    requires id in m.records
    ensures var m' := PutOutcome(m, id, OutcomeOf(r), now);
      && m' == m.(records := m.records[id := m'.records[id]])
      && (TakesRecord(m'.records[id], kind) <==> KindOf(OutcomeOf(r)) == kind)
  {
    hide Contains, Lower;
  }

  lemma FinishKind(s: State, id: string, r: BuildOutput, now: int, kind: Kind)
    requires BuildsInv(s) && KindInv(s, kind) && Enabled(s, Finish(id, r, now))
    ensures KindInv(Step(s, Finish(id, r, now)), kind)
  {
    hide PutOutcome, OutcomeOf, TakenAs, Uncounted, SpeaksOfCancelling;
    assert id in Building(s.memory.records);
    var m' := PutOutcome(s.memory, id, OutcomeOf(r), now);
    TakenForItsOutcome(s.memory, id, r, now, kind);
    TakenSet(s.memory.records, id, m'.records[id], kind);
    UncountedSet(s.handlers, id, Finalized(OutcomeOf(r)), kind);
    NotUncounted(s.handlers, id, kind);
  }

  lemma NotUncounted(handlers: map<string, Phase>, id: string, kind: Kind)
    ensures id in Uncounted(handlers, kind) <==>
      id in handlers && handlers[id].Finalized? && KindOf(handlers[id].o) == kind
  {
  }

  lemma CountEndKind(s: State, id: string, kind: Kind)
    requires KindInv(s, kind) && Enabled(s, CountEnd(id)) && CountsUpTo(s.memory, U64_MAX - 1)
    ensures KindInv(Step(s, CountEnd(id)), kind)
  {
    hide TakenAs, Uncounted;
    NotUncounted(s.handlers, id, kind);
    UncountedSet(s.handlers, id, Counted(s.handlers[id].o), kind);
  }

  lemma InsertKind(s: State, id: string, now: int, kind: Kind)
    requires BuildsInv(s) && KindInv(s, kind) && Enabled(s, InsertRecord(id, now))
    ensures KindInv(Step(s, InsertRecord(id, now)), kind)
  {
    hide TakenAs, Uncounted, SpeaksOfCancelling;
    TakenSet(s.memory.records, id, NewRecord(id, now), kind);
    NotUncounted(s.handlers, id, kind);
    UncountedSet(s.handlers, id, Recorded, kind);
  }

  lemma GitKind(s: State, id: string, git: GitMetadata, now: int, kind: Kind)
    requires KindInv(s, kind)
    ensures KindInv(Step(s, Git(id, git, now)), kind)
  {
    hide TakenAs, Uncounted;
    if id in s.memory.records {
      TakenSet(s.memory.records, id, WithGit(s.memory.records[id], git, now), kind);
    }
  }

  lemma UncountedReturned(handlers: map<string, Phase>, id: string, kind: Kind)
    requires id in handlers && handlers[id].Counted?
    ensures Uncounted(handlers - {id}, kind) == Uncounted(handlers, kind)
  {
  }

  lemma LeaseKind(s: State, e: Event, kind: Kind)
    requires KindInv(s, kind) && UsedInv(s) && Enabled(s, e) && (e.Lease? || e.CountStart? || Returns(e))
    ensures KindInv(Step(s, e), kind)
  {
    hide TakenAs, Uncounted, Leases;
    match e {
      case Lease(id) =>
        NotUncounted(s.handlers, id, kind);
        UncountedSet(s.handlers, id, Leased, kind);
      case CountStart(id) =>
        NotUncounted(s.handlers, id, kind);
        UncountedSet(s.handlers, id, Running, kind);
      case ReturnSuccess(id) => UncountedReturned(s.handlers, id, kind);
      case ReturnFailure(id) => UncountedReturned(s.handlers, id, kind);
    }
  }

  lemma KindStep(s: State, e: Event, kind: Kind)
    requires KindInv(s, kind) && BuildsInv(s) && UsedInv(s) && Enabled(s, e) && !e.Expire? && !e.Restart?
    requires CountsUpTo(s.memory, U64_MAX - 1)
    ensures KindInv(Step(s, e), kind)
  {
    hide TakenAs, Uncounted, BuildsInv, UsedInv, PutNew, PutOutcome, SetGit, CountOutcome;
    match e {
      case InsertRecord(id, now) => InsertKind(s, id, now, kind);
      case Finish(id, r, now) => FinishKind(s, id, r, now, kind);
      case CountEnd(id) => CountEndKind(s, id, kind);
      case Git(id, git, now) => GitKind(s, id, git, now, kind);
      case Lease(_) => LeaseKind(s, e, kind);
      case CountStart(_) => LeaseKind(s, e, kind);
      case ReturnSuccess(_) => LeaseKind(s, e, kind);
      case ReturnFailure(_) => LeaseKind(s, e, kind);
      case _ =>
    }
  }

  lemma SameSize(records: map<string, BuildRecord>, id: string, r: BuildRecord)
    ensures |records[id := r]| == |records| + if id in records then 0 else 1
  {
    assert records[id := r].Keys == records.Keys + {id};
  }

  lemma NotRecorded(handlers: map<string, Phase>, id: string)
    requires id in handlers && !handlers[id].Recorded?
    ensures id !in RecordedIds(handlers)
  {
  }

  lemma StartedHandler(s: State, e: Event)
    requires StartedInv(s) && BuildsInv(s) && Enabled(s, e) && (e.InsertRecord? || e.Finish?)
    ensures StartedInv(Step(s, e))
  {
    hide RecordedIds, RunningIds, FinalizedIds, OutcomeOf, PutOutcome, Leases;
    match e {
      case InsertRecord(id, now) =>
        NotRecorded(s.handlers, id);
        PhaseSets(s.handlers, id, Recorded);
        SameSize(s.memory.records, id, NewRecord(id, now));
      case Finish(id, r, now) =>
        FinishSets(s, id, r, now);
        OutcomeStatus(s.memory, id, OutcomeOf(r), now);
        SameSize(s.memory.records, id, PutOutcome(s.memory, id, OutcomeOf(r), now).records[id]);
    }
  }

  lemma StartedCounts(s: State, e: Event)
    requires StartedInv(s) && Enabled(s, e) && CountsUpTo(s.memory, U64_MAX - 1) && (e.CountStart? || e.CountEnd?)
    ensures StartedInv(Step(s, e))
  {
    PhaseSets(s.handlers, e.id, if e.CountStart? then Running else Counted(s.handlers[e.id].o));
  }

  lemma StartedGit(s: State, id: string, git: GitMetadata, now: int)
    requires StartedInv(s)
    ensures StartedInv(Step(s, Git(id, git, now)))
  {
    hide RecordedIds, WithGit;
    if id in s.memory.records {
      SameSize(s.memory.records, id, WithGit(s.memory.records[id], git, now));
    }
  }

  lemma StartedStep(s: State, e: Event)
    requires StartedInv(s) && BuildsInv(s) && UsedInv(s) && Enabled(s, e) && !e.Expire? && !e.Restart?
    requires CountsUpTo(s.memory, U64_MAX - 1)
    ensures StartedInv(Step(s, e))
  {
    hide BuildsInv, UsedInv, PutNew, PutOutcome, SetGit, CountOutcome, CountStarted, Building, RecordedIds, Leases, CountsUpTo;
    match e {
      case InsertRecord(_, _) => StartedHandler(s, e);
      case Finish(_, _, _) => StartedHandler(s, e);
      case CountStart(_) => StartedCounts(s, e);
      case CountEnd(_) => StartedCounts(s, e);
      case Git(id, git, now) => StartedGit(s, id, git, now);
      case Lease(id) => LeasedSets(s, id);
      case ReturnSuccess(id) => ReturnedSets(s, id);
      case ReturnFailure(id) => ReturnedSets(s, id);
      case _ =>
    }
  }

  lemma {:induction false} RecountRun(start: State, limit: nat, now: int, run: seq<Event>)
    requires start == Booted(limit, Loaded(Missing, now).value) && Exec(start, run).Some? && |run| < U64_MAX
    requires forall e :: e in run ==> !e.Expire? && !e.Restart?
    ensures RecountInv(Exec(start, run).value)
  {
    hide Step, Enabled, KindInv, StartedInv, Booted, BuildsInv, UsedInv, PermitsInv, ConservedInv, CountsInv;
    RecountBoot(limit, now);
    if run != [] {
      var n := |run| - 1;
      assert run[n] in run;
      RecountRun(start, limit, now, run[..n]);
      var s, e := Exec(start, run[..n]).value, run[n];
      RunInvariant(start, limit, Missing, now, 0, run[..n]);
      CountsBound(s, n);
      StartedStep(s, e);
      KindStep(s, e, AsSuccess);
      KindStep(s, e, AsFailure);
      KindStep(s, e, AsCancelled);
    }
  }

  lemma RecountBoot(limit: nat, now: int)
    ensures RecountInv(Booted(limit, Loaded(Missing, now).value))
    ensures BootedFrom(Booted(limit, Loaded(Missing, now).value), limit, Missing, now, 0)
  {
    NothingTaken();
    hide TakenAs, Uncounted, RecordedIds, Drift;
  }

  lemma NothingTaken()
    ensures RecordedIds(map[]) == {}
    ensures forall kind: Kind :: Uncounted(map[], kind) == {} == TakenAs(map[], kind)
  {
    forall kind: Kind
      ensures Uncounted(map[], kind) == {} == TakenAs(map[], kind)
    {
    }
  }

  /** A build between its record and its count is in one of three sets. */
  lemma UncountedParts(handlers: map<string, Phase>)
    ensures FinalizedIds(handlers)
         == Uncounted(handlers, AsSuccess) + Uncounted(handlers, AsFailure) + Uncounted(handlers, AsCancelled)
  {
    forall id | id in FinalizedIds(handlers)
      ensures id in Uncounted(handlers, KindOf(handlers[id].o))
    {
    }
  }

  /** A count below the limit tells the exact number. */
  lemma CountedExactly(n: nat, c: u64)
    requires c < U64_MAX
    ensures AsU64(n) == c <==> n == c
  {
  }

  lemma RecountAt(s: State)
    requires RecountInv(s) && CountsUpTo(s.memory, U64_MAX - 1)
    ensures Refreshed(s.memory).metrics == Recount(s.memory.records) <==>
      && |RecordedIds(s.handlers)| == 0
      && |Uncounted(s.handlers, AsSuccess)| == 0
      && |Uncounted(s.handlers, AsFailure)| == 0
      && |Uncounted(s.handlers, AsCancelled)| == 0
  {
    hide WithStatus, CancelledIds, RecordedIds, Uncounted;
    CountedExactly(|s.memory.records|, s.memory.metrics.started);
    CountedExactly(|TakenAs(s.memory.records, AsSuccess)|, s.memory.metrics.succeeded);
    CountedExactly(|TakenAs(s.memory.records, AsFailure)|, s.memory.metrics.failed);
    CountedExactly(|TakenAs(s.memory.records, AsCancelled)|, s.memory.metrics.cancelled);
    hide AsU64;
  }

  /** In every run without expiry and restarts, from a store without a file, the counters are what
      a load of the same records as a legacy file would give, if and only if no build is between
      its record and the count that goes with it. */
  lemma RecountAgrees(start: State, limit: nat, now: int, run: seq<Event>)
    requires start == Booted(limit, Loaded(Missing, now).value) && Exec(start, run).Some? && |run| < U64_MAX
    requires forall e :: e in run ==> !e.Expire? && !e.Restart?
    ensures var s := Exec(start, run).value;
      Refreshed(s.memory).metrics == Recount(s.memory.records)
      <==> RecordedIds(s.handlers) == {} && FinalizedIds(s.handlers) == {}
  {
    hide Step, Enabled, RecordedIds, FinalizedIds, Uncounted, Recount, Refreshed, Booted, Exec, RecountInv, BuildsInv;
    RecountRun(start, limit, now, run);
    RecountBoot(limit, now);
    RunInvariant(start, limit, Missing, now, 0, run);
    var s := Exec(start, run).value;
    CountsBound(s, |run|);
    RecountAt(s);
    UncountedParts(s.handlers);
  }
}
