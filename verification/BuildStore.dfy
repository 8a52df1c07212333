/**
 The builder's persistent store: records of builds, counters, expiry, and reloading with
 conversion of builds that were in flight.
 */
module BuildStore {
  import opened Common

  const PENDING := 1
  const BUILDING := 2
  const SUCCESS := 3
  const FAILED := 4

  const MAX_EVENTS := 32
  const U64_MAX := 0xffff_ffff_ffff_ffff
  const RESTARTED := "Builder restarted while build was in progress"

  type u64 = x: int | 0 <= x <= U64_MAX

  datatype EventKind = Queued | GitMetadataCaptured | BuildSucceeded | BuildFailed | BuildCancelled

  datatype BuildEvent = BuildEvent(at: int, kind: EventKind, message: Option<string>)

  datatype GitMetadata = GitMetadata(hash: string, message: string, branch: string)

  datatype BuildResult = BuildResult(imageTag: string, exposedPort: nat)

  /** The status is the raw number of the wire format; git metadata is set as a whole. */
  datatype BuildRecord = BuildRecord(
    id: string, status: int, imageTag: Option<string>, message: Option<string>, exposedPort: nat,
    git: Option<GitMetadata>, createdAt: int, completedAt: Option<int>, durationMs: Option<u64>,
    events: seq<BuildEvent>)

  datatype Metrics = Metrics(
    started: u64, succeeded: u64, failed: u64, cancelled: u64, expiredRemoved: u64, active: nat)

  const NO_METRICS := Metrics(0, 0, 0, 0, 0, 0)

  /** The store in memory. */
  datatype Memory = Memory(records: map<string, BuildRecord>, metrics: Metrics)

  /** What can be found at the state path. */
  datatype File =
    | Missing
    | Current(list: seq<BuildRecord>, metrics: Metrics)
    | Legacy(list: seq<BuildRecord>)
    | Unparsable

  function SaturatingAdd(a: u64, n: nat): u64 {
    if a + n <= U64_MAX then a + n else U64_MAX
  }

  // ---------------------------------------------------------------------------
  // Records.

  function PushEvent(r: BuildRecord, e: BuildEvent): BuildRecord {
    var events := r.events + [e];
    r.(events := if |events| > MAX_EVENTS then events[|events| - MAX_EVENTS..] else events)
  }

  function NewRecord(id: string, now: int): BuildRecord {
    PushEvent(BuildRecord(id, BUILDING, None, None, 0, None, now, None, None, []),
              BuildEvent(now, Queued, Some("Build queued")))
  }

  function DurationMs(r: BuildRecord): Option<u64> {
    if r.completedAt.Some? && r.completedAt.value >= 0 && r.createdAt >= 0 && r.completedAt.value >= r.createdAt
       && (r.completedAt.value - r.createdAt) * 1000 <= U64_MAX
    then Some((r.completedAt.value - r.createdAt) * 1000)
    else None
  }

  function Completed(r: BuildRecord, now: int): BuildRecord {
    var r := r.(completedAt := Some(now));
    r.(durationMs := Some(if DurationMs(r).Some? then DurationMs(r).value else 0))
  }

  function WithGit(r: BuildRecord, git: GitMetadata, now: int): BuildRecord {
    PushEvent(r.(git := Some(git)), BuildEvent(now, GitMetadataCaptured, Some("Git metadata captured")))
  }

  function Succeeded(r: BuildRecord, result: BuildResult, now: int): BuildRecord {
    PushEvent(
      Completed(r.(status := SUCCESS, imageTag := Some(result.imageTag), exposedPort := result.exposedPort,
                   message := Some("Build successful")), now),
      BuildEvent(now, BuildSucceeded, Some("Build completed successfully")))
  }

  function FailedWith(r: BuildRecord, message: string, cancelled: bool, now: int): BuildRecord {
    PushEvent(
      Completed(r.(status := FAILED, message := Some(message)), now),
      BuildEvent(now, if cancelled then BuildCancelled else BuildFailed, Some(message)))
  }

  /** A record expires ttl after it was completed; times in milliseconds, completion in seconds. */
  function IsExpired(r: BuildRecord, nowMs: int, ttlMs: nat): bool {
    r.completedAt.Some? && r.completedAt.value >= 0
    && nowMs >= r.completedAt.value * 1000 && nowMs - r.completedAt.value * 1000 >= ttlMs
  }

  /** A record keeps its newest events, as many as there is room for, the latest at the end. */
  lemma EventsBounded(r: BuildRecord, e: BuildEvent)
    requires |r.events| <= MAX_EVENTS
    ensures var all, kept := r.events + [e], PushEvent(r, e).events;
      |kept| == (if |all| <= 32 then |all| else 32) && kept == all[|all| - |kept|..]
    ensures PushEvent(r, e).(events := []) == r.(events := [])
  {
  }

  // ---------------------------------------------------------------------------
  // Sets of builds by status.

  function WithStatus(records: map<string, BuildRecord>, status: int): set<string> {
    set k | k in records && records[k].status == status
  }

  function Building(records: map<string, BuildRecord>): set<string> {
    WithStatus(records, BUILDING)
  }

  function Expired(records: map<string, BuildRecord>, nowMs: int, ttlMs: nat): set<string> {
    set k | k in records && IsExpired(records[k], nowMs, ttlMs)
  }

  // ---------------------------------------------------------------------------
  // The store's operations on memory.

  function PutNew(m: Memory, id: string, now: int): Memory {
    m.(records := m.records[id := NewRecord(id, now)])
  }

  function CountStarted(m: Memory): Memory {
    m.(metrics := m.metrics.(started := SaturatingAdd(m.metrics.started, 1)))
  }

  function SetGit(m: Memory, id: string, git: GitMetadata, now: int): Memory {
    if id in m.records then m.(records := m.records[id := WithGit(m.records[id], git, now)]) else m
  }

  datatype Outcome = Success(result: BuildResult) | Failure(message: string) | Cancelled(message: string)

  function PutOutcome(m: Memory, id: string, o: Outcome, now: int): Memory {
    if id !in m.records then m
    else
      m.(records := m.records[id :=
        match o
        case Success(result) => Succeeded(m.records[id], result, now)
        case Failure(message) => FailedWith(m.records[id], message, false, now)
        case Cancelled(message) => FailedWith(m.records[id], message, true, now)])
  }

  function CountOutcome(m: Memory, o: Outcome): Memory {
    match o
    case Success(_) => m.(metrics := m.metrics.(succeeded := SaturatingAdd(m.metrics.succeeded, 1)))
    case Failure(_) => m.(metrics := m.metrics.(failed := SaturatingAdd(m.metrics.failed, 1)))
    case Cancelled(_) => m.(metrics := m.metrics.(cancelled := SaturatingAdd(m.metrics.cancelled, 1)))
  }

  function Removed(m: Memory, ids: set<string>): Memory {
    if ids == {} then m
    else Memory(m.records - ids, m.metrics.(expiredRemoved := SaturatingAdd(m.metrics.expiredRemoved, |ids|)))
  }

  /** The derived metrics kept here: how many builds are running. */
  function Refreshed(m: Memory): Memory {
    m.(metrics := m.metrics.(active := |Building(m.records)|))
  }

  /** What is persisted: records as they were collected, with the metrics as they are when locked
      after that, refreshed from the collected records. */
  function Assembled(collected: map<string, BuildRecord>, metrics: Metrics): Memory {
    Memory(collected, metrics.(active := |Building(collected)|))
  }

  // ---------------------------------------------------------------------------
  // Loading.

  function FromList(list: seq<BuildRecord>): map<string, BuildRecord> {
    if list == [] then map[]
    else FromList(list[..|list| - 1])[list[|list| - 1].id := list[|list| - 1]]
  }

  function Converted(r: BuildRecord, now: int): BuildRecord {
    if r.status == BUILDING then FailedWith(r, RESTARTED, false, now) else r
  }

  function AllConverted(records: map<string, BuildRecord>, now: int): map<string, BuildRecord> {
    map k | k in records :: Converted(records[k], now)
  }

  function Lower(s: string): string {
    seq(|s|, i requires 0 <= i < |s| => if 'A' <= s[i] <= 'Z' then s[i] - 'A' + 'a' else s[i])
  }

  predicate Contains(s: string, p: string) {
    p <= s || (s != "" && Contains(s[1..], p))
  }

  /** A text contains another if that stands somewhere in it. */
  lemma {:induction false} ContainsIff(s: string, p: string)
    ensures Contains(s, p) <==> exists i: nat :: StandsAt(s, p, i)
  {
    AtStart(s, p);
    if s != "" {
      ContainsIff(s[1..], p);
      if i: nat :| StandsAt(s[1..], p, i) {
        StandsBehind(s, p, i);
        assert StandsAt(s, p, i + 1);
      }
      if i: nat :| StandsAt(s, p, i) && i > 0 {
        StandsBehind(s, p, i - 1);
      }
    } else if i: nat :| StandsAt(s, p, i) {
      assert i == 0;
    }
  }

  lemma StandsBehind(s: string, p: string, i: nat)
    requires s != ""
    ensures StandsAt(s, p, i + 1) <==> StandsAt(s[1..], p, i)
  {
    if i + 1 + |p| <= |s| {
      assert s[1..][i..i + |p|] == s[i + 1..i + 1 + |p|];
    }
  }

  lemma AtStart(s: string, p: string)
    ensures StandsAt(s, p, 0) <==> p <= s
  {
    if |p| <= |s| {
      assert s[0..|p|] == s[..|p|];
    }
  }

  ghost predicate StandsAt(s: string, p: string, i: nat) {
    i + |p| <= |s| && s[i..i + |p|] == p
  }

  predicate SpeaksOfCancelling(r: BuildRecord) {
    r.message.Some? && Contains(Lower(r.message.value), "cancel")
  }

  /** A count as a u64. */
  function AsU64(n: nat): u64 {
    SaturatingAdd(0, n)
  }

  function CancelledIds(records: map<string, BuildRecord>): set<string> {
    set k | k in records && records[k].status == FAILED && SpeaksOfCancelling(records[k])
  }

  /** Counters reconstructed from a legacy file's records. */
  function Recount(records: map<string, BuildRecord>): Metrics {
    Metrics(
      AsU64(|records|), AsU64(|WithStatus(records, SUCCESS)|),
      AsU64(|WithStatus(records, FAILED) - CancelledIds(records)|), AsU64(|CancelledIds(records)|),
      0, |Building(records)|)
  }

  /** What loading makes of a store found whole in the file. */
  function Reloaded(m: Memory, now: int): Memory {
    m.(records := AllConverted(m.records, now))
  }

  function Loaded(f: File, now: int): Option<Memory> {
    match f
    case Missing => Some(Memory(map[], NO_METRICS))
    case Current(list, metrics) => Some(Reloaded(Memory(FromList(list), metrics), now))
    case Legacy(list) =>
      var records := AllConverted(FromList(list), now);
      Some(Memory(records, Recount(records)))
    case Unparsable => None
  }

  /** What `try_exists` leaves of a file: nothing, if it cannot tell. */
  function Seen(f: File, visible: bool): File {
    if visible then f else Missing
  }

  /** The records a file holds; none, if it cannot be parsed. */
  function RecordsIn(f: File): map<string, BuildRecord> {
    match f
    case Missing => map[]
    case Current(list, _) => FromList(list)
    case Legacy(list) => FromList(list)
    case Unparsable => map[]
  }

  /** A load that succeeds, and then replaces the file, loses no build if and only if it could look
      at the file or there was none in it. */
  lemma UnseenFileLostIff(f: File, visible: bool, now: int)
    requires Loaded(Seen(f, visible), now).Some?
    ensures Loaded(Seen(f, visible), now).value.records.Keys == RecordsIn(f).Keys
       <==> visible || RecordsIn(f) == map[]
  {
    if visible && (f.Current? || f.Legacy?) {
      LoadKeepsCompleted(f, now);
    } else if !visible {
      assert RecordsIn(f).Keys == {} <==> RecordsIn(f) == map[];
    }
  }

  // ---------------------------------------------------------------------------

  ghost predicate KeyedById(records: map<string, BuildRecord>) {
    forall k :: k in records ==> records[k].id == k
  }

  class BuildStore {
    var records: map<string, BuildRecord>
    var metrics: Metrics
    var file: File

    ghost predicate Valid()
      reads this
    {
      KeyedById(records)
    }

    function State(): Memory
      reads this
    {
      Memory(records, metrics)
    }

    constructor (m: Memory, f: File)
      ensures State() == m && file == f
    {
      records, metrics, file := m.records, m.metrics, f;
    }

    /** `load`: null stands for an error. A path that cannot be looked at counts as missing. */
    static method Load(f: File, visible: bool, now: int, writable: bool) returns (store: BuildStore?)
      ensures store == null <==> Loaded(Seen(f, visible), now).None? || !writable
      ensures store != null ==>
        && fresh(store) && store.Valid() && store.State() == Refreshed(Loaded(Seen(f, visible), now).value)
        && store.Stored()
    {
      var m: Memory;
      match Seen(f, visible) {
        case Missing =>
          m := Memory(map[], NO_METRICS);
        case Current(list, metrics) =>
          var records := RecordsFromSnapshot(list, now);
          m := Memory(records, metrics);
        case Legacy(list) =>
          var records := RecordsFromSnapshot(list, now);
          m := Memory(records, Recount(records));
        case Unparsable =>
          return null;
      }
      store := new BuildStore(m, f);
      var ok := store.Persist(writable);
      if !ok {
        store := null;
      }
    }

    /** The file holds exactly what is in memory. */
    ghost predicate Stored()
      reads this
    {
      file.Current? && FromList(file.list) == records && file.metrics == metrics
    }

    /** `persist`: refresh the derived metrics and, unless writing fails, replace the file. */
    method Persist(writable: bool) returns (ok: bool)
      requires Valid()
      modifies this`metrics, this`file
      ensures ok == writable && Valid() && State() == Refreshed(old(State()))
      ensures if ok then Stored() else file == old(file)
    {
      var list := ListRecords();
      metrics := metrics.(active := |Building(records)|);
      if writable {
        file := Current(list, metrics);
      }
      ok := writable;
    }

    method ListRecords() returns (list: seq<BuildRecord>)
      requires Valid()
      ensures FromList(list) == records
    {
      list := [];
      var todo := records.Keys;
      ghost var done := {};
      while todo != {}
        invariant done !! todo && done + todo == records.Keys
        invariant Listed(list, records, done)
        decreases todo
      {
        var k :| k in todo;
        ListNext(list, records, done, k);
        list := list + [records[k]];
        todo, done := todo - {k}, done + {k};
      }
    }

    method InsertNew(id: string, now: int, writable: bool) returns (ok: bool)
      requires Valid()
      modifies this
      ensures Valid() && State() == Refreshed(CountStarted(PutNew(old(State()), id, now)))
      ensures ok == writable && (ok ==> Stored())
    {
      records := records[id := NewRecord(id, now)];
      metrics := metrics.(started := SaturatingAdd(metrics.started, 1));
      ok := Persist(writable);
    }

    method SetGitMetadata(id: string, git: GitMetadata, now: int, writable: bool) returns (ok: bool)
      requires Valid()
      modifies this
      ensures Valid() && State() == Refreshed(SetGit(old(State()), id, git, now))
      ensures ok == writable && (ok ==> Stored())
    {
      if id in records {
        records := records[id := WithGit(records[id], git, now)];
      }
      ok := Persist(writable);
    }

    /** `finalize_success`, `finalize_failure` and `finalize_cancelled`. */
    method Finalize(id: string, o: Outcome, now: int, writable: bool) returns (ok: bool)
      requires Valid()
      modifies this
      ensures Valid() && State() == Refreshed(CountOutcome(PutOutcome(old(State()), id, o, now), o))
      ensures ok == writable && (ok ==> Stored())
    {
      if id in records {
        var r := records[id];
        match o {
          case Success(result) => records := records[id := Succeeded(r, result, now)];
          case Failure(message) => records := records[id := FailedWith(r, message, false, now)];
          case Cancelled(message) => records := records[id := FailedWith(r, message, true, now)];
        }
      }
      match o {
        case Success(_) => metrics := metrics.(succeeded := SaturatingAdd(metrics.succeeded, 1));
        case Failure(_) => metrics := metrics.(failed := SaturatingAdd(metrics.failed, 1));
        case Cancelled(_) => metrics := metrics.(cancelled := SaturatingAdd(metrics.cancelled, 1));
      }
      ok := Persist(writable);
    }

    /** `remove_expired`; without anything expired nothing is written. */
    method RemoveExpired(nowMs: int, ttlMs: nat, writable: bool) returns (count: nat, ok: bool)
      requires Valid()
      modifies this
      ensures var ids := Expired(old(records), nowMs, ttlMs);
        && count == |ids|
        && (if ids == {} then State() == old(State()) && file == old(file) && ok
            else State() == Refreshed(Removed(old(State()), ids)) && ok == writable && (ok ==> Stored()))
      ensures Valid()
    {
      var ids := FindExpired(nowMs, ttlMs);
      count, ok := |ids|, true;
      RemoveAll(ids);
      if count > 0 {
        metrics := metrics.(expiredRemoved := SaturatingAdd(metrics.expiredRemoved, count));
        ok := Persist(writable);
      }
    }

    method FindExpired(nowMs: int, ttlMs: nat) returns (ids: set<string>)
      ensures ids == Expired(records, nowMs, ttlMs)
    {
      ids := {};
      var todo := records.Keys;
      while todo != {}
        invariant todo <= records.Keys
        invariant ids == Expired(records, nowMs, ttlMs) - todo
        decreases todo
      {
        var k :| k in todo;
        if IsExpired(records[k], nowMs, ttlMs) {
          ids := ids + {k};
        }
        todo := todo - {k};
      }
    }

    method RemoveAll(ids: set<string>)
      modifies this`records
      ensures records == old(records) - ids
    {
      var todo := ids;
      while todo != {}
        invariant todo <= ids && records == old(records) - (ids - todo)
        decreases todo
      {
        var k :| k in todo;
        records := records - {k};
        todo := todo - {k};
      }
    }
  }

  /** `records_from_snapshot`: records still building are failed; later duplicates of an id win. */
  method RecordsFromSnapshot(list: seq<BuildRecord>, now: int) returns (records: map<string, BuildRecord>)
    ensures records == AllConverted(FromList(list), now) && KeyedById(records)
  {
    records := map[];
    for i := 0 to |list|
      invariant records == AllConverted(FromList(list[..i]), now) && KeyedById(records)
    {
      assert list[..i + 1][..i] == list[..i];
      var record := list[i];
      if record.status == BUILDING {
        record := FailedWith(record, RESTARTED, false, now);
      }
      records := records[record.id := record];
    }
    assert list[..|list|] == list;
  }

  ghost predicate Listed(list: seq<BuildRecord>, records: map<string, BuildRecord>, done: set<string>) {
    FromList(list) == map k | k in records && k in done :: records[k]
  }

  lemma ListNext(list: seq<BuildRecord>, records: map<string, BuildRecord>, done: set<string>, k: string)
    requires k in records && records[k].id == k && Listed(list, records, done)
    ensures Listed(list + [records[k]], records, done + {k})
  {
    assert (list + [records[k]])[..|list|] == list;
  }

  // ---------------------------------------------------------------------------
  // What loading does to records.

  /** Loading keeps every record that was not building (2), fails (4) every one that was, and loses none. */
  lemma LoadKeepsCompleted(f: File, now: int)
    requires f.Current? || f.Legacy?
    ensures var before, after := FromList(f.list), Loaded(f, now).value.records;
      && after.Keys == before.Keys
      && (forall k :: k in before && before[k].status != 2 ==> after[k] == before[k])
      && (forall k :: k in before && before[k].status == 2 ==> FailsOnRestart(before[k], after[k], now))
      && Building(after) == {}
  {
    hide Converted, FromList, Announces;
    var before := FromList(f.list);
    forall k | k in before
      ensures Converted(before[k], now).status != 2
      ensures before[k].status != 2 ==> Converted(before[k], now) == before[k]
      ensures before[k].status == 2 ==> FailsOnRestart(before[k], Converted(before[k], now), now)
    {
      ConvertedMeans(before[k], now);
    }
  }

  predicate FailsOnRestart(before: BuildRecord, after: BuildRecord, now: int) {
    && after.status == 4 && after.completedAt == Some(now)
    && after.message == Some("Builder restarted while build was in progress")
    && after.id == before.id && after.createdAt == before.createdAt
    && Announces(after, now, BuildFailed)
  }

  lemma ConvertedMeans(r: BuildRecord, now: int)
    ensures Converted(r, now).status != 2
    ensures r.status != 2 ==> Converted(r, now) == r
    ensures r.status == 2 ==> FailsOnRestart(r, Converted(r, now), now)
  {
  }

  /** A file's list stands for a map in which the last record of an id counts. */
  lemma {:induction false} LastRecordCounts(list: seq<BuildRecord>, id: string)
    ensures id in FromList(list) <==> exists i :: 0 <= i < |list| && list[i].id == id
    ensures id in FromList(list) ==> exists i :: 0 <= i < |list| && LastOf(list, i, id) && FromList(list)[id] == list[i]
  {
    if list != [] {
      var n := |list| - 1;
      LastRecordCounts(list[..n], id);
      assert forall i :: 0 <= i < n ==> list[..n][i] == list[i];
      if list[n].id == id {
        assert LastOf(list, n, id);
      } else if id in FromList(list[..n]) {
        var i :| 0 <= i < n && LastOf(list[..n], i, id) && FromList(list[..n])[id] == list[..n][i];
        assert LastOf(list, i, id) && list[i] == list[..n][i];
      }
    }
  }

  ghost predicate LastOf(list: seq<BuildRecord>, i: nat, id: string) {
    i < |list| && list[i].id == id && forall j :: i < j < |list| ==> list[j].id != id
  }

  /** Loading what a load has stored changes no record, whenever it happens. */
  lemma SecondLoadChangesNothing(f: File, now: int, list: seq<BuildRecord>, metrics: Metrics, later: int)
    requires Loaded(f, now).Some? && FromList(list) == Loaded(f, now).value.records
    ensures Loaded(Current(list, metrics), later).value.records == Loaded(f, now).value.records
  {
  }

  /** Finalizing a build changes nothing but its own record; keeps what identifies it; and the
      record then expires exactly ttl after the time it was finalized. */
  lemma OutcomeRecorded(m: Memory, id: string, o: Outcome, now: int, nowMs: int, ttlMs: nat)
    requires id in m.records && now >= 0
    ensures var m' := PutOutcome(m, id, o, now);
      var before, after := m.records[id], m'.records[id];
      && m'.records - {id} == m.records - {id} && m'.records.Keys == m.records.Keys && m'.metrics == m.metrics
      && after.id == before.id && after.createdAt == before.createdAt && after.git == before.git
      && after.status == (if o.Success? then 3 else 4) && after.completedAt == Some(now)
      && (o.Success? ==>
           && after.imageTag == Some(o.result.imageTag) && after.exposedPort == o.result.exposedPort
           && after.message == Some("Build successful"))
      && (!o.Success? ==>
           after.message == Some(o.message) && after.imageTag == before.imageTag && after.exposedPort == before.exposedPort)
      && after.durationMs == Some(
           if 0 <= before.createdAt <= now && (now - before.createdAt) * 1000 <= 0xffff_ffff_ffff_ffff
           then (now - before.createdAt) * 1000 else 0)
      && (IsExpired(after, nowMs, ttlMs) <==> nowMs >= now * 1000 + ttlMs)
      && Announces(after, now, if o.Success? then BuildSucceeded else if o.Failure? then BuildFailed else BuildCancelled)
  {
  }

  /** A new build changes its own record alone: building (2) from now on, not completed, and queued. */
  lemma NewBuildRecorded(m: Memory, id: string, now: int)
    ensures var m' := PutNew(m, id, now);
      && m'.records - {id} == m.records - {id} && id in m'.records && m'.metrics == m.metrics
      && var r := m'.records[id];
         && r.id == id && r.status == 2 && r.createdAt == now && r.completedAt == None && r.durationMs == None
         && r.imageTag == None && r.message == None && r.exposedPort == 0 && r.git == None
         && r.events == [BuildEvent(now, Queued, Some("Build queued"))]
  {
    assert [BuildEvent(now, Queued, Some("Build queued"))] == [] + [BuildEvent(now, Queued, Some("Build queued"))];
  }

  /** From start to end: a build that takes some time is recorded with exactly that duration. */
  lemma DurationOfBuild(m: Memory, id: string, start: int, o: Outcome, end: int)
    requires 0 <= start <= end && (end - start) * 1000 <= 0xffff_ffff_ffff_ffff
    ensures id in PutOutcome(PutNew(m, id, start), id, o, end).records
    ensures PutOutcome(PutNew(m, id, start), id, o, end).records[id].durationMs == Some((end - start) * 1000)
  {
    NewBuildRecorded(m, id, start);
    OutcomeRecorded(PutNew(m, id, start), id, o, end, 0, 0);
  }

  /** Counters go up by what is counted, and stop at the largest 64-bit number. */
  lemma CountersGoUp(m: Memory, o: Outcome, ids: set<string>)
    requires ids <= m.records.Keys
    ensures var a, b, c := m.metrics, CountStarted(m), Removed(m, ids);
      && b == m.(metrics := a.(started := b.metrics.started)) && Up(a.started, 1, b.metrics.started)
      && c.records == m.records - ids && c.metrics == a.(expiredRemoved := c.metrics.expiredRemoved)
      && Up(a.expiredRemoved, |ids|, c.metrics.expiredRemoved)
    ensures var a, d := m.metrics, CountOutcome(m, o);
      && d.records == m.records
      && Up(a.succeeded, if o.Success? then 1 else 0, d.metrics.succeeded)
      && Up(a.failed, if o.Failure? then 1 else 0, d.metrics.failed)
      && Up(a.cancelled, if o.Cancelled? then 1 else 0, d.metrics.cancelled)
      && d.metrics.started == a.started && d.metrics.expiredRemoved == a.expiredRemoved
  {
    assert m.records - {} == m.records;
  }

  predicate Up(before: int, n: nat, after: int) {
    after == if before + n < 0x1_0000_0000_0000_0000 then before + n else 0xffff_ffff_ffff_ffff
  }

  /** The latest event of a record. */
  predicate Announces(r: BuildRecord, now: int, kind: EventKind) {
    r.events != [] && r.events[|r.events| - 1].at == now && r.events[|r.events| - 1].kind == kind
  }

  /** Metadata changes nothing of a build's own record but the metadata and the events, and no
      other record; for a build without a record it changes nothing at all. */
  lemma MetadataRecorded(m: Memory, id: string, git: GitMetadata, now: int)
    ensures var m' := SetGit(m, id, git, now);
      && m'.records.Keys == m.records.Keys && m'.records - {id} == m.records - {id} && m'.metrics == m.metrics
      && (id in m.records ==>
           m'.records[id] == m.records[id].(git := Some(git), events := m'.records[id].events)
           && Announces(m'.records[id], now, GitMetadataCaptured))
  {
  }

  // ---------------------------------------------------------------------------
  // Drift: builds started, less those that ended, less those recorded as building.

  function Drift(m: Memory): int {
    Unended(m.metrics) - |Building(m.records)|
  }

  /** Builds counted as started and not as ended. */
  function Unended(m: Metrics): int {
    m.started - m.succeeded - m.failed - m.cancelled
  }

  /** Reloading a current file raises the drift by exactly the builds it converts. */
  lemma ReloadRaisesDrift(list: seq<BuildRecord>, metrics: Metrics, now: int)
    ensures var before, after := Memory(FromList(list), metrics), Loaded(Current(list, metrics), now).value;
      Drift(after) == Drift(before) + |Building(before.records)|
  {
    LoadKeepsCompleted(Current(list, metrics), now);
  }

  /** Records whose status is none of building, success and failed: pending, unspecified, unknown. */
  function OddIds(records: map<string, BuildRecord>): set<string> {
    set k | k in records && records[k].status != BUILDING && records[k].status != SUCCESS && records[k].status != FAILED
  }

  /** Loading a legacy file gives a drift of exactly the number of records with an odd status. */
  lemma LegacyDrift(list: seq<BuildRecord>, now: int)
    requires |FromList(list)| <= U64_MAX
    ensures Drift(Loaded(Legacy(list), now).value) == |OddIds(FromList(list))|
  {
    hide Converted, FromList, Announces, SpeaksOfCancelling;
    LoadKeepsCompleted(Legacy(list), now);
    var records := Loaded(Legacy(list), now).value.records;
    assert OddIds(records) == OddIds(FromList(list));
    assert |records| == |records.Keys| && |FromList(list)| == |FromList(list).Keys|;
    PartitionByStatus(records);
  }

  lemma FourParts<T>(all: set<T>, a: set<T>, b: set<T>, c: set<T>, d: set<T>)
    requires all == a + b + c + d && a !! b !! c !! d
    ensures |all| == |a| + |b| + |c| + |d|
  {
    assert |a + b| == |a| + |b|;
    assert |a + b + c| == |a + b| + |c|;
  }

  lemma PartitionByStatus(records: map<string, BuildRecord>)
    requires Building(records) == {} && |records| <= U64_MAX
    ensures |records| == |WithStatus(records, SUCCESS)| + |WithStatus(records, FAILED) - CancelledIds(records)|
                         + |CancelledIds(records)| + |OddIds(records)|
    ensures var c := Recount(records);
      && c.started == |records| && c.succeeded == |WithStatus(records, SUCCESS)|
      && c.failed == |WithStatus(records, FAILED) - CancelledIds(records)| && c.cancelled == |CancelledIds(records)|
  {
    var succeeded, failed, cancelled, odd :=
      WithStatus(records, SUCCESS), WithStatus(records, FAILED), CancelledIds(records), OddIds(records);
    forall k | k in records
      ensures k in succeeded || k in failed || k in odd
    {
      assert k !in Building(records);
    }
    FourParts(records.Keys, succeeded, failed - cancelled, cancelled, odd);
    assert |records| == |records.Keys|;
  }
}
