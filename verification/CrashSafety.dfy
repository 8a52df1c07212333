/**
 Persisting through a temporary file: collect the records under the I/O lock, add the metrics,
 write the temporary file, rename it over the state file. The store goes on changing meanwhile; a
 crash or an I/O error may come between any two steps, and a write may outlive the tasks that
 asked for it.
 */
module CrashSafety {
  import BuildStore
  import opened Common

  /** A file: not there, written in part, or holding a whole snapshot. */
  datatype Content<T> = Absent | Torn | Whole(snapshot: T)

  /** How far the persist that holds the lock has come. */
  datatype Writer<T> =
    | Idle
    | Collected(part: T)
    | Captured(snapshot: T)
    | Opened(snapshot: T)
    | Written(snapshot: T)
    | Renamed

  /** The store that is persisted: what it is without a file; what loading makes of a snapshot at
      some time; and what a snapshot is that is begun on one state and completed on another. */
  datatype Operations<!T> = Operations(empty: T, load: (T, int) -> T, assemble: (T, T) -> T)

  /** memory: the store, None while the process is down or going down. captures: every snapshot ever captured.
      current: how many captures the state file is up to, 0 for the file found at first.
      completed: how many captures the last persist that returned success was up to. */
  datatype State<T> = State(
    memory: Option<T>, file: Content<T>, tmp: Content<T>, writer: Writer<T>,
    captures: seq<T>, current: nat, completed: nat)

  datatype Event<T> =
    | Mutate(memory: T)
    | Collect
    | Capture
    | OpenTmp
    | WriteTmp
    | Rename
    | Return
    | Fail
    | Crash
    | Shutdown
    | Load(now: int)
    | LoadUnseen

  predicate Enabled<T>(s: State<T>, e: Event<T>) {
    match e
    case Mutate(_) => s.memory.Some?
    case Collect => s.memory.Some? && s.writer.Idle?
    case Capture => s.memory.Some? && s.writer.Collected?
    case OpenTmp => s.writer.Captured?
    case WriteTmp => s.writer.Opened?
    case Rename => s.writer.Written?
    case Return => s.memory.Some? && s.writer.Renamed?
    case Fail => !s.writer.Idle?
    case Crash => s.memory.Some? || !s.writer.Idle?
    case Shutdown => s.memory.Some?
    case Load(_) => s.memory.None? && s.writer.Idle? && !s.file.Torn?
    case LoadUnseen => s.memory.None? && s.writer.Idle?
  }

  function Step<T>(s: State<T>, e: Event<T>, ops: Operations<T>): State<T>
    requires Enabled(s, e)
  {
    match e
    case Mutate(m) => s.(memory := Some(m))
    case Collect => s.(writer := Collected(s.memory.value))
    case Capture =>
      var snapshot := ops.assemble(s.writer.part, s.memory.value);
      s.(writer := Captured(snapshot), captures := s.captures + [snapshot])
    case OpenTmp => s.(tmp := Torn, writer := Opened(s.writer.snapshot))
    case WriteTmp => s.(tmp := Whole(s.writer.snapshot), writer := Written(s.writer.snapshot))
    case Rename => s.(file := s.tmp, tmp := Absent, writer := Renamed, current := |s.captures|)
    case Return => s.(writer := Idle, completed := |s.captures|)
    case Fail => s.(writer := Idle)
    case Crash => s.(memory := None, writer := Idle)
    // The tasks are dropped, but a write that has begun goes on, with nobody to tell its outcome.
    case Shutdown => s.(memory := None, writer := if s.writer.Collected? then Idle else s.writer)
    case Load(now) => s.(memory := Some(LoadedFrom(s.file, ops, now)))
    // A file that cannot be looked for counts as missing.
    case LoadUnseen => s.(memory := Some(ops.empty))
  }

  function LoadedFrom<T>(file: Content<T>, ops: Operations<T>, now: int): T {
    if file.Whole? then ops.load(file.snapshot, now) else ops.empty
  }

  function Initial<T>(found: Content<T>): State<T> {
    State(None, found, Absent, Idle, [], 0, 0)
  }

  function Exec<T>(found: Content<T>, run: seq<Event<T>>, ops: Operations<T>): Option<State<T>> {
    if run == [] then Some(Initial(found))
    else
      var n := |run| - 1;
      match Exec(found, run[..n], ops)
      case None => None
      case Some(s) => if Enabled(s, run[n]) then Some(Step(s, run[n], ops)) else None
  }

  /** The file holds a whole capture, none older than the last completed persist; or is as found. */
  ghost predicate FileInv<T>(s: State<T>, found: Content<T>) {
    && s.completed <= s.current <= |s.captures|
    && s.file == FileUpTo(s, found, s.current)
  }

  /** The state file after the i-th capture was committed; for 0, as it was found. */
  function FileUpTo<T>(s: State<T>, found: Content<T>, i: nat): Content<T>
    requires i <= |s.captures|
  {
    if i == 0 then found else Whole(s.captures[i - 1])
  }

  /** The persist under way is of the last capture, and has written the temporary file when it says so. */
  ghost predicate WriterInv<T>(s: State<T>) {
    && (s.writer.Captured? || s.writer.Opened? || s.writer.Written? ==>
         |s.captures| > 0 && s.writer.snapshot == s.captures[|s.captures| - 1])
    && (s.writer.Written? ==> s.tmp == Whole(s.writer.snapshot))
    && (s.writer.Renamed? ==> s.current == |s.captures|)
  }

  lemma InvStep<T>(s: State<T>, e: Event<T>, found: Content<T>, ops: Operations<T>)
    requires FileInv(s, found) && WriterInv(s) && Enabled(s, e)
    ensures FileInv(Step(s, e, ops), found) && WriterInv(Step(s, e, ops))
  {
  }

  /** After any run of steps, failures and crashes, the file is a whole snapshot, at least as
      recent as every persist that has reported success; or as it was found. */
  lemma {:induction false} FileIsRecentAndWhole<T>(found: Content<T>, run: seq<Event<T>>, ops: Operations<T>)
    requires Exec(found, run, ops).Some?
    ensures var s := Exec(found, run, ops).value; FileInv(s, found) && WriterInv(s)
  {
    if run != [] {
      var n := |run| - 1;
      FileIsRecentAndWhole(found, run[..n], ops);
      InvStep(Exec(found, run[..n], ops).value, run[n], found, ops);
    }
  }

  /** The memory is loaded from the file as it was up to capture i, which the last completed
      persist does not come after. */
  ghost predicate Restores<T>(
    s: State<T>, found: Content<T>, i: nat, ops: Operations<T>, now: int, memory: Option<T>)
  {
    s.completed <= i <= |s.captures| && memory == Some(LoadedFrom(FileUpTo(s, found, i), ops, now))
  }

  /** So, the first file being whole or missing, a load is always possible after a crash. It
      restores the capture of the last completed persist or a later one; and before any persist has
      completed, some capture or the file as it was found. */
  lemma LoadAfterCrash<T>(found: Content<T>, run: seq<Event<T>>, ops: Operations<T>, now: int)
    requires Exec(found, run, ops).Some? && !found.Torn?
    requires Exec(found, run, ops).value.memory.None? && Exec(found, run, ops).value.writer.Idle?
    ensures var s := Exec(found, run, ops).value;
      && Enabled(s, Load(now))
      && exists i: nat :: Restores(s, found, i, ops, now, Step(s, Load(now), ops).memory)
  {
    FileIsRecentAndWhole(found, run, ops);
    var s := Exec(found, run, ops).value;
    assert Restores(s, found, s.current, ops, now, Step(s, Load(now), ops).memory);
  }

  /** But a load that cannot look for the file starts from an empty store, and the first persist
      that follows puts that in the place of whatever the file held. */
  lemma UnseenLoadWipes<T>(s: State<T>, ops: Operations<T>)
    requires Enabled(s, LoadUnseen)
    ensures var run := [LoadUnseen, Collect, Capture, OpenTmp, WriteTmp, Rename];
      var t := StepAll(s, run, ops);
      t.Some? && t.value.file == Whole(ops.assemble(ops.empty, ops.empty))
  {
    var s1 := Step(s, LoadUnseen, ops);
    var s3 := Step(Step(s1, Collect, ops), Capture, ops);
    var s6 := Step(Step(Step(s3, OpenTmp, ops), WriteTmp, ops), Rename, ops);
    assert s6.file == Whole(ops.assemble(ops.empty, ops.empty));
    FirstOf(s, LoadUnseen, [Collect, Capture, OpenTmp, WriteTmp, Rename], ops);
    FirstOf(s1, Collect, [Capture, OpenTmp, WriteTmp, Rename], ops);
    FirstOf(Step(s1, Collect, ops), Capture, [OpenTmp, WriteTmp, Rename], ops);
    FirstOf(s3, OpenTmp, [WriteTmp, Rename], ops);
    FirstOf(Step(s3, OpenTmp, ops), WriteTmp, [Rename], ops);
    FirstOf(Step(Step(s3, OpenTmp, ops), WriteTmp, ops), Rename, [], ops);
  }

  /** The state after some more steps. */
  function StepAll<T>(s: State<T>, run: seq<Event<T>>, ops: Operations<T>): Option<State<T>>
    decreases |run|
  {
    if run == [] then Some(s)
    else if Enabled(s, run[0]) then StepAll(Step(s, run[0], ops), run[1..], ops)
    else None
  }

  lemma FirstOf<T>(s: State<T>, e: Event<T>, rest: seq<Event<T>>, ops: Operations<T>)
    requires Enabled(s, e)
    ensures StepAll(s, [e] + rest, ops) == StepAll(Step(s, e, ops), rest, ops)
  {
    assert ([e] + rest)[1..] == rest;
  }

  /** A step other than a rename never changes the state file. */
  lemma OnlyRenameCommits<T>(s: State<T>, e: Event<T>, ops: Operations<T>)
    requires Enabled(s, e)
    ensures !e.Rename? ==> Step(s, e, ops).file == s.file
    ensures e.Rename? && WriterInv(s) ==> Step(s, e, ops).file == Whole(s.captures[|s.captures| - 1])
  {
  }

  // ---------------------------------------------------------------------------
  // The build store in particular.

  const EMPTY_STORE := BuildStore.Memory(map[], BuildStore.NO_METRICS)

  const BUILD_STORE := Operations(
    EMPTY_STORE,
    (m: BuildStore.Memory, now: int) => BuildStore.Reloaded(m, now),
    (m: BuildStore.Memory, later: BuildStore.Memory) => BuildStore.Assembled(m.records, later.metrics))

  /** The loaded store is the one in the file with every record kept, but for builds under way,
      which have failed; it is empty if there is no file. */
  ghost predicate Survives(file: Content<BuildStore.Memory>, loaded: BuildStore.Memory, now: int)
    requires !file.Torn?
  {
    if file.Absent? then loaded == EMPTY_STORE
    else
      var stored := file.snapshot;
      && loaded.metrics == stored.metrics && loaded.records.Keys == stored.records.Keys
      && (forall id :: id in stored.records ==>
           if stored.records[id].status == BuildStore.BUILDING
           then loaded.records[id].status == BuildStore.FAILED && loaded.records[id].completedAt == Some(now)
           else loaded.records[id] == stored.records[id])
  }

  ghost predicate SurvivesCapture(
    s: State<BuildStore.Memory>, found: Content<BuildStore.Memory>, i: nat, loaded: BuildStore.Memory, now: int)
    requires !found.Torn?
  {
    s.completed <= i <= |s.captures| && Survives(FileUpTo(s, found, i), loaded, now)
  }

  /** After any run with failures and crashes at any step, whatever file it started with: loading
      gives back the store as captured by the last persist that reported success or by a later one;
      before there is any, as captured by some persist or as found. */
  lemma StoreSurvivesCrash(found: Content<BuildStore.Memory>, run: seq<Event<BuildStore.Memory>>, now: int)
    requires Exec(found, run, BUILD_STORE).Some? && !found.Torn?
    requires Exec(found, run, BUILD_STORE).value.memory.None? && Exec(found, run, BUILD_STORE).value.writer.Idle?
    ensures var s := Exec(found, run, BUILD_STORE).value;
      && Enabled(s, Load(now))
      && exists i: nat :: SurvivesCapture(s, found, i, Step(s, Load(now), BUILD_STORE).memory.value, now)
  {
    LoadAfterCrash(found, run, BUILD_STORE, now);
    var s := Exec(found, run, BUILD_STORE).value;
    var loaded := Step(s, Load(now), BUILD_STORE).memory;
    var i: nat :| Restores(s, found, i, BUILD_STORE, now, loaded);
    LoadedSurvives(FileUpTo(s, found, i), now);
    assert SurvivesCapture(s, found, i, loaded.value, now);
  }

  lemma LoadedSurvives(file: Content<BuildStore.Memory>, now: int)
    requires !file.Torn?
    ensures Survives(file, LoadedFrom(file, BUILD_STORE, now), now)
  {
  }
}
