/**
 The Firecracker agent's garbage collector: one pass over processes, VM table and files,
 followed by a sweep for files and interfaces that no known VM owns.
 */
module GarbageCollector {
  import opened Common

  type VmId = x: nat | x < 0x1_0000_0000_0000_0000_0000_0000_0000_0000

  datatype VmStatus = Starting | Running | Stopping | Stopped | Failed | Paused
  datatype WaitResult = ExitedChild | StillRunning | WaitFailed

  /** A file in the data directory, in its snapshots directory, or anywhere else. */
  datatype Path = InData(name: string) | InSnapshots(name: string) | Elsewhere(path: string)

  /** A process record: the child's state if it is ours, else its pid if known; its API socket;
      and the files inside its jailer chroot, none without one. */
  datatype Process = Process(child: Option<WaitResult>, pid: Option<nat>, socket: Path, chroot: set<Path>)

  /** How ids are written and read back, and the agent's own id. */
  datatype Naming = Naming(show: VmId -> string, parse: string -> Option<VmId>, agentId: string) {
    /** Ids are written as 36 characters and read back as themselves. */
    ghost predicate Lawful() {
      forall v: VmId :: |show(v)| == 36 && parse(show(v)) == Some(v)
    }

    function Prefix(): string {
      "fc-" + agentId + "-"
    }

    /** A name in the data directory that carries the agent's and the VM's id. */
    function AgentFile(v: VmId, suffix: string): string {
      Prefix() + show(v) + suffix
    }

    /** The other names of a VM in the data directory. */
    function VmFile(v: VmId, suffix: string): string {
      "fc-" + show(v) + suffix
    }

    function SnapshotFile(v: VmId): Path {
      InSnapshots(show(v) + ".snapshot")
    }

    function MemoryFile(v: VmId): Path {
      InSnapshots(show(v) + ".mem")
    }

    function TapPrefix(v: VmId): string {
      if |show(v)| >= 8 then show(v)[..8] else show(v)
    }
  }

  function StartsWith(s: string, p: string): bool {
    p <= s
  }

  function EndsWith(s: string, p: string): bool {
    |p| <= |s| && s[|s| - |p|..] == p
  }

  // ---------------------------------------------------------------------------
  // What one pass decides.

  function Exited(p: Process, alive: set<nat>): bool {
    if p.child.Some? then p.child.value.ExitedChild?
    else if p.pid.Some? then p.pid.value !in alive
    else true
  }

  function ExitedIds(processes: map<VmId, Process>, alive: set<nat>): set<VmId> {
    set v | v in processes && Exited(processes[v], alive)
  }

  function IsUp(s: VmStatus): bool {
    s == Running || s == Starting
  }

  /** VMs to restart: up according to the table, but their process has exited. */
  function ToRestart(exited: set<VmId>, vms: map<VmId, VmStatus>): set<VmId> {
    set v | v in exited && v in vms && IsUp(vms[v])
  }

  /** The queue holds each of the ids once, and nothing else. */
  ghost predicate Queues(queue: seq<VmId>, ids: set<VmId>) {
    multiset(queue) == multiset(ids)
  }

  function StatusAfter(exited: set<VmId>, v: VmId, s: VmStatus): VmStatus {
    if v in exited && !IsUp(s) && s != Paused then Stopped else s
  }

  function StatusesAfter(exited: set<VmId>, vms: map<VmId, VmStatus>): map<VmId, VmStatus> {
    map v | v in vms :: StatusAfter(exited, v, vms[v])
  }

  /** Files deleted for an exited process: a hibernated VM keeps its own files. */
  function Artifacts(n: Naming, v: VmId, p: Process, s: VmStatus): set<Path> {
    if s == Paused then p.chroot + {p.socket}
    else
      p.chroot + {
        p.socket, InData(n.VmFile(v, ".json")), InData(n.VmFile(v, ".log")),
        InData(n.AgentFile(v, "-rootfs.ext4")), n.SnapshotFile(v), n.MemoryFile(v),
        InData(n.VmFile(v, ".stdout.log")), InData(n.VmFile(v, ".stderr.log"))
      }
  }

  function Restrict<K, V>(m: map<K, V>, ks: set<K>): map<K, V>
    requires ks <= m.Keys
  {
    map k | k in ks :: m[k]
  }

  /** What is to be deleted for each of these exited processes that the VM table knows. */
  function Plans(n: Naming, exited: map<VmId, Process>, ids: set<VmId>, vms: map<VmId, VmStatus>): map<VmId, set<Path>>
    requires ids <= exited.Keys
  {
    map v | v in ids && v in vms :: Artifacts(n, v, exited[v], vms[v])
  }

  function AllArtifacts(n: Naming, exited: map<VmId, Process>, vms: map<VmId, VmStatus>): set<Path> {
    set v, f | v in exited && v in vms && f in Artifacts(n, v, exited[v], vms[v]) :: f
  }

  // ---------------------------------------------------------------------------
  // What the sweep deletes.

  function IsActiveResourceName(n: Naming, known: set<VmId>, name: string): bool {
    exists v :: v in known &&
      (name == n.AgentFile(v, ".sock") || name == n.AgentFile(v, "-rootfs.ext4") || name == n.AgentFile(v, "-metrics.json"))
  }

  function HasSweptSuffix(name: string): bool {
    EndsWith(name, ".sock") || EndsWith(name, "-rootfs.ext4") || EndsWith(name, "-metrics.json")
    || EndsWith(name, ".stdout.log") || EndsWith(name, ".stderr.log")
  }

  /** The part of a snapshot or memory file's name before its suffix. */
  function SnapshotStem(name: string): Option<string> {
    if EndsWith(name, ".snapshot") then Some(name[..|name| - 9])
    else if EndsWith(name, ".mem") then Some(name[..|name| - 4])
    else None
  }

  function IsStale(n: Naming, known: set<VmId>, f: Path): bool {
    match f
    case InData(name) =>
      StartsWith(name, n.Prefix()) && !IsActiveResourceName(n, known, name) && HasSweptSuffix(name)
    case InSnapshots(name) =>
      (match SnapshotStem(name)
       case None => false
       case Some(stem) => n.parse(stem).Some? && n.parse(stem).value !in known)
    case Elsewhere(_) => false
  }

  function IsStaleTap(n: Naming, known: set<VmId>, link: string): bool {
    StartsWith(link, "m-tap-") && |link| - 6 >= 8 && link[6..] !in (set v | v in known :: n.TapPrefix(v))
  }

  // ---------------------------------------------------------------------------

  class FirecrackerManager {
    var processes: map<VmId, Process>
    var vms: map<VmId, VmStatus>
    var files: set<Path>
    var links: set<string>
    var restarts: seq<VmId>

    constructor (ps: map<VmId, Process>, table: map<VmId, VmStatus>, fs: set<Path>, ls: set<string>)
      ensures processes == ps && vms == table && files == fs && links == ls && restarts == []
    {
      processes, vms, files, links, restarts := ps, table, fs, ls, [];
    }

    /** Step 1: find the exited processes, then take them out of the table. */
    method CollectExited(alive: set<nat>) returns (exited: map<VmId, Process>)
      modifies this`processes
      ensures exited == Restrict(old(processes), ExitedIds(old(processes), alive))
      ensures processes == old(processes) - ExitedIds(old(processes), alive)
    {
      var toRemove := FindExited(alive);
      exited := TakeOut(toRemove);
    }

    method FindExited(alive: set<nat>) returns (toRemove: set<VmId>)
      ensures toRemove == ExitedIds(processes, alive)
    {
      toRemove := {};
      var todo := processes.Keys;
      while todo != {}
        invariant todo <= processes.Keys
        invariant toRemove == ExitedIds(processes, alive) - todo
        decreases todo
      {
        var v :| v in todo;
        var p := processes[v];
        var gone :=
          if p.child.Some? then p.child.value == ExitedChild
          else if p.pid.Some? then p.pid.value !in alive
          else true;
        if gone {
          toRemove := toRemove + {v};
        }
        todo := todo - {v};
      }
    }

    method TakeOut(ids: set<VmId>) returns (taken: map<VmId, Process>)
      requires ids <= processes.Keys
      modifies this`processes
      ensures taken == Restrict(old(processes), ids)
      ensures processes == old(processes) - ids
    {
      taken := map[];
      var todo := ids;
      while todo != {}
        invariant todo <= ids
        invariant taken == Restrict(old(processes), ids - todo)
        invariant processes == old(processes) - (ids - todo)
        decreases todo
      {
        var v :| v in todo;
        taken := taken[v := processes[v]];
        processes := processes - {v};
        todo := todo - {v};
      }
    }

    /** Step 2: decide on restarts and on which files go, and mark VMs stopped. */
    method Decide(n: Naming, exited: map<VmId, Process>) returns (queue: seq<VmId>, plans: map<VmId, set<Path>>)
      modifies this`vms
      ensures vms == StatusesAfter(exited.Keys, old(vms))
      ensures Queues(queue, ToRestart(exited.Keys, old(vms)))
      ensures plans == Plans(n, exited, exited.Keys, old(vms))
    {
      hide StatusesAfter, ToRestart, Plans, Artifacts, Queues;
      queue, plans := [], map[];
      DecideNothing(n, exited, vms);
      var todo := exited.Keys;
      ghost var done := {};
      while todo != {}
        invariant done !! todo && done + todo == exited.Keys
        invariant vms == StatusesAfter(done, old(vms))
        invariant Queues(queue, ToRestart(done, old(vms)))
        invariant plans == Plans(n, exited, done, old(vms))
        decreases todo
      {
        var v :| v in todo;
        DecideNext(n, exited, done, v, old(vms));
        if v in vms {
          plans := plans[v := Artifacts(n, v, exited[v], vms[v])];
          if vms[v] == Running || vms[v] == Starting {
            QueueNext(queue, ToRestart(done, old(vms)), v);
            queue := queue + [v];
          } else if vms[v] != Paused {
            vms := vms[v := Stopped];
          }
        }
        todo, done := todo - {v}, done + {v};
      }
    }

    /** Step 3: delete the planned files. */
    method Cleanup(plans: map<VmId, set<Path>>)
      modifies this`files
      ensures files == old(files) - (set v, f | v in plans && f in plans[v] :: f)
    {
      var todo := plans.Keys;
      while todo != {}
        invariant todo <= plans.Keys
        invariant files == old(files) - (set v, f | v in plans && v !in todo && f in plans[v] :: f)
        decreases todo
      {
        var v :| v in todo;
        files := files - plans[v];
        todo := todo - {v};
      }
    }

    /** `cleanup_all_stale_resources`: everything in processes or the VM table is known. */
    method Sweep(n: Naming)
      modifies this`files, this`links
      ensures var known := processes.Keys + vms.Keys;
        && files == (set f | f in old(files) && !IsStale(n, known, f))
        && links == (set l | l in old(links) && !IsStaleTap(n, known, l))
    {
      SweepFiles(n, processes.Keys + vms.Keys);
      SweepTaps(n, processes.Keys + vms.Keys);
    }

    method SweepFiles(n: Naming, known: set<VmId>)
      modifies this`files
      ensures files == set f | f in old(files) && !IsStale(n, known, f)
    {
      var todo := files;
      while todo != {}
        invariant todo <= old(files)
        invariant files == set f | f in old(files) && (f in todo || !IsStale(n, known, f))
        decreases todo
      {
        var f :| f in todo;
        if IsStale(n, known, f) {
          files := files - {f};
        }
        todo := todo - {f};
      }
    }

    method SweepTaps(n: Naming, known: set<VmId>)
      modifies this`links
      ensures links == set l | l in old(links) && !IsStaleTap(n, known, l)
    {
      var todo := links;
      while todo != {}
        invariant todo <= old(links)
        invariant links == set l | l in old(links) && (l in todo || !IsStaleTap(n, known, l))
        decreases todo
      {
        var l :| l in todo;
        if IsStaleTap(n, known, l) {
          links := links - {l};
        }
        todo := todo - {l};
      }
    }

    /** `run_gc`, with no VM started meanwhile. */
    method RunGc(n: Naming, alive: set<nat>)
      modifies this
      ensures var exited := ExitedIds(old(processes), alive);
        && processes == old(processes) - exited
        && vms == StatusesAfter(exited, old(vms))
        && old(restarts) <= restarts
        && Queues(restarts[|old(restarts)|..], ToRestart(exited, old(vms)))
      ensures old(restarts) <= restarts && QueuedOnce(restarts[|old(restarts)|..], old(processes), old(vms), alive)
      ensures processes.Keys <= old(processes).Keys && TakenOut(processes, old(processes), alive)
      ensures MarkedStopped(vms, old(processes), old(vms), alive)
      ensures files == FilesAfter(n, old(processes), old(vms), old(files), alive)
      ensures var known := processes.Keys + vms.Keys;
        links == set l | l in old(links) && !IsStaleTap(n, known, l)
    {
      var exited := CollectExited(alive);
      var queue, plans := Decide(n, exited);
      Cleanup(plans);
      PlansCover(n, exited, old(vms));
      assert files == old(files) - AllArtifacts(n, exited, old(vms));
      restarts := restarts + queue;
      assert restarts[|old(restarts)|..] == queue;
      Sweep(n);
      FilesAfterMeans(n, old(processes), old(vms), old(files), alive);
      PassMeans(queue, processes, vms, old(processes), old(vms), alive);
    }
  }

  // ---------------------------------------------------------------------------
  // What a pass does, status by status.

  /** The process is gone: our child says so; or it is not our child, and has no pid or a dead one. */
  predicate Gone(p: Process, alive: set<nat>) {
    || p.child == Some(ExitedChild)
    || (p.child == None && p.pid.Some? && p.pid.value !in alive)
    || (p.child == None && p.pid == None)
  }

  predicate LostProcess(processes: map<VmId, Process>, alive: set<nat>, v: VmId) {
    v in processes && Gone(processes[v], alive)
  }

  /** Every VM that was running or starting and whose process is gone is queued once, and no other. */
  ghost predicate QueuedOnce(queue: seq<VmId>, processes: map<VmId, Process>, vms: map<VmId, VmStatus>, alive: set<nat>) {
    forall v: VmId :: multiset(queue)[v] ==
      if LostProcess(processes, alive, v) && v in vms && (vms[v] == Running || vms[v] == Starting) then 1 else 0
  }

  /** The processes left are those that are not gone, as they were. */
  ghost predicate TakenOut(left: map<VmId, Process>, processes: map<VmId, Process>, alive: set<nat>) {
    forall v :: v in processes ==>
      (v in left <==> !Gone(processes[v], alive)) && (v in left ==> left[v] == processes[v])
  }

  /** VMs whose process is gone are marked stopped, unless they are running, starting or paused. */
  ghost predicate MarkedStopped(
    after: map<VmId, VmStatus>, processes: map<VmId, Process>, vms: map<VmId, VmStatus>, alive: set<nat>)
  {
    && after.Keys == vms.Keys
    && forall v :: v in vms ==>
         var marked := LostProcess(processes, alive, v) && vms[v] != Running && vms[v] != Starting && vms[v] != Paused;
         after[v] == if marked then Stopped else vms[v]
  }

  lemma PassMeans(
    queue: seq<VmId>, left: map<VmId, Process>, after: map<VmId, VmStatus>,
    processes: map<VmId, Process>, vms: map<VmId, VmStatus>, alive: set<nat>)
    requires Queues(queue, ToRestart(ExitedIds(processes, alive), vms))
    requires left == processes - ExitedIds(processes, alive)
    requires after == StatusesAfter(ExitedIds(processes, alive), vms)
    ensures QueuedOnce(queue, processes, vms, alive)
    ensures TakenOut(left, processes, alive) && MarkedStopped(after, processes, vms, alive)
  {
    forall v: VmId
      ensures v in ExitedIds(processes, alive) <==> LostProcess(processes, alive, v)
    {
      ExitedMeans(processes, alive, v);
    }
  }

  /** The files deleted with an exited process, name by name: its socket and chroot; and, unless the
      VM is paused, its configuration, logs, root file system, snapshot and memory. */
  ghost predicate DeletedFor(n: Naming, v: VmId, p: Process, s: VmStatus, f: Path) {
    || f == p.socket || f in p.chroot
    || (s != Paused &&
        (f == InData("fc-" + n.show(v) + ".json")
         || f == InData("fc-" + n.show(v) + ".log")
         || f == InData("fc-" + n.show(v) + ".stdout.log")
         || f == InData("fc-" + n.show(v) + ".stderr.log")
         || f == InData("fc-" + n.agentId + "-" + n.show(v) + "-rootfs.ext4")
         || f == InSnapshots(n.show(v) + ".snapshot")
         || f == InSnapshots(n.show(v) + ".mem")))
  }

  lemma ArtifactsMean(n: Naming, v: VmId, p: Process, s: VmStatus, f: Path)
    ensures f in Artifacts(n, v, p, s) <==> DeletedFor(n, v, p, s, f)
  {
  }

  /** What the sweep finds in the data directory: names under the agent's prefix with one of five
      endings, but for three names of each VM that has a process left or is in the table. */
  ghost predicate SweptName(n: Naming, known: set<VmId>, name: string) {
    && "fc-" + n.agentId + "-" <= name
    && (EndsWith(name, ".sock") || EndsWith(name, "-rootfs.ext4") || EndsWith(name, "-metrics.json")
        || EndsWith(name, ".stdout.log") || EndsWith(name, ".stderr.log"))
    && forall v :: v in known ==>
         && name != "fc-" + n.agentId + "-" + n.show(v) + ".sock"
         && name != "fc-" + n.agentId + "-" + n.show(v) + "-rootfs.ext4"
         && name != "fc-" + n.agentId + "-" + n.show(v) + "-metrics.json"
  }

  lemma EndsWithIff(s: string, p: string)
    ensures EndsWith(s, p) <==> exists a: string :: s == a + p
  {
    if EndsWith(s, p) {
      assert s == s[..|s| - |p|] + p;
    }
    if a: string :| s == a + p {
      assert |s| - |p| == |a|;
    }
  }

  /** Which files outlive a pass: those deleted with no exited process that the table knows, and not
      found by the sweep. Files elsewhere are never swept. */
  lemma FilesAfterIff(
    n: Naming, processes: map<VmId, Process>, vms: map<VmId, VmStatus>, files: set<Path>, alive: set<nat>, f: Path,
    known: set<VmId>)
    requires forall v: VmId :: v in known <==> v in vms || (v in processes && !Gone(processes[v], alive))
    ensures f in FilesAfter(n, processes, vms, files, alive) <==>
      && f in files
      && (forall v :: LostProcess(processes, alive, v) && v in vms ==> !DeletedFor(n, v, processes[v], vms[v], f))
      && (match f {
            case InData(name) => !SweptName(n, known, name)
            case InSnapshots(name) => SnapshotStays(n, known, name)
            case Elsewhere(_) => true
          })
  {
    hide Artifacts, AllArtifacts, DeletedFor, IsStale, SweptName, SnapshotStays, Exited, Gone;
    var ids := ExitedIds(processes, alive);
    forall v: VmId
      ensures v in ids <==> LostProcess(processes, alive, v)
    {
      ExitedMeans(processes, alive, v);
    }
    assert known == (processes.Keys - ids) + vms.Keys;
    DeletedAmong(n, processes, ids, vms, f);
    SweepMeans(n, known, f);
  }

  lemma ExitedMeans(processes: map<VmId, Process>, alive: set<nat>, v: VmId)
    ensures v in ExitedIds(processes, alive) <==> LostProcess(processes, alive, v)
  {
    if v in processes && processes[v].child.Some? {
      assert processes[v].child == Some(processes[v].child.value);
    }
  }

  lemma DeletedAmong(n: Naming, processes: map<VmId, Process>, ids: set<VmId>, vms: map<VmId, VmStatus>, f: Path)
    requires ids <= processes.Keys
    ensures f in AllArtifacts(n, Restrict(processes, ids), vms) <==>
      exists v :: v in ids && v in vms && DeletedFor(n, v, processes[v], vms[v], f)
  {
    hide Artifacts, DeletedFor;
    var exited := Restrict(processes, ids);
    forall v | v in ids && v in vms
      ensures f in Artifacts(n, v, exited[v], vms[v]) <==> DeletedFor(n, v, processes[v], vms[v], f)
    {
      ArtifactsMean(n, v, processes[v], vms[v], f);
    }
    if v :| v in ids && v in vms && DeletedFor(n, v, processes[v], vms[v], f) {
      assert v in exited && f in Artifacts(n, v, exited[v], vms[v]);
    }
  }

  /** Snapshots and memory files of ids that nobody knows go; what has another name stays. */
  ghost predicate SnapshotStays(n: Naming, known: set<VmId>, name: string) {
    && (EndsWith(name, ".snapshot") ==>
         var id := n.parse(name[..|name| - 9]); id.Some? ==> id.value in known)
    && (EndsWith(name, ".mem") ==>
         var id := n.parse(name[..|name| - 4]); id.Some? ==> id.value in known)
  }

  lemma SweepMeans(n: Naming, known: set<VmId>, f: Path)
    ensures IsStale(n, known, f) <==>
      match f
      case InData(name) => SweptName(n, known, name)
      case InSnapshots(name) => !SnapshotStays(n, known, name)
      case Elsewhere(_) => false
  {
    match f {
      case InData(name) => SweptNameMeans(n, known, name);
      case InSnapshots(name) => NotBoth(name);
      case _ =>
    }
  }

  lemma SweptNameMeans(n: Naming, known: set<VmId>, name: string)
    ensures IsStale(n, known, InData(name)) <==> SweptName(n, known, name)
  {
    hide EndsWith;
    forall v | v in known
      ensures n.AgentFile(v, ".sock") == "fc-" + n.agentId + "-" + n.show(v) + ".sock"
      ensures n.AgentFile(v, "-rootfs.ext4") == "fc-" + n.agentId + "-" + n.show(v) + "-rootfs.ext4"
      ensures n.AgentFile(v, "-metrics.json") == "fc-" + n.agentId + "-" + n.show(v) + "-metrics.json"
    {
    }
    if IsActiveResourceName(n, known, name) {
      var v :| v in known && (name == n.AgentFile(v, ".sock") || name == n.AgentFile(v, "-rootfs.ext4")
        || name == n.AgentFile(v, "-metrics.json"));
    }
    assert forall v :: v in known && !IsActiveResourceName(n, known, name) ==> name != n.AgentFile(v, ".sock");
  }

  lemma NotBoth(name: string)
    ensures !(EndsWith(name, ".snapshot") && EndsWith(name, ".mem"))
  {
    if |name| >= 9 {
      assert name[|name| - 9..][8] == name[|name| - 4..][3];
    }
  }

  /** Interfaces whose names carry eight characters or more that are not what a known VM's id begins
      with go, and no others. */
  lemma TapSweptIff(n: Naming, known: set<VmId>, x: string)
    requires n.Lawful()
    ensures IsStaleTap(n, known, "m-tap-" + x) <==> |x| >= 8 && forall w :: w in known ==> x != n.show(w)[..8]
  {
    var link := "m-tap-" + x;
    assert link[6..] == x && link[..6] == "m-tap-";
  }

  lemma OtherLinksStay(n: Naming, known: set<VmId>, link: string)
    requires !("m-tap-" <= link)
    ensures !IsStaleTap(n, known, link)
  {
  }

  lemma QueueNext(queue: seq<VmId>, ids: set<VmId>, v: VmId)
    requires Queues(queue, ids) && v !in ids
    ensures Queues(queue + [v], ids + {v})
  {
  }

  lemma DecideNothing(n: Naming, exited: map<VmId, Process>, vms: map<VmId, VmStatus>)
    ensures StatusesAfter({}, vms) == vms && Plans(n, exited, {}, vms) == map[]
    ensures Queues([], ToRestart({}, vms))
  {
  }

  lemma PlansCover(n: Naming, exited: map<VmId, Process>, vms: map<VmId, VmStatus>)
    ensures var plans := Plans(n, exited, exited.Keys, vms);
      (set v, f | v in plans && f in plans[v] :: f) == AllArtifacts(n, exited, vms)
  {
    var plans := Plans(n, exited, exited.Keys, vms);
    forall f | f in AllArtifacts(n, exited, vms)
      ensures f in set v, g | v in plans && g in plans[v] :: g
    {
      var v :| v in exited && v in vms && f in Artifacts(n, v, exited[v], vms[v]);
      assert v in plans && f in plans[v];
    }
  }

  lemma DecideNext(n: Naming, exited: map<VmId, Process>, done: set<VmId>, v: VmId, vms: map<VmId, VmStatus>)
    requires v in exited && v !in done && done <= exited.Keys
    ensures StatusesAfter(done, vms).Keys == vms.Keys
    ensures v in vms ==> StatusesAfter(done, vms)[v] == vms[v]
    ensures StatusesAfter(done + {v}, vms) ==
      if v in vms && !IsUp(vms[v]) && vms[v] != Paused then StatusesAfter(done, vms)[v := Stopped]
      else StatusesAfter(done, vms)
    ensures v !in ToRestart(done, vms)
    ensures ToRestart(done + {v}, vms) ==
      if v in vms && IsUp(vms[v]) then ToRestart(done, vms) + {v} else ToRestart(done, vms)
    ensures Plans(n, exited, done + {v}, vms) ==
      if v in vms then Plans(n, exited, done, vms)[v := Artifacts(n, v, exited[v], vms[v])]
      else Plans(n, exited, done, vms)
  {
  }

  /** The files left by a pass. */
  function FilesAfter(
    n: Naming, processes: map<VmId, Process>, vms: map<VmId, VmStatus>, files: set<Path>, alive: set<nat>): set<Path>
  {
    var ids := ExitedIds(processes, alive);
    var known := (processes.Keys - ids) + vms.Keys;
    set f | f in files && f !in AllArtifacts(n, Restrict(processes, ids), vms) && !IsStale(n, known, f)
  }

  lemma FilesAfterMeans(
    n: Naming, processes: map<VmId, Process>, vms: map<VmId, VmStatus>, files: set<Path>, alive: set<nat>)
    ensures var ids := ExitedIds(processes, alive);
      var known := (processes - ids).Keys + StatusesAfter(ids, vms).Keys;
      FilesAfter(n, processes, vms, files, alive)
      == set f | f in files - AllArtifacts(n, Restrict(processes, ids), vms) && !IsStale(n, known, f)
  {
    var ids := ExitedIds(processes, alive);
    assert (processes - ids).Keys == processes.Keys - ids;
    assert StatusesAfter(ids, vms).Keys == vms.Keys;
  }

  // ---------------------------------------------------------------------------
  // What the sweep spares and what it finds.

  lemma ShowInjective(n: Naming, v: VmId, w: VmId)
    requires n.Lawful() && n.show(v) == n.show(w)
    ensures v == w
  {
    assert n.parse(n.show(v)) == n.parse(n.show(w));
  }

  /** Names made of the same kind of parts are equal only if the parts are. */
  lemma AgentFileInjective(n: Naming, v: VmId, s: string, w: VmId, t: string)
    requires n.Lawful() && n.AgentFile(v, s) == n.AgentFile(w, t)
    ensures v == w && s == t
  {
    var k := |n.Prefix()|;
    assert n.AgentFile(v, s)[k..k + 36] == n.show(v) && n.AgentFile(v, s)[k + 36..] == s;
    assert n.AgentFile(w, t)[k..k + 36] == n.show(w) && n.AgentFile(w, t)[k + 36..] == t;
    ShowInjective(n, v, w);
  }

  lemma EndsWithSuffix(s: string, p: string)
    ensures EndsWith(s + p, p)
  {
  }

  /** Sockets, root file systems and metrics under the agent's names go exactly if no known VM owns them. */
  lemma SweepOfAgentFiles(n: Naming, known: set<VmId>, v: VmId, suffix: string)
    requires n.Lawful()
    requires suffix == ".sock" || suffix == "-rootfs.ext4" || suffix == "-metrics.json"
    ensures IsStale(n, known, InData(n.AgentFile(v, suffix))) <==> v !in known
  {
    var name := n.AgentFile(v, suffix);
    EndsWithSuffix(n.Prefix() + n.show(v), suffix);
    assert name == n.Prefix() + (n.show(v) + suffix);
    if v !in known && IsActiveResourceName(n, known, name) {
      var w :| w in known &&
        (name == n.AgentFile(w, ".sock") || name == n.AgentFile(w, "-rootfs.ext4") || name == n.AgentFile(w, "-metrics.json"));
      AgentFileInjective(n, v, suffix, w,
        if name == n.AgentFile(w, ".sock") then ".sock"
        else if name == n.AgentFile(w, "-rootfs.ext4") then "-rootfs.ext4" else "-metrics.json");
    }
  }

  lemma LogIsNoActiveName(n: Naming, known: set<VmId>, name: string)
    requires name != "" && name[|name| - 1] == 'g'
    ensures !IsActiveResourceName(n, known, name)
  {
    forall w | w in known
      ensures name != n.AgentFile(w, ".sock") && name != n.AgentFile(w, "-rootfs.ext4") && name != n.AgentFile(w, "-metrics.json")
    {
      LastChar(n.Prefix() + n.show(w), ".sock");
      LastChar(n.Prefix() + n.show(w), "-rootfs.ext4");
      LastChar(n.Prefix() + n.show(w), "-metrics.json");
    }
  }

  /** Log files under the agent's names go even if the VM is known. */
  lemma SweepOfAgentLogs(n: Naming, known: set<VmId>, v: VmId, suffix: string)
    requires n.Lawful() && (suffix == ".stdout.log" || suffix == ".stderr.log")
    ensures IsStale(n, known, InData(n.AgentFile(v, suffix)))
  {
    var name := n.AgentFile(v, suffix);
    EndsWithSuffix(n.Prefix() + n.show(v), suffix);
    assert name == n.Prefix() + (n.show(v) + suffix);
    LastChar(n.Prefix() + n.show(v), suffix);
    LogIsNoActiveName(n, known, name);
  }

  lemma LastChar(s: string, p: string)
    requires p != ""
    ensures (s + p)[|s + p| - 1] == p[|p| - 1]
  {
  }

  /** The API socket's own name is never swept. */
  lemma SweepOfVmSocket(n: Naming, known: set<VmId>, v: VmId)
    ensures !IsStale(n, known, InData(n.VmFile(v, ".socket")))
  {
    var socket := n.VmFile(v, ".socket");
    LastChar("fc-" + n.show(v), ".socket");
    SuffixLastChar(socket, ".sock");
    SuffixLastChar(socket, "-metrics.json");
    SuffixLastChar(socket, ".stdout.log");
    SuffixLastChar(socket, ".stderr.log");
    SuffixLastChar(socket, "-rootfs.ext4");
  }

  /** The names of a VM's logs carry no agent id. So a log is swept, be the VM known or not,
      exactly if the agent's id happens to be what the VM's id begins with, up to a dash. */
  lemma SweepOfVmLogs(n: Naming, known: set<VmId>, v: VmId, suffix: string)
    requires suffix == ".stdout.log" || suffix == ".stderr.log"
    ensures IsStale(n, known, InData(n.VmFile(v, suffix))) <==> StartsWith(n.show(v), n.agentId + "-")
  {
    var name := n.VmFile(v, suffix);
    EndsWithSuffix("fc-" + n.show(v), suffix);
    LastChar("fc-" + n.show(v), suffix);
    LogIsNoActiveName(n, known, name);
    UnderAgentPrefix(n, v, suffix);
    DashedPrefix(n.agentId, n.show(v), suffix);
    hide EndsWith, IsActiveResourceName, StartsWith;
  }

  lemma UnderAgentPrefix(n: Naming, v: VmId, suffix: string)
    ensures StartsWith(n.VmFile(v, suffix), n.Prefix()) <==> StartsWith(n.show(v) + suffix, n.agentId + "-")
  {
    assert n.VmFile(v, suffix) == "fc-" + (n.show(v) + suffix) && n.Prefix() == "fc-" + (n.agentId + "-");
    PrefixUnderPrefix("fc-", n.agentId + "-", n.show(v) + suffix);
  }

  lemma InEither(s: string, t: string, i: nat)
    requires i < |s + t|
    ensures i < |s| || (s + t)[i] in t
  {
    if i >= |s| {
      assert t[i - |s|] == (s + t)[i];
    }
  }

  /** A prefix that ends in a dash does not end among characters that have none. */
  lemma DashedPrefix(p: string, s: string, suffix: string)
    requires '-' !in suffix
    ensures StartsWith(s + suffix, p + "-") <==> StartsWith(s, p + "-")
  {
    if StartsWith(s + suffix, p + "-") {
      var i := |p|;
      assert (s + suffix)[i] == (p + "-")[i] == '-';
      InEither(s, suffix, i);
      assert forall j :: 0 <= j <= i ==> s[j] == (s + suffix)[j];
    }
  }

  /** An agent whose id is as long as a VM's, as generated ids are, never sweeps any file that is
      named after a VM alone: sockets, configurations, logs and metrics stay when the VM is gone. */
  lemma OwnNamesNeverSwept(n: Naming, known: set<VmId>, v: VmId, suffix: string)
    requires n.Lawful() && |n.agentId| == 36 && (suffix == "" || suffix[0] != '-')
    ensures !IsStale(n, known, InData(n.VmFile(v, suffix)))
  {
    UnderAgentPrefix(n, v, suffix);
    assert (n.agentId + "-")[36] == '-';
    assert suffix == "" || (n.show(v) + suffix)[36] == suffix[0];
  }

  /** But an agent given the first eight characters of a running VM's id for its own sweeps that VM's logs. */
  lemma KnownLogSwept(n: Naming, known: set<VmId>, v: VmId)
    requires |n.show(v)| == 36 && n.show(v)[8] == '-' && n.agentId == n.show(v)[..8] && v in known
    ensures IsStale(n, known, InData(n.VmFile(v, ".stdout.log")))
  {
    SweepOfVmLogs(n, known, v, ".stdout.log");
    assert n.agentId + "-" == n.show(v)[..9];
  }

  lemma SuffixLastChar(s: string, p: string)
    requires s != "" && p != "" && s[|s| - 1] != p[|p| - 1]
    ensures !EndsWith(s, p)
  {
    if |p| <= |s| {
      assert s[|s| - |p|..][|p| - 1] == s[|s| - 1];
    }
  }

  lemma PrefixUnderPrefix(a: string, p: string, s: string)
    ensures a + p <= a + s <==> p <= s
  {
    if a + p <= a + s {
      assert (a + s)[..|a| + |p|] == a + p;
      assert s[..|p|] == (a + s)[..|a| + |p|][|a|..] == p;
    }
  }

  /** Snapshot and memory files go exactly if no known VM owns them. */
  lemma SweepOfSnapshots(n: Naming, known: set<VmId>, v: VmId)
    requires n.Lawful()
    ensures IsStale(n, known, n.SnapshotFile(v)) <==> v !in known
    ensures IsStale(n, known, n.MemoryFile(v)) <==> v !in known
  {
    var s, m := n.show(v) + ".snapshot", n.show(v) + ".mem";
    EndsWithSuffix(n.show(v), ".snapshot");
    EndsWithSuffix(n.show(v), ".mem");
    assert s[..|s| - 9] == n.show(v) && m[..|m| - 4] == n.show(v);
    LastChar(n.show(v), ".mem");
    assert m[|m| - 9..][8] == m[|m| - 1] == 'm';
  }

  /** An interface is deleted exactly if no known VM's id begins with the eight characters it carries. */
  lemma SweepOfTaps(n: Naming, known: set<VmId>, v: VmId)
    requires n.Lawful()
    ensures IsStaleTap(n, known, "m-tap-" + n.show(v)[..8])
       <==> forall w :: w in known ==> n.show(w)[..8] != n.show(v)[..8]
  {
    var link := "m-tap-" + n.show(v)[..8];
    assert link[6..] == n.show(v)[..8] && link[..6] == "m-tap-";
  }

  // ---------------------------------------------------------------------------
  // A hibernated VM survives a pass.

  /** No other VM's cleanup touches a VM's snapshot and memory files through their names. */
  lemma ForeignArtifacts(n: Naming, v: VmId, w: VmId, p: Process, s: VmStatus, f: Path)
    requires n.Lawful() && v != w && (f == n.SnapshotFile(v) || f == n.MemoryFile(v))
    ensures f in Artifacts(n, w, p, s) <==> f == p.socket || f in p.chroot
  {
    SnapshotNamesDiffer(n, v, w);
  }

  lemma SnapshotNamesDiffer(n: Naming, v: VmId, w: VmId)
    requires n.Lawful() && v != w
    ensures n.SnapshotFile(v) != n.SnapshotFile(w) && n.MemoryFile(v) != n.MemoryFile(w)
    ensures n.SnapshotFile(v) != n.MemoryFile(w) && n.MemoryFile(v) != n.SnapshotFile(w)
  {
    assert (n.show(v) + ".snapshot")[..36] == n.show(v) && (n.show(w) + ".snapshot")[..36] == n.show(w);
    assert (n.show(v) + ".mem")[..36] == n.show(v) && (n.show(w) + ".mem")[..36] == n.show(w);
    assert n.show(v) != n.show(w) by {
      if n.show(v) == n.show(w) {
        ShowInjective(n, v, w);
      }
    }
    assert |n.show(v) + ".snapshot"| != |n.show(w) + ".mem"| && |n.show(w) + ".snapshot"| != |n.show(v) + ".mem"|;
  }

  /** The snapshot and memory files of a paused VM outlive cleanup and sweep, exactly unless an
      exited process's socket path or chroot covers them. */
  lemma PausedFilesKept(
    n: Naming, processes: map<VmId, Process>, vms: map<VmId, VmStatus>, files: set<Path>, alive: set<nat>,
    v: VmId, f: Path)
    requires n.Lawful() && v in vms && vms[v] == Paused
    requires f in files && (f == n.SnapshotFile(v) || f == n.MemoryFile(v))
    ensures f in FilesAfter(n, processes, vms, files, alive)
       <==> forall w :: w in ExitedIds(processes, alive) && w in vms ==>
              f != processes[w].socket && f !in processes[w].chroot
  {
    var ids := ExitedIds(processes, alive);
    var exited := Restrict(processes, ids);
    SweepOfSnapshots(n, (processes.Keys - ids) + vms.Keys, v);
    forall w | w in exited && w in vms
      ensures f in Artifacts(n, w, exited[w], vms[w]) <==> f == processes[w].socket || f in processes[w].chroot
    {
      if w != v {
        ForeignArtifacts(n, v, w, exited[w], vms[w], f);
      }
    }
  }

  /** An exited VM that was not paused loses its snapshot and memory files. */
  lemma UnpausedFilesGo(
    n: Naming, processes: map<VmId, Process>, vms: map<VmId, VmStatus>, files: set<Path>, alive: set<nat>, v: VmId)
    requires v in ExitedIds(processes, alive) && v in vms && vms[v] != Paused
    ensures n.SnapshotFile(v) !in FilesAfter(n, processes, vms, files, alive)
    ensures n.MemoryFile(v) !in FilesAfter(n, processes, vms, files, alive)
  {
    var exited := Restrict(processes, ExitedIds(processes, alive));
    assert n.SnapshotFile(v) in Artifacts(n, v, exited[v], vms[v]);
    assert n.MemoryFile(v) in Artifacts(n, v, exited[v], vms[v]);
  }
}
