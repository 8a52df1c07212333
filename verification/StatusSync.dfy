/**
 Reconciling a deployment's stored status with cluster reports. A poller and a listener both
 read the row, decide with `should_apply_cluster_status`, and write; neither locks the row, so
 a decision may be made on a status that has since been overwritten.
 */
module StatusSync {
  import opened Common

  type Uuid = nat

  /** Columns that reconciliation writes without having looked at them. */
  datatype Column = JobId | ImageTag | BuildId | GitCommitHash | GitCommitMessage | GitBranch

  /** The columns of a deployment row that reconciliation touches; details are those of the other
      columns that are not null. */
  datatype Deployment = Deployment(
    id: Uuid, status: string, ipv6: Option<string>, hypervisor: int, details: map<Column, string>)

  /** A cluster report: an empty address and hypervisor 0 mean "not given". */
  datatype Report = Report(status: string, ipv6: string, hypervisor: int)

  /** Column values to write; None, or no detail, leaves a column as it is (COALESCE). */
  datatype Update = Update(
    status: Option<string>, ipv6: Option<string>, hypervisor: Option<int>, details: map<Column, string>)

  function Priority(status: string): int {
    if status == "FAILED" || status == "CANCELLED" then 5
    else if status == "RUNNING" || status == "DRAINING" || status == "PAUSED" || status == "STOPPED" then 4
    else if status == "SCHEDULED" then 3
    else if status == "PENDING" then 2
    else if status == "BUILDING" then 1
    else 0
  }

  function ShouldApply(current: string, incoming: string, active: Option<Uuid>, depId: Uuid): bool {
    if current == incoming then false
    else if current == "DRAINING" && incoming == "RUNNING" then false
    else if current == "DRAINING" && (incoming == "PENDING" || incoming == "SCHEDULED" || incoming == "BUILDING") then false
    else if current == "DRAINING" && (incoming == "PAUSED" || incoming == "STOPPED") then true
    else if current == "DRAINING" && (incoming == "FAILED" || incoming == "CANCELLED") then false
    else if (current == "PAUSED" || current == "STOPPED") && incoming == "RUNNING" then active == Some(depId)
    else if (current == "FAILED" || current == "CANCELLED") && incoming == "RUNNING" then false
    else Priority(incoming) >= Priority(current)
  }

  /** The update that a report calls for, judged against the row as it was read. */
  function Decide(read: Deployment, report: Report, active: Option<Uuid>): Option<Update> {
    var statusChanged := ShouldApply(read.status, report.status, active, read.id);
    var newIpv6 := report.ipv6 != "" && read.ipv6 != Some(report.ipv6);
    var newHypervisor := report.hypervisor != 0 && read.hypervisor != report.hypervisor;
    if statusChanged || newIpv6 || newHypervisor then
      Some(Update(
        if statusChanged then Some(report.status) else None,
        if report.ipv6 != "" then Some(report.ipv6) else read.ipv6,
        if newHypervisor then Some(report.hypervisor) else None,
        read.details))
    else None
  }

  function Written(row: Deployment, u: Option<Update>): Deployment {
    match u
    case None => row
    case Some(Update(status, ipv6, hypervisor, details)) =>
      row.(status := if status.Some? then status.value else row.status,
           ipv6 := if ipv6.Some? then ipv6 else row.ipv6,
           hypervisor := if hypervisor.Some? then hypervisor.value else row.hypervisor,
           details := row.details + details)
  }

  class Repository {
    var row: Deployment

    constructor (dep: Deployment)
      ensures row == dep
    {
      row := dep;
    }

    /** `sync_deployment_state`: dep is the caller's copy of the row, possibly out of date. */
    method SyncDeploymentState(dep: Deployment, report: Report, active: Option<Uuid>) returns (wrote: bool)
      modifies this
      ensures row == Written(old(row), Decide(dep, report, active))
      ensures wrote <==>
        || ShouldApply(dep.status, report.status, active, dep.id)
        || (report.ipv6 != "" && dep.ipv6 != Some(report.ipv6))
        || (report.hypervisor != 0 && dep.hypervisor != report.hypervisor)
      ensures !wrote ==> row == old(row)
    {
      var statusChanged := ShouldApply(dep.status, report.status, active, dep.id);
      var hasNewIpv6 := report.ipv6 != "" && dep.ipv6 != Some(report.ipv6);
      var hasNewHypervisor := report.hypervisor != 0 && dep.hypervisor != report.hypervisor;
      wrote := statusChanged || hasNewIpv6 || hasNewHypervisor;
      if wrote {
        if statusChanged {
          row := row.(status := report.status);
        }
        if report.ipv6 != "" {
          row := row.(ipv6 := Some(report.ipv6));
        } else if dep.ipv6.Some? {
          row := row.(ipv6 := dep.ipv6);
        }
        if hasNewHypervisor {
          row := row.(hypervisor := report.hypervisor);
        }
        row := row.(details := row.details + dep.details);
      }
    }
  }

  /** Repeating a report against the row it produced writes nothing more. */
  lemma SyncIdempotent(row: Deployment, report: Report, active: Option<Uuid>)
    ensures Decide(Written(row, Decide(row, report, active)), report, active) == None
  {
  }

  /** Decided on the row as it is, a report takes over whatever it gives: the address and the
      hypervisor if it names them, the status if that may be applied. */
  lemma SyncTakesOver(row: Deployment, report: Report, active: Option<Uuid>)
    ensures Written(row, Decide(row, report, active)) == Deployment(
      row.id,
      if ShouldApply(row.status, report.status, active, row.id) then report.status else row.status,
      if report.ipv6 != "" then Some(report.ipv6) else row.ipv6,
      if report.hypervisor != 0 then report.hypervisor else row.hypervisor,
      row.details)
  {
    assert row.details + row.details == row.details;
  }

  /** Decided on an outdated copy, a report that names no address writes back the copy's: the
      row's own survives exactly if nothing is written, or the copy has none, or the same one. */
  lemma StaleAddressIff(row: Deployment, copy: Deployment, report: Report, active: Option<Uuid>)
    requires report.ipv6 == ""
    ensures Written(row, Decide(copy, report, active)).ipv6 == row.ipv6 <==>
      copy.ipv6.None? || copy.ipv6 == row.ipv6
      || (!ShouldApply(copy.status, report.status, active, copy.id)
          && (report.hypervisor == 0 || report.hypervisor == copy.hypervisor))
  {
  }

  /** A hypervisor is written if the report names one that the copy does not have. */
  lemma StaleHypervisorIff(row: Deployment, copy: Deployment, report: Report, active: Option<Uuid>)
    ensures Written(row, Decide(copy, report, active)).hypervisor ==
      if report.hypervisor != 0 && report.hypervisor != copy.hypervisor then report.hypervisor else row.hypervisor
  {
  }

  /** Every other column is written back from the copy along with any change: the row's value
      survives exactly if nothing is written, or the copy has none there, or the same one. No
      report can prevent it. */
  lemma StaleDetailIff(row: Deployment, copy: Deployment, report: Report, active: Option<Uuid>, c: Column)
    requires c in row.details
    ensures var after := Written(row, Decide(copy, report, active));
      c in after.details && (after.details[c] == row.details[c] <==>
        Decide(copy, report, active).None? || c !in copy.details || copy.details[c] == row.details[c])
  {
  }

  // ---------------------------------------------------------------------------
  // Runs: any number of workers, each reading the row and later writing on what it read.

  datatype State = State(row: Deployment, seen: map<nat, Deployment>)

  datatype Event =
    | Read(worker: nat)
    | Write(worker: nat, report: Report, active: Option<Uuid>)

  /** A worker without a read has nothing to write. */
  function Step(s: State, e: Event): State {
    match e
    case Read(w) => s.(seen := s.seen[w := s.row])
    case Write(w, report, active) =>
      if w !in s.seen then s
      else State(Written(s.row, Decide(s.seen[w], report, active)), s.seen - {w})
  }

  function Exec(s: State, run: seq<Event>): State
    decreases |run|
  {
    if run == [] then s else Exec(Step(s, run[0]), run[1..])
  }

  /** Statuses from which every applied transition leads back into the set. */
  ghost predicate Closed(p: string -> bool, id: Uuid, actives: Option<Uuid> -> bool) {
    forall from, to, active :: p(from) && actives(active) && ShouldApply(from, to, active, id) ==> p(to)
  }

  ghost predicate AllIn(s: State, p: string -> bool, id: Uuid) {
    && p(s.row.status) && s.row.id == id
    && forall w :: w in s.seen ==> p(s.seen[w].status) && s.seen[w].id == id
  }

  ghost predicate ActivesAmong(run: seq<Event>, actives: Option<Uuid> -> bool) {
    forall e :: e in run && e.Write? ==> actives(e.active)
  }

  /** However reads and writes interleave, a closed set of statuses is never left, provided no
      read from before it was entered is still to be acted on. */
  lemma {:induction false} ClosedSetKept(
    s: State, run: seq<Event>, p: string -> bool, id: Uuid, actives: Option<Uuid> -> bool)
    requires Closed(p, id, actives) && AllIn(s, p, id) && ActivesAmong(run, actives)
    ensures AllIn(Exec(s, run), p, id)
    decreases |run|
  {
    if run != [] {
      var e := run[0];
      assert e in run;
      if e.Write? && e.worker in s.seen {
        var read := s.seen[e.worker];
        assert ShouldApply(read.status, e.report.status, e.active, id) ==> p(e.report.status);
      }
      assert ActivesAmong(run[1..], actives);
      ClosedSetKept(Step(s, e), run[1..], p, id, actives);
    }
  }

  function Terminal(status: string): bool {
    status == "FAILED" || status == "CANCELLED"
  }

  /** Statuses a deployment can have once it has left RUNNING. */
  function Departed(status: string): bool {
    Terminal(status) || status == "DRAINING" || status == "PAUSED" || status == "STOPPED"
  }

  /** No interleaving takes the priority below where all outstanding reads and the row stood. */
  lemma PriorityFloor(s: State, run: seq<Event>, floor: int)
    requires AllIn(s, status => Priority(status) >= floor, s.row.id)
    ensures Priority(Exec(s, run).row.status) >= floor
  {
    var p := status => Priority(status) >= floor;
    ClosedSetKept(s, run, p, s.row.id, _ => true);
  }

  /** Failed and cancelled are final. */
  lemma TerminalIsFinal(s: State, run: seq<Event>)
    requires AllIn(s, Terminal, s.row.id)
    ensures Terminal(Exec(s, run).row.status)
  {
    ClosedSetKept(s, run, Terminal, s.row.id, _ => true);
  }

  /** While it is not the active deployment, one that has left RUNNING does not come back to it. */
  lemma NoRevival(s: State, run: seq<Event>)
    requires AllIn(s, Departed, s.row.id)
    requires forall e :: e in run && e.Write? ==> e.active != Some(s.row.id)
    ensures Departed(Exec(s, run).row.status) && Exec(s, run).row.status != "RUNNING"
  {
    var actives := (a: Option<Uuid>) => a != Some(s.row.id);
    ClosedSetKept(s, run, Departed, s.row.id, actives);
  }

  /** A decision for a deployment that is not active can accept RUNNING exactly if the status it
      was made on has a lower priority than that. */
  lemma RevivingReadIff(read: Deployment)
    ensures (exists active :: active != Some(read.id) && ShouldApply(read.status, "RUNNING", active, read.id))
       <==> Priority(read.status) < 4
  {
    assert None != Some(read.id);
    if Priority(read.status) < 4 {
      assert ShouldApply(read.status, "RUNNING", None, read.id);
    }
  }

  ghost predicate Inactive(run: seq<Event>, id: Uuid) {
    forall e :: e in run && e.Write? ==> e.active != Some(id)
  }

  /** All reads are of this deployment. */
  ghost predicate SameRow(s: State) {
    forall w :: w in s.seen ==> s.seen[w].id == s.row.id
  }

  /** No outstanding read can revive. */
  ghost predicate ReadsLate(s: State) {
    forall w :: w in s.seen ==> Priority(s.seen[w].status) >= 4
  }

  lemma DepartedStep(s: State, e: Event)
    requires Departed(s.row.status) && SameRow(s) && ReadsLate(s) && (e.Write? ==> e.active != Some(s.row.id))
    ensures var s' := Step(s, e);
      s'.row.id == s.row.id && Departed(s'.row.status) && SameRow(s') && ReadsLate(s')
  {
  }

  lemma {:induction false} DepartedRun(s: State, run: seq<Event>)
    requires Departed(s.row.status) && SameRow(s) && ReadsLate(s) && Inactive(run, s.row.id)
    ensures Departed(Exec(s, run).row.status)
    decreases |run|
  {
    if run != [] {
      assert run[0] in run;
      assert Inactive(run[1..], s.row.id);
      DepartedStep(s, run[0]);
      DepartedRun(Step(s, run[0]), run[1..]);
    }
  }

  /** One that has left RUNNING and is not the active deployment stays so in every run, if and only
      if no outstanding read is of a status before RUNNING. */
  lemma RevivalIff(s: State)
    requires Departed(s.row.status) && SameRow(s)
    ensures (forall run :: Inactive(run, s.row.id) ==> Departed(Exec(s, run).row.status)) <==> ReadsLate(s)
  {
    if ReadsLate(s) {
      forall run | Inactive(run, s.row.id)
        ensures Departed(Exec(s, run).row.status)
      {
        DepartedRun(s, run);
      }
    } else {
      var w :| w in s.seen && Priority(s.seen[w].status) < 4;
      var run := ReviveBy(s, w);
    }
  }

  /** A worker that read such a status need only be told that the VM is running. */
  lemma ReviveBy(s: State, w: nat) returns (run: seq<Event>)
    requires w in s.seen && Priority(s.seen[w].status) < 4
    ensures Inactive(run, s.row.id) && Exec(s, run).row.status == "RUNNING"
  {
    var e := Write(w, Report("RUNNING", "", 0), None);
    run := [e];
    ExecCons(s, e, []);
    assert [e] + [] == [e];
  }

  /** Two workers read PENDING; one reports that the VM was stopped, and the other's late report
      that it runs revives it, though it is not the active deployment. */
  lemma StaleReadRevives(id: Uuid)
    ensures var s := State(Deployment(id, "PENDING", None, 0, map[]), map[]);
      var run := [Read(1), Read(2), Write(2, Report("STOPPED", "", 0), None), Write(1, Report("RUNNING", "", 0), None)];
      Exec(s, run[..3]).row.status == "STOPPED" && Exec(s, run).row.status == "RUNNING"
  {
    var s := State(Deployment(id, "PENDING", None, 0, map[]), map[]);
    var stopped, running := Write(2, Report("STOPPED", "", 0), None), Write(1, Report("RUNNING", "", 0), None);
    var s1 := Step(s, Read(1));
    var s2 := Step(s1, Read(2));
    var s3 := Step(s2, stopped);
    var s4 := Step(s3, running);
    assert s3.row.status == "STOPPED" && 1 in s3.seen && s3.seen[1].status == "PENDING";
    var run := [Read(1), Read(2), stopped, running];
    assert run[..3] == [Read(1), Read(2), stopped];
    ExecFour(s, Read(1), Read(2), stopped, running);
  }

  predicate IsKnown(status: string) {
    Departed(status) || status == "BUILDING" || status == "PENDING" || status == "SCHEDULED" || status == "RUNNING"
  }

  /** Where each status can go, one by one. BUILDING, PENDING, SCHEDULED and RUNNING lead onwards
      only; RUNNING not back to itself; DRAINING to PAUSED and STOPPED; the final ones only to each
      other; PAUSED and STOPPED back to RUNNING for the active deployment alone; and any status to
      and from ones that are not known, but never from a known one to an unknown one. */
  lemma Transitions(to: string, active: Option<Uuid>, id: Uuid)
    ensures ShouldApply("BUILDING", to, active, id) <==>
      to == "PENDING" || to == "SCHEDULED" || to == "RUNNING" || Departed(to)
    ensures ShouldApply("PENDING", to, active, id) <==> to == "SCHEDULED" || to == "RUNNING" || Departed(to)
    ensures ShouldApply("SCHEDULED", to, active, id) <==> to == "RUNNING" || Departed(to)
    ensures ShouldApply("RUNNING", to, active, id) <==> Departed(to)
    ensures ShouldApply("DRAINING", to, active, id) <==> to == "PAUSED" || to == "STOPPED"
    ensures ShouldApply("PAUSED", to, active, id) <==>
      (to == "RUNNING" && active == Some(id)) || (to != "PAUSED" && Departed(to))
    ensures ShouldApply("STOPPED", to, active, id) <==>
      (to == "RUNNING" && active == Some(id)) || (to != "STOPPED" && Departed(to))
    ensures ShouldApply("FAILED", to, active, id) <==> to == "CANCELLED"
    ensures ShouldApply("CANCELLED", to, active, id) <==> to == "FAILED"
    ensures forall from :: !IsKnown(from) ==> (ShouldApply(from, to, active, id) <==> to != from)
  {
  }

  /** How far a deployment has come on its way to running: nowhere yet, for a status not known. */
  function Stage(status: string): nat {
    if status == "BUILDING" then 1
    else if status == "PENDING" then 2
    else if status == "SCHEDULED" then 3
    else if status == "RUNNING" || Departed(status) then 4
    else 0
  }

  /** Over atomic updates a row never goes back along BUILDING, PENDING, SCHEDULED, RUNNING. */
  lemma {:induction false} NeverBack(row: Deployment, run: seq<Sync>, k: nat)
    requires k <= |run|
    ensures Stage(ExecAtomic(row, run[..k]).status) <= Stage(ExecAtomic(row, run).status)
    decreases |run|
  {
    hide ShouldApply;
    if run != [] {
      var next := Written(row, Decide(row, run[0].report, run[0].active));
      OnwardStep(row, run[0]);
      if k == 0 {
        NeverBack(next, run[1..], 0);
        assert run[..0] == [] && run[1..][..0] == [];
      } else {
        NeverBack(next, run[1..], k - 1);
        assert run[..k][1..] == run[1..][..k - 1];
      }
    }
  }

  lemma OnwardStep(row: Deployment, sync: Sync)
    ensures Stage(row.status) <= Stage(Written(row, Decide(row, sync.report, sync.active)).status)
  {
    Transitions(sync.report.status, sync.active, row.id);
  }

  // ---------------------------------------------------------------------------
  // Atomic updates: each read is acted on before anything else happens.

  datatype Sync = Sync(report: Report, active: Option<Uuid>)

  function ExecAtomic(row: Deployment, run: seq<Sync>): Deployment
    decreases |run|
  {
    if run == [] then row
    else ExecAtomic(Written(row, Decide(row, run[0].report, run[0].active)), run[1..])
  }

  /** Over atomic updates the priority never decreases. */
  lemma {:induction false} AtomicMonotone(row: Deployment, run: seq<Sync>, k: nat)
    requires k <= |run|
    ensures Priority(ExecAtomic(row, run[..k]).status) <= Priority(ExecAtomic(row, run).status)
    decreases |run|
  {
    if run != [] {
      var next := Written(row, Decide(row, run[0].report, run[0].active));
      if k == 0 {
        AtomicMonotone(next, run[1..], 0);
        assert run[..0] == [] && run[1..][..0] == [];
      } else {
        AtomicMonotone(next, run[1..], k - 1);
        assert run[..k][1..] == run[1..][..k - 1];
      }
    }
  }

  // ---------------------------------------------------------------------------
  // Stale reads: the guarantee is not unconditional.

  /** Two workers read RUNNING; one reports a failure, and the other's late report overwrites it. */
  lemma StaleWriteRevives(id: Uuid)
    ensures var s := State(Deployment(id, "RUNNING", None, 0, map[]), map[]);
      var run := [Read(1), Read(2), Write(2, Report("FAILED", "", 0), None), Write(1, Report("PAUSED", "", 0), None)];
      Exec(s, run[..3]).row.status == "FAILED" && Exec(s, run).row.status == "PAUSED"
  {
    var s := State(Deployment(id, "RUNNING", None, 0, map[]), map[]);
    var failed, paused := Write(2, Report("FAILED", "", 0), None), Write(1, Report("PAUSED", "", 0), None);
    var s1 := Step(s, Read(1));
    var s2 := Step(s1, Read(2));
    var s3 := Step(s2, failed);
    var s4 := Step(s3, paused);
    assert s3.row.status == "FAILED" && 1 in s3.seen && s3.seen[1].status == "RUNNING";
    var run := [Read(1), Read(2), failed, paused];
    assert run[..3] == [Read(1), Read(2), failed];
    ExecFour(s, Read(1), Read(2), failed, paused);
  }

  /** In the same way an address is rolled back: a worker learns a new one, and another's late
      report, which names none, writes the old one again. */
  lemma StaleWriteRestoresAddress(id: Uuid)
    ensures var s := State(Deployment(id, "RUNNING", Some("a"), 0, map[]), map[]);
      var run := [Read(1), Read(2), Write(2, Report("RUNNING", "b", 0), None), Write(1, Report("PAUSED", "", 0), None)];
      Exec(s, run[..3]).row.ipv6 == Some("b") && Exec(s, run).row.ipv6 == Some("a")
  {
    var s := State(Deployment(id, "RUNNING", Some("a"), 0, map[]), map[]);
    var moved, paused := Write(2, Report("RUNNING", "b", 0), None), Write(1, Report("PAUSED", "", 0), None);
    var s1 := Step(s, Read(1));
    var s2 := Step(s1, Read(2));
    var s3 := Step(s2, moved);
    var s4 := Step(s3, paused);
    assert s3.row.ipv6 == Some("b") && 1 in s3.seen && s3.seen[1].ipv6 == Some("a");
    var run := [Read(1), Read(2), moved, paused];
    assert run[..3] == [Read(1), Read(2), moved];
    ExecFour(s, Read(1), Read(2), moved, paused);
  }

  lemma ExecCons(s: State, e: Event, rest: seq<Event>)
    ensures Exec(s, [e] + rest) == Exec(Step(s, e), rest)
  {
    assert ([e] + rest)[1..] == rest;
  }

  lemma ExecFour(s: State, a: Event, b: Event, c: Event, d: Event)
    ensures Exec(s, [a, b, c]) == Step(Step(Step(s, a), b), c)
    ensures Exec(s, [a, b, c, d]) == Step(Step(Step(Step(s, a), b), c), d)
  {
    ExecCons(s, a, [b, c]);
    ExecCons(s, a, [b, c, d]);
    ExecCons(Step(s, a), b, [c]);
    ExecCons(Step(s, a), b, [c, d]);
    ExecCons(Step(Step(s, a), b), c, []);
    ExecCons(Step(Step(s, a), b), c, [d]);
    ExecCons(Step(Step(Step(s, a), b), c), d, []);
    assert [a, b, c] == [a] + [b, c] && [b, c] == [b] + [c] && [c] == [c] + [];
    assert [a, b, c, d] == [a] + [b, c, d] && [b, c, d] == [b] + [c, d] && [c, d] == [c] + [d] && [d] == [d] + [];
  }

  /** The lowest priority that a decision made on status read can write. */
  function LowestWrite(read: string): int {
    var p := Priority(read);
    if 1 <= p <= 3 then p + 1 else p
  }

  lemma LowestWriteBound(read: string, to: string, active: Option<Uuid>, id: Uuid)
    ensures ShouldApply(read, to, active, id) ==> Priority(to) >= LowestWrite(read)
  {
  }

  lemma LowestWriteReached(read: string, id: Uuid) returns (to: string)
    ensures ShouldApply(read, to, None, id) && Priority(to) == LowestWrite(read)
  {
    if Priority(read) == 0 {
      to := if read == "UNKNOWN" then "" else "UNKNOWN";
    } else if Priority(read) <= 2 {
      to := if read == "BUILDING" then "PENDING" else "SCHEDULED";
    } else if Priority(read) <= 4 {
      to := if read == "PAUSED" then "STOPPED" else "PAUSED";
    } else {
      to := if read == "FAILED" then "CANCELLED" else "FAILED";
    }
  }

  /** Exactly when a decision on an outdated read is still safe: no report it accepts lowers
      the row's priority if and only if the row has not risen above what the read can write. */
  lemma StaleWriteSafeIff(read: string, now: string, id: Uuid)
    ensures (forall to, active :: ShouldApply(read, to, active, id) ==> Priority(to) >= Priority(now))
       <==> Priority(now) <= LowestWrite(read)
  {
    hide Priority, LowestWrite, ShouldApply;
    forall to, active
      ensures ShouldApply(read, to, active, id) ==> Priority(to) >= LowestWrite(read)
    {
      LowestWriteBound(read, to, active, id);
    }
    var lowest := LowestWriteReached(read, id);
  }
}
