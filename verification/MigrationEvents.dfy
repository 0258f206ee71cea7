/** What the phases of a migration leave in the log, event by event. */
module MigrationEvents {
  import opened Options
  import opened Overlay
  import opened Hosts
  import opened MigrationPlan

  // ---- Plans, command by command --------------------------------------------------------

  lemma {:induction false} EachOne<T>(xs: seq<T>, f: T -> seq<Event>, i: nat)
    requires forall x :: |f(x)| == 1
    ensures |Each(xs, f)| == |xs| && (i < |xs| ==> Each(xs, f)[i] == f(xs[i])[0])
  {
    if xs != [] {
      EachOne(xs[..|xs| - 1], f, i);
    }
  }

  lemma {:induction false} MovesAre(ms: seq<Mapping>, k: nat)
    ensures |Each(ms, MoveOne)| == 2 * |ms|
    ensures k < 2 * |ms| ==>
              Each(ms, MoveOne)[k] == if k % 2 == 0 then Touch(ms[k / 2].src, true)
                                      else Move(ms[k / 2].src, ms[k / 2].dst, Completed)
  {
    if ms != [] {
      MovesAre(ms[..|ms| - 1], k);
    }
  }

  /** Command `k` of a preparation: the pulls, then storing the volumes and the sandbox records. */
  lemma PreparePlanAt(cs: seq<Listed>, k: nat)
    ensures |PreparePlan(cs)| == |Pulls(cs)| + 2
    ensures k < |PreparePlan(cs)| ==>
              PreparePlan(cs)[k] == if k < |Pulls(cs)| then Pulls(cs)[k]
                                    else if k == |Pulls(cs)| then StoreVolumes(true) else StoreSandboxes(true)
  {
  }

  /** Command `k` of a migration: it copies the network file, stops the containers in order, and
      then marks and moves one directory after the other. */
  lemma MigratePlanAt(running: seq<string>, ms: seq<Mapping>, k: nat)
    ensures |MigratePlan(running, ms)| == 1 + |running| + 2 * |ms|
    ensures k == 0 ==> MigratePlan(running, ms)[k] == CopyNetworkFile(true)
    ensures 1 <= k <= |running| ==> MigratePlan(running, ms)[k] == Stop(running[k - 1], Halted)
    ensures |running| < k < |MigratePlan(running, ms)| ==>
              var i := k - 1 - |running|;
              MigratePlan(running, ms)[k] == if i % 2 == 0 then Touch(ms[i / 2].src, true)
                                             else Move(ms[i / 2].src, ms[i / 2].dst, Completed)
  {
    EachOne(running, StopOne, if k > 0 then k - 1 else 0);
    MovesAre(ms, if k > |running| then k - 1 - |running| else 0);
  }

  /** Command `k` of a revert: it moves the directories back in order and then starts the
      containers in order. */
  lemma RevertPlanAt(running: seq<string>, ms: seq<Mapping>, k: nat)
    ensures |RevertPlan(running, ms)| == |ms| + |running|
    ensures k < |ms| ==> RevertPlan(running, ms)[k] == Move(ms[k].dst, ms[k].src, Completed)
    ensures |ms| <= k < |ms| + |running| ==> RevertPlan(running, ms)[k] == DockerStart(running[k - |ms|], true)
  {
    EachOne(ms, ReturnOne, k);
    EachOne(running, RestartOne, if k >= |ms| then k - |ms| else 0);
  }

  lemma CleanAndStartPlanAt(deleted: seq<string>, survivors: seq<string>, k: nat)
    ensures var plan, n := CleanAndStartPlan(deleted, survivors), |deleted|;
            && |plan| == 1 + n + |survivors|
            && (k < n ==> plan[k] == Remove(deleted[k], Removed))
            && (k == n ==> plan[k] == DeleteBridge(true))
            && (n < k < |plan| ==> plan[k] == PouchStart(survivors[k - n - 1], true))
  {
    EachOne(deleted, RemoveOne, k);
    EachOne(survivors, StartOne, if k > |deleted| then k - |deleted| - 1 else 0);
  }

  /** Command `k` of a finish: it replaces docker by pouch, removes the deleted containers, takes
      the bridge down and starts the others, in order. */
  lemma FinishPlanAt(deleted: seq<string>, survivors: seq<string>, k: nat)
    ensures |FinishPlan(deleted, survivors)| == 4 + |deleted| + |survivors|
    ensures k == 0 ==> FinishPlan(deleted, survivors)[k] == UninstallDocker(true)
    ensures k == 1 ==> FinishPlan(deleted, survivors)[k] == InstallPouch(true)
    ensures k == 2 ==> FinishPlan(deleted, survivors)[k] == ConnectPouch(true)
    ensures 3 <= k < 3 + |deleted| ==> FinishPlan(deleted, survivors)[k] == Remove(deleted[k - 3], Removed)
    ensures k == 3 + |deleted| ==> FinishPlan(deleted, survivors)[k] == DeleteBridge(true)
    ensures 3 + |deleted| < k < |FinishPlan(deleted, survivors)| ==>
              FinishPlan(deleted, survivors)[k] == PouchStart(survivors[k - 4 - |deleted|], true)
  {
    CleanAndStartPlanAt(deleted, survivors, if k >= 3 then k - 3 else 0);
  }

  // ---- What a phase left in the log ------------------------------------------------------

  /** Event `e` is a success of command `c`.  Only the marker and the bridge succeed whatever
      comes of them, and an absent container counts as stopped and as removed. */
  ghost predicate Succeeds(e: Event, c: Event) {
    match c
    case Stop(id, _) => e.Stop? && e.id == id && !e.stopped.StopFailed?
    case Remove(id, _) => e.Remove? && e.id == id && !e.removed.RemoveFailed?
    case Touch(dir, _) => e.Touch? && e.dir == dir
    case DeleteBridge(_) => e.DeleteBridge?
    case _ => e == c
  }

  /** Event `e` is a failure of command `c`. */
  ghost predicate FailsAs(e: Event, c: Event) {
    match c
    case Stop(id, _) => e == Stop(id, StopFailed)
    case Remove(id, _) => e == Remove(id, RemoveFailed)
    case Move(src, dst, _) => e.Move? && e.src == src && e.dst == dst && !e.moved.Completed?
    case Touch(_, _) => false
    case DeleteBridge(_) => false
    case Pull(image, snapshotter, _) => e == Pull(image, snapshotter, false)
    case PouchStart(id, _) => e == PouchStart(id, false)
    case DockerStart(id, _) => e == DockerStart(id, false)
    case StoreVolumes(_) => e == StoreVolumes(false)
    case StoreSandboxes(_) => e == StoreSandboxes(false)
    case CopyNetworkFile(_) => e == CopyNetworkFile(false)
    case UninstallDocker(_) => e == UninstallDocker(false)
    case InstallPouch(_) => e == InstallPouch(false)
    case ConnectPouch(_) => e == ConnectPouch(false)
  }

  lemma OutcomesAre(e: Event)
    ensures Fails(e) ==> FailsAs(e, Command(e))
    ensures !Fails(e) ==> Succeeds(e, Command(e))
  {
  }

  lemma CarriedAt(before: Log, log: Log, plan: seq<Event>, k: nat)
    requires Carried(before, log, plan)
    ensures |Since(before, log)| == |plan| && (k < |plan| ==> Succeeds(Since(before, log)[k], plan[k]))
  {
    CarriedSince(before, log, plan);
    if k < |plan| {
      OutcomesAre(Since(before, log)[k]);
    }
  }

  /** Event `k` of a complete Migrate. */
  lemma MigrateEvent(before: Log, log: Log, running: seq<string>, ms: seq<Mapping>, k: nat)
    requires Carried(before, log, MigratePlan(running, ms))
    ensures |Since(before, log)| == 1 + |running| + 2 * |ms|
    ensures k < |Since(before, log)| ==>
              var e, i := Since(before, log)[k], k - 1 - |running|;
              && (k == 0 ==> e == CopyNetworkFile(true))
              && (1 <= k <= |running| ==> e.Stop? && e.id == running[k - 1] && !e.stopped.StopFailed?)
              && (|running| < k && i % 2 == 0 ==> e.Touch? && e.dir == ms[i / 2].src)
              && (|running| < k && i % 2 == 1 ==> e == Move(ms[i / 2].src, ms[i / 2].dst, Completed))
  {
    MigratePlanAt(running, ms, k);
    CarriedAt(before, log, MigratePlan(running, ms), k);
  }

  /** Event `k` of a complete revert. */
  lemma RevertEvent(before: Log, log: Log, running: seq<string>, ms: seq<Mapping>, k: nat)
    requires Carried(before, log, RevertPlan(running, ms))
    ensures |Since(before, log)| == |ms| + |running|
    ensures k < |ms| ==> Since(before, log)[k] == Move(ms[k].dst, ms[k].src, Completed)
    ensures |ms| <= k < |ms| + |running| ==> Since(before, log)[k] == DockerStart(running[k - |ms|], true)
  {
    RevertPlanAt(running, ms, k);
    CarriedAt(before, log, RevertPlan(running, ms), k);
  }

  /** Event `k` of a complete PostMigrate; the bridge may be gone already, and so may a deleted
      container. */
  lemma FinishEvent(before: Log, log: Log, deleted: seq<string>, survivors: seq<string>, k: nat)
    requires Carried(before, log, FinishPlan(deleted, survivors))
    ensures |Since(before, log)| == 4 + |deleted| + |survivors|
    ensures k < |Since(before, log)| ==>
              var e, n := Since(before, log)[k], |deleted|;
              && (k == 0 ==> e == UninstallDocker(true))
              && (k == 1 ==> e == InstallPouch(true))
              && (k == 2 ==> e == ConnectPouch(true))
              && (3 <= k < 3 + n ==> e.Remove? && e.id == deleted[k - 3] && !e.removed.RemoveFailed?)
              && (k == 3 + n ==> e.DeleteBridge?)
              && (3 + n < k ==> e == PouchStart(survivors[k - 4 - n], true))
  {
    FinishPlanAt(deleted, survivors, k);
    CarriedAt(before, log, FinishPlan(deleted, survivors), k);
  }

  // ---- How a phase fails -----------------------------------------------------------------

  /** A phase that gave up did so at some command of its plan. */
  lemma FailedCommand(before: Log, log: Log, plan: seq<Event>) returns (k: nat)
    requires Ran(before, log, plan, false)
    ensures k < |plan| && |Since(before, log)| == k + 1
    ensures log.Then? && log.last == Since(before, log)[k] && FailsAs(log.last, plan[k])
    ensures forall i :: 0 <= i < k ==> Succeeds(Since(before, log)[i], plan[i])
  {
    k := FailedSince(before, log, plan);
    OutcomesAre(log.last);
    forall i | 0 <= i < k
      ensures Succeeds(Since(before, log)[i], plan[i])
    {
      OutcomesAre(Since(before, log)[i]);
    }
  }

  lemma PrepareFailure(before: Log, log: Log, cs: seq<Listed>)
    requires Ran(before, log, PreparePlan(cs), false)
    ensures log.Then?
    ensures (log.last.Pull? && !log.last.ok) || log.last == StoreVolumes(false) || log.last == StoreSandboxes(false)
  {
    var k := FailedCommand(before, log, PreparePlan(cs));
    PreparePlanAt(cs, k);
    PullsFit(cs);
    assert k < |Pulls(cs)| ==> Pulls(cs)[k] in Pulls(cs);
  }

  lemma MigrateFailure(before: Log, log: Log, running: seq<string>, ms: seq<Mapping>)
    requires Ran(before, log, MigratePlan(running, ms), false)
    ensures log.Then?
    ensures || log.last == CopyNetworkFile(false)
            || (log.last.Stop? && log.last.stopped.StopFailed? && log.last.id in running)
            || (log.last.Move? && !log.last.moved.Completed? && Mapping(log.last.src, log.last.dst) in ms)
  {
    var k := FailedCommand(before, log, MigratePlan(running, ms));
    MigratePlanAt(running, ms, k);
    assert k > |running| ==> ms[(k - 1 - |running|) / 2] in ms;
  }

  lemma RevertFailure(before: Log, log: Log, running: seq<string>, ms: seq<Mapping>)
    requires Ran(before, log, RevertPlan(running, ms), false)
    ensures log.Then?
    ensures || (log.last.Move? && !log.last.moved.Completed? && Mapping(log.last.dst, log.last.src) in ms)
            || (log.last.DockerStart? && !log.last.ok && log.last.id in running)
  {
    var k := FailedCommand(before, log, RevertPlan(running, ms));
    RevertPlanAt(running, ms, k);
    assert k < |ms| ==> ms[k] in ms;
  }

  lemma FinishFailure(before: Log, log: Log, deleted: seq<string>, survivors: seq<string>)
    requires Ran(before, log, FinishPlan(deleted, survivors), false)
    ensures log.Then?
    ensures || log.last == UninstallDocker(false) || log.last == InstallPouch(false) || log.last == ConnectPouch(false)
            || (log.last.Remove? && log.last.removed.RemoveFailed? && log.last.id in deleted)
            || (log.last.PouchStart? && !log.last.ok && log.last.id in survivors)
  {
    var k := FailedCommand(before, log, FinishPlan(deleted, survivors));
    FinishPlanAt(deleted, survivors, k);
  }

  // ---- Whole runs ------------------------------------------------------------------------

  /** Event `k` of a preparation that counts as successful: the pulls that fit, then both records
      or a failure to store the volumes. */
  lemma PreparedEvent(log: Log, cs: seq<Listed>, k: nat)
    requires Prepared(log, cs) && cs != []
    ensures var es, n := Events(log), |Pulls(cs)|;
            && (|es| == n + 2 || (|es| == n + 1 && es[n] == StoreVolumes(false)))
            && (k < n ==> es[k] == Pulls(cs)[k])
            && (|es| == n + 2 ==> es[n] == StoreVolumes(true) && es[n + 1] == StoreSandboxes(true))
  {
    var plan, n := PreparePlan(cs), |Pulls(cs)|;
    assert Since(Empty, log) == Events(log);
    PreparePlanAt(cs, k);
    PreparePlanAt(cs, n);
    PreparePlanAt(cs, n + 1);
    PullsFit(cs);
    assert k < n ==> Pulls(cs)[k] in Pulls(cs);
    if Carried(Empty, log, plan) {
      CarriedAt(Empty, log, plan, k);
      CarriedAt(Empty, log, plan, n);
      CarriedAt(Empty, log, plan, n + 1);
    } else {
      var j := FailedCommand(Empty, log, plan);
      PreparePlanAt(cs, j);
    }
  }

  /** A successful preparation pulled every image in use, each for its first container, and did
      nothing but pull and store. */
  lemma PreparedPulls(log: Log, cs: seq<Listed>)
    requires Prepared(log, cs)
    ensures forall e :: e in Events(log) ==> (PullsForFirst(cs, e) && e.ok) || e.StoreVolumes? || e.StoreSandboxes?
    ensures forall k :: 0 <= k < |cs| && cs[k].inspected.Some? ==>
              exists e :: e in Events(log) && e.Pull? && e.image == cs[k].inspected.value.image
    ensures cs != [] ==> log.Then? && log.last in {StoreVolumes(false), StoreSandboxes(true)}
  {
    var es := Events(log);
    if cs != [] {
      PullsFit(cs);
      forall i | 0 <= i < |es|
        ensures (PullsForFirst(cs, es[i]) && es[i].ok) || es[i].StoreVolumes? || es[i].StoreSandboxes?
      {
        PreparedEvent(log, cs, i);
        assert i < |Pulls(cs)| ==> Pulls(cs)[i] in Pulls(cs);
      }
      forall k | 0 <= k < |cs| && cs[k].inspected.Some?
        ensures exists e :: e in es && e.Pull? && e.image == cs[k].inspected.value.image
      {
        var e :| e in Pulls(cs) && e.Pull? && e.image == cs[k].inspected.value.image;
        var i :| 0 <= i < |Pulls(cs)| && Pulls(cs)[i] == e;
        PreparedEvent(log, cs, i);
        assert es[i] == e;
      }
      PreparedEvent(log, cs, 0);
      assert log.last == es[|es| - 1];
    }
  }

  lemma MigrateKinds(before: Log, log: Log, running: seq<string>, ms: seq<Mapping>)
    requires Carried(before, log, MigratePlan(running, ms))
    ensures forall e :: e in Since(before, log) ==> e.CopyNetworkFile? || e.Stop? || e.Touch? || e.Move?
  {
    var es := Since(before, log);
    forall k | 0 <= k < |es|
      ensures es[k].CopyNetworkFile? || es[k].Stop? || es[k].Touch? || es[k].Move?
    {
      MigrateEvent(before, log, running, ms, k);
    }
  }

  /** A complete PostMigrate removed exactly the deleted containers, and started exactly the
      survivors. */
  lemma FinishMembers(before: Log, log: Log, deleted: seq<string>, survivors: seq<string>, c: string)
    requires Carried(before, log, FinishPlan(deleted, survivors))
    ensures (exists e :: e in Since(before, log) && e.Remove? && e.id == c) <==> c in deleted
    ensures (exists e :: e in Since(before, log) && e.PouchStart? && e.id == c) <==> c in survivors
  {
    var es := Since(before, log);
    FinishEvent(before, log, deleted, survivors, 0);
    forall k | 0 <= k < |es|
      ensures es[k].Remove? ==> es[k].id in deleted
      ensures es[k].PouchStart? ==> es[k].id in survivors
    {
      FinishEvent(before, log, deleted, survivors, k);
    }
    if i :| 0 <= i < |deleted| && deleted[i] == c {
      FinishEvent(before, log, deleted, survivors, 3 + i);
      assert es[3 + i] in es;
    }
    if i :| 0 <= i < |survivors| && survivors[i] == c {
      FinishEvent(before, log, deleted, survivors, 4 + |deleted| + i);
      assert es[4 + |deleted| + i] in es;
    }
  }

  ghost predicate RemovedIn(es: seq<Event>, c: string) { exists e :: e in es && e.Remove? && e.id == c }

  ghost predicate StartedIn(es: seq<Event>, c: string) { exists e :: e in es && e.PouchStart? && e.id == c }

  /** The events removed exactly the containers of one list and started exactly those of another
      in pouch. */
  ghost predicate Finishes(es: seq<Event>, removed: seq<string>, started: seq<string>) {
    && (forall c :: RemovedIn(es, c) <==> c in removed)
    && (forall c :: StartedIn(es, c) <==> c in started)
  }

  lemma FinishFinishes(before: Log, log: Log, deleted: seq<string>, survivors: seq<string>)
    requires Carried(before, log, FinishPlan(deleted, survivors))
    ensures Finishes(Since(before, log), deleted, survivors)
  {
    forall c
      ensures RemovedIn(Since(before, log), c) <==> c in deleted
      ensures StartedIn(Since(before, log), c) <==> c in survivors
    {
      FinishMembers(before, log, deleted, survivors, c);
    }
  }

  /** Until Migrate has ended nothing is removed, and nothing started in pouch. */
  ghost predicate NoneFinished(es: seq<Event>) { forall e :: e in es ==> !e.Remove? && !e.PouchStart? }

  lemma NoneFinishedPreparing(log: Log, cs: seq<Listed>)
    requires Prepared(log, cs)
    ensures NoneFinished(Events(log))
  {
    PreparedPulls(log, cs);
  }

  lemma NoneFinishedMigrating(before: Log, log: Log, running: seq<string>, ms: seq<Mapping>)
    requires NoneFinished(Events(before)) && Carried(before, log, MigratePlan(running, ms))
    ensures NoneFinished(Events(log))
  {
    MigrateKinds(before, log, running, ms);
    CarriedSince(before, log, MigratePlan(running, ms));
  }

  lemma LaterFinishes(es: seq<Event>, more: seq<Event>, removed: seq<string>, started: seq<string>)
    requires NoneFinished(es) && Finishes(more, removed, started)
    ensures Finishes(es + more, removed, started)
  {
    var all := es + more;
    assert forall e :: e in more ==> e in all;
    assert forall e :: e in all && (e.Remove? || e.PouchStart?) ==> e in more;
    assert forall c :: RemovedIn(all, c) <==> RemovedIn(more, c);
    assert forall c :: StartedIn(all, c) <==> StartedIn(more, c);
  }

  /** Over a whole run that finished nothing else was removed or started in pouch either. */
  lemma RunFinishes(migrated: Log, log: Log, deleted: seq<string>, survivors: seq<string>)
    requires NoneFinished(Events(migrated)) && Carried(migrated, log, FinishPlan(deleted, survivors))
    ensures Finishes(Events(log), deleted, survivors)
  {
    FinishFinishes(migrated, log, deleted, survivors);
    CarriedSince(migrated, log, FinishPlan(deleted, survivors));
    LaterFinishes(Events(migrated), Since(migrated, log), deleted, survivors);
  }
}
