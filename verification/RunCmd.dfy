/** The order of the phases (main.go): prepare, migrate, and then either finish or, after a
    failed migration only, revert. */
module RunCmd {
  import opened Options
  import opened Overlay
  import opened Hosts
  import opened MigrationPlan
  import opened MigrationProgress
  import opened MigrationEvents
  import opened ColdMigration

  datatype Outcome = NotPrepared | OnlyPrepared | MigrationFailed | PostFailed | Finished

  function CourseOf(o: Outcome): Course {
    match o
    case MigrationFailed => Revert
    case PostFailed => Finish
    case Finished => Finish
    case _ => ForwardOnly
  }

  function Listing(l: Option<seq<Listed>>): seq<Listed> { if l.Some? then l.value else [] }

  /** What a run leaves behind: the logs at the end of PreMigrate and of Migrate, whether the
      revert came to its restarts and through all of them, and the containers PostMigrate
      found missing from the second listing. */
  datatype Trace = Trace(prepared: Log, migrated: Log, returned: bool, restarted: bool, deleted: seq<string>)

  /** The run issued the commands that belong to its outcome, each phase up to its first
      failure. */
  ghost predicate AsPlanned(outcome: Outcome, log: Log, t: Trace, listing: seq<Listed>,
                            relisting: Option<seq<string>>) {
    match outcome
    case NotPrepared => false
    case OnlyPrepared => Prepared(log, listing) && log == t.prepared
    case MigrationFailed => RevertedAsPlanned(log, t, listing)
    case _ => FinishedAsPlanned(outcome.Finished?, log, t, listing, relisting)
  }

  ghost predicate RevertedAsPlanned(log: Log, t: Trace, listing: seq<Listed>) {
    && Prepared(t.prepared, listing)
    && Ran(t.prepared, t.migrated, MigratePlan(Running(listing), Mappings(listing)), false)
    && Ran(t.migrated, log, RevertPlan(Running(listing), Mappings(listing)), t.restarted)
    && RevertRan(t.migrated, log, Running(listing), Mappings(listing), t.returned, t.restarted)
  }

  ghost predicate FinishedAsPlanned(ok: bool, log: Log, t: Trace, listing: seq<Listed>,
                                    relisting: Option<seq<string>>) {
    && Prepared(t.prepared, listing)
    && Ran(t.prepared, t.migrated, MigratePlan(Running(listing), Mappings(listing)), true)
    && match relisting
       case None => !ok && log == t.migrated
       case Some(present) =>
         && NoRepeats(t.deleted) && (forall c :: c in t.deleted <==> c in Ids(listing) && c !in present)
         && Ran(t.migrated, log, FinishPlan(t.deleted, Survivors(Running(listing), present)), ok)
  }

  ghost predicate IsListed(listing: seq<Listed>, c: string) { exists k :: 0 <= k < |listing| && listing[k].id == c }

  ghost predicate IsRunning(listing: seq<Listed>, c: string) {
    exists k :: 0 <= k < |listing| && listing[k].id == c && listing[k].state == "running"
  }

  /** In the whole run exactly the listed containers that are no longer present were removed, and
      exactly the running ones still present (or without an ID) were started in pouch. */
  ghost predicate SwitchedOver(es: seq<Event>, listing: seq<Listed>, present: seq<string>) {
    && (forall c :: RemovedIn(es, c) <==> IsListed(listing, c) && c !in present)
    && (forall c :: StartedIn(es, c) <==> IsRunning(listing, c) && (c in present || c == ""))
  }

  lemma FinishedSwitchesOver(log: Log, t: Trace, listing: seq<Listed>, present: seq<string>)
    requires FinishedAsPlanned(true, log, t, listing, Some(present))
    ensures SwitchedOver(Events(log), listing, present)
  {
    var survivors := Survivors(Running(listing), present);
    NoneFinishedPreparing(t.prepared, listing);
    NoneFinishedMigrating(t.prepared, t.migrated, Running(listing), Mappings(listing));
    RunFinishes(t.migrated, log, t.deleted, survivors);
    SwitchOverMeans(Events(log), t.deleted, survivors, listing, present);
  }

  lemma SwitchOverMeans(es: seq<Event>, deleted: seq<string>, survivors: seq<string>, listing: seq<Listed>,
                        present: seq<string>)
    requires Finishes(es, deleted, survivors) && survivors == Survivors(Running(listing), present)
    requires forall c :: c in deleted <==> c in Ids(listing) && c !in present
    ensures SwitchedOver(es, listing, present)
  {
    SurvivorsArePresent(Running(listing), present);
    forall c
      ensures RemovedIn(es, c) <==> IsListed(listing, c) && c !in present
      ensures StartedIn(es, c) <==> IsRunning(listing, c) && (c in present || c == "")
    {
      IdsMean(listing, c);
      RunningMean(listing, c);
    }
  }

  /** Which containers a failed migration leaves running, where `failed` and `end` are the
      states before and after the revert.  Without an I/O failure it comes to its restarts
      exactly when there is no mapping at all, or Migrate was stopped in the last one after
      moving something; otherwise no container is started again. */
  ghost predicate RevertedAsFarAs(failed: State, end: State, log: Log, t: Trace, running: seq<string>,
                                  ms: seq<Mapping>) {
    && LastTold(t.migrated, failed.fs, ms)
    && (!Interrupted(log) ==> (t.returned <==> ms == [] || LeftInPart(t.migrated, ms[|ms| - 1])))
    && (!t.returned ==> !t.restarted && end.up == failed.up)
    && (t.restarted ==> forall c :: c in running ==> c in end.up)
  }

  /** Nothing but a failing command keeps the run from being prepared. */
  ghost predicate CommandsDecide(environmentOk: bool, listing: Option<seq<Listed>>, volumesOk: bool) {
    && environmentOk && listing.Some?
    && (listing.value == [] || volumesOk) && AllPreparable(listing.value)
  }

  /** One run with arbitrary outcomes of every external command.  `listing` and `relisting`
      are the two container listings. */
  method Run(host: Host, environmentOk: bool, migrateAll: bool,
             listing: Option<seq<Listed>>, volumesOk: bool, relisting: Option<seq<string>>)
    returns (outcome: Outcome, ghost trace: Trace)
    requires host.Valid() && host.log == Empty
    requires Separate(Mappings(Listing(listing))) && Fresh(host.state.fs, Mappings(Listing(listing)))
    modifies host
    ensures host.Valid()
    ensures Safe(host.start, host.log, Running(Listing(listing)), Mappings(Listing(listing)), CourseOf(outcome))
    ensures forall p :: Prefix(p, host.log) ==>
              AllConserved(host.start.fs, Replay(host.start, p).fs, Mappings(Listing(listing)))
    ensures outcome.NotPrepared? && CommandsDecide(environmentOk, listing, volumesOk) ==>
              Ran(Empty, host.log, PreparePlan(listing.value), false) && !host.log.last.StoreVolumes?
    ensures !outcome.NotPrepared? ==>
              && CommandsDecide(environmentOk, listing, volumesOk) && (outcome.OnlyPrepared? <==> !migrateAll)
              && AsPlanned(outcome, host.log, trace, listing.value, relisting)
    ensures outcome.NotPrepared? || outcome.OnlyPrepared? ==> host.state == host.start
    ensures outcome.MigrationFailed? ==>
              RevertedAsFarAs(Replay(host.start, trace.migrated), host.state, host.log, trace,
                              Running(Listing(listing)), Mappings(Listing(listing)))
    ensures outcome.MigrationFailed? && !Interrupted(host.log) ==>
              AllRestored(host.start.fs, host.state.fs, Mappings(Listing(listing)))
    ensures outcome.PostFailed? || outcome.Finished? ==>
              && AllMigrated(host.start.fs, host.state.fs, Mappings(Listing(listing)))
              && WholeUnlessHidden(host.start.fs, host.state.fs, Mappings(Listing(listing)))
    ensures outcome.Finished? ==> SwitchedOver(Events(host.log), listing.value, relisting.value)
    ensures outcome.Finished? ==>
              forall c :: c in Survivors(Running(listing.value), relisting.value) ==> c in host.state.pouchUp
  {
    var migrator := new ColdMigrator();
    outcome, trace := Phases(host, migrator, environmentOk, migrateAll, listing, volumesOk, relisting);
    Conclude(host.start, host.log, Running(Listing(listing)), Mappings(Listing(listing)), CourseOf(outcome));
    assert host.state == Replay(host.start, host.log);
  }

  /** The phases in their order. */
  method Phases(host: Host, migrator: ColdMigrator, environmentOk: bool, migrateAll: bool,
                listing: Option<seq<Listed>>, volumesOk: bool, relisting: Option<seq<string>>)
    returns (outcome: Outcome, ghost trace: Trace)
    requires host.Valid() && host.log == Empty && migrator.Blank()
    requires Separate(Mappings(Listing(listing))) && Fresh(host.state.fs, Mappings(Listing(listing)))
    modifies host, migrator
    ensures host.Valid()
    ensures Safe(host.start, host.log, Running(Listing(listing)), Mappings(Listing(listing)), CourseOf(outcome))
    ensures outcome.NotPrepared? && CommandsDecide(environmentOk, listing, volumesOk) ==>
              Ran(Empty, host.log, PreparePlan(listing.value), false) && !host.log.last.StoreVolumes?
    ensures !outcome.NotPrepared? ==>
              && CommandsDecide(environmentOk, listing, volumesOk) && (outcome.OnlyPrepared? <==> !migrateAll)
              && AsPlanned(outcome, host.log, trace, listing.value, relisting)
    ensures outcome.NotPrepared? || outcome.OnlyPrepared? ==> host.state == host.start
    ensures outcome.MigrationFailed? ==>
              RevertedAsFarAs(Replay(host.start, trace.migrated), host.state, host.log, trace,
                              Running(Listing(listing)), Mappings(Listing(listing)))
    ensures outcome.MigrationFailed? && !Interrupted(host.log) ==>
              NothingMoved(host.state.fs, Mappings(Listing(listing)))
    ensures outcome.PostFailed? || outcome.Finished? ==> AllEmptied(host.state.fs, Mappings(Listing(listing)))
    ensures outcome.Finished? ==> SwitchedOver(Events(host.log), listing.value, relisting.value)
    ensures outcome.Finished? ==>
              forall c :: c in Survivors(Running(listing.value), relisting.value) ==> c in host.state.pouchUp
  {
    trace := Trace(Empty, Empty, false, false, []);
    outcome := NotPrepared;
    var prepared := Prepare(host, migrator, environmentOk, listing, volumesOk);
    if prepared {
      outcome := OnlyPrepared;
      trace := trace.(prepared := host.log);
      if migrateAll {
        outcome, trace := MigrateAndAfter(host, migrator, listing.value, relisting);
      }
    }
  }

  /** Everything up to and including PreMigrate. */
  method Prepare(host: Host, migrator: ColdMigrator, environmentOk: bool, listing: Option<seq<Listed>>, volumesOk: bool)
    returns (prepared: bool)
    requires host.Valid() && host.log == Empty && migrator.Blank()
    modifies host, migrator
    ensures host.Valid() && host.state == host.start
    ensures Safe(host.start, host.log, Running(Listing(listing)), Mappings(Listing(listing)), ForwardOnly)
    ensures prepared ==>
              && CommandsDecide(environmentOk, listing, volumesOk) && Prepared(host.log, listing.value)
              && migrator.Consistent() && migrator.Recorded(listing.value)
    ensures !prepared && CommandsDecide(environmentOk, listing, volumesOk) ==>
              Ran(Empty, host.log, PreparePlan(listing.value), false) && !host.log.last.StoreVolumes?
  {
    prepared := false;
    if environmentOk {
      prepared := migrator.PreMigrate(host, listing, volumesOk);
    }
    PreparationIsSafe(host.start, host.log, Running(Listing(listing)), Mappings(Listing(listing)));
  }

  /** Pairs are conserved throughout, hence restored or migrated once one side is empty. */
  lemma Conclude(start: State, log: Log, running: seq<string>, ms: seq<Mapping>, course: Course)
    requires Separate(ms) && Fresh(start.fs, ms) && Legal(start, log) && Safe(start, log, running, ms, course)
    ensures forall p :: Prefix(p, log) ==> AllConserved(start.fs, Replay(start, p).fs, ms)
    ensures NothingMoved(Replay(start, log).fs, ms) ==> AllRestored(start.fs, Replay(start, log).fs, ms)
    ensures AllEmptied(Replay(start, log).fs, ms) ==>
              AllMigrated(start.fs, Replay(start, log).fs, ms) && WholeUnlessHidden(start.fs, Replay(start, log).fs, ms)
  {
    forall p | Prefix(p, log)
      ensures AllConserved(start.fs, Replay(start, p).fs, ms)
    {
      ConservedThroughout(start, log, running, ms, course, p);
    }
    ConservedThroughout(start, log, running, ms, course, log);
    Settled(start.fs, Replay(start, log).fs, ms);
  }

  lemma Settled(fs0: Fs, fs: Fs, ms: seq<Mapping>)
    requires AllConserved(fs0, fs, ms)
    ensures NothingMoved(fs, ms) ==> AllRestored(fs0, fs, ms)
    ensures AllEmptied(fs, ms) ==> AllMigrated(fs0, fs, ms) && WholeUnlessHidden(fs0, fs, ms)
  {
    forall i | 0 <= i < |ms|
      ensures VisibleNames(At(fs, ms[i].dst)) == {} ==> Restored(fs0, fs, ms[i])
      ensures Emptied(fs, ms[i]) ==> Migrated(fs0, fs, ms[i])
      ensures Emptied(fs, ms[i]) ==> (ArrivedWhole(fs0, fs, ms[i]) <==> HiddenPart(At(fs0, ms[i].src)) == map[])
    {
      if VisibleNames(At(fs, ms[i].dst)) == {} {
        ConservedAndEmptyIsRestored(fs0, fs, ms[i]);
      } else if Emptied(fs, ms[i]) {
        ConservedAndMovedIsMigrated(fs0, fs, ms[i]);
        WholeExactlyWithoutHidden(fs0, fs, ms[i]);
      }
    }
  }

  /** The part of a run that touches container data. */
  method MigrateAndAfter(host: Host, migrator: ColdMigrator, listing: seq<Listed>, relisting: Option<seq<string>>)
    returns (outcome: Outcome, ghost trace: Trace)
    requires migrator.SafeSoFar(host, ForwardOnly) && migrator.Consistent() && migrator.Recorded(listing)
    requires Prepared(host.log, listing)
    requires Separate(migrator.upperDirMappingList) && Fresh(host.state.fs, migrator.upperDirMappingList)
    modifies host, migrator`allContainers
    ensures migrator.SafeSoFar(host, CourseOf(outcome)) && !outcome.NotPrepared? && !outcome.OnlyPrepared?
    ensures AsPlanned(outcome, host.log, trace, listing, relisting)
    ensures outcome.MigrationFailed? ==>
              RevertedAsFarAs(Replay(host.start, trace.migrated), host.state, host.log, trace,
                              migrator.runningContainers, migrator.upperDirMappingList)
    ensures outcome.MigrationFailed? && !Interrupted(host.log) ==>
              NothingMoved(host.state.fs, migrator.upperDirMappingList)
    ensures outcome.PostFailed? || outcome.Finished? ==> AllEmptied(host.state.fs, migrator.upperDirMappingList)
    ensures outcome.Finished? ==>
              && relisting.Some? && SwitchedOver(Events(host.log), listing, relisting.value)
              && forall c :: c in Survivors(migrator.runningContainers, relisting.value) ==> c in host.state.pouchUp
  {
    ghost var prepared := host.log;
    var migrated, k := migrator.Migrate(host);
    if migrated {
      var ok;
      ok, trace := FinishMigrated(host, migrator, listing, relisting, Trace(prepared, host.log, false, false, []));
      outcome := if ok then Finished else PostFailed;
    } else {
      trace := RevertFailed(host, migrator, k, Trace(prepared, host.log, false, false, []));
      outcome := MigrationFailed;
    }
  }

  /** PostMigrate, after a Migrate that ended at `t.migrated`. */
  method FinishMigrated(host: Host, migrator: ColdMigrator, listing: seq<Listed>, relisting: Option<seq<string>>,
                        ghost t: Trace)
    returns (ok: bool, ghost trace: Trace)
    requires migrator.SafeSoFar(host, ForwardOnly) && AllEmptied(host.state.fs, migrator.upperDirMappingList)
    requires migrator.Consistent() && migrator.Recorded(listing) && t.migrated == host.log
    requires Prepared(t.prepared, listing)
    requires Ran(t.prepared, t.migrated, MigratePlan(Running(listing), Mappings(listing)), true)
    modifies host, migrator`allContainers
    ensures migrator.SafeSoFar(host, Finish) && AllEmptied(host.state.fs, migrator.upperDirMappingList)
    ensures AsPlanned(if ok then Finished else PostFailed, host.log, trace, listing, relisting)
    ensures ok ==> relisting.Some? && SwitchedOver(Events(host.log), listing, relisting.value)
    ensures ok ==> forall c :: c in Survivors(migrator.runningContainers, relisting.value) ==> c in host.state.pouchUp
  {
    ghost var deleted;
    ok, deleted := migrator.PostMigrate(host, relisting);
    trace := t.(deleted := deleted);
    if ok {
      FinishedSwitchesOver(host.log, trace, listing, relisting.value);
    }
  }

  /** The deferred revert, after Migrate failed at mapping `k`. */
  method RevertFailed(host: Host, migrator: ColdMigrator, ghost k: nat, ghost t: Trace) returns (ghost trace: Trace)
    requires migrator.SafeSoFar(host, ForwardOnly) && t.migrated == host.log
    requires Separate(migrator.upperDirMappingList) && Frontier(host.state.fs, migrator.upperDirMappingList, k)
    requires Quiet(host.state, migrator.runningContainers) || NothingMoved(host.state.fs, migrator.upperDirMappingList)
    requires LastTold(host.log, host.state.fs, migrator.upperDirMappingList)
    modifies host
    ensures migrator.SafeSoFar(host, Revert)
    ensures trace == t.(returned := trace.returned, restarted := trace.restarted)
    ensures var plan := RevertPlan(migrator.runningContainers, migrator.upperDirMappingList);
            Ran(trace.migrated, host.log, plan, trace.restarted)
    ensures RevertRan(trace.migrated, host.log, migrator.runningContainers, migrator.upperDirMappingList,
                      trace.returned, trace.restarted)
    ensures RevertedAsFarAs(old(host.state), host.state, host.log, trace,
                            migrator.runningContainers, migrator.upperDirMappingList)
    ensures !Interrupted(host.log) ==> NothingMoved(host.state.fs, migrator.upperDirMappingList)
  {
    RestartsNeedLastMapping(host.state.fs, migrator.upperDirMappingList, k);
    var restarted, returned := migrator.RevertMigration(host, k);
    trace := t.(returned := returned, restarted := restarted);
  }
}
