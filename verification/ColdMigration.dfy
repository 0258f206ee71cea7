/** The cold migrator (migrator/cold_migrate.go). */
module ColdMigration {
  import opened Options
  import opened SliceUtils
  import opened Overlay
  import opened Hosts
  import opened MigrationPlan
  import opened MigrationProgress
  import opened MigrationEvents

  class ColdMigrator {
    var allContainers: map<string, bool>
    var runningContainers: seq<string>
    var images: set<string>
    var upperDirMappingList: seq<Mapping>

    constructor ()
      ensures Blank()
    {
      allContainers, runningContainers, images, upperDirMappingList := map[], [], {}, [];
    }

    ghost predicate Blank()
      reads this
    {
      allContainers == map[] && runningContainers == [] && images == {} && upperDirMappingList == []
    }

    /** The books after recording the containers `cs`. */
    ghost predicate Recorded(cs: seq<Listed>)
      reads this
    {
      && allContainers.Keys == Ids(cs) && NonePresent()
      && runningContainers == Running(cs)
      && upperDirMappingList == Mappings(cs) && |upperDirMappingList| == |cs|
    }

    ghost predicate NonePresent()
      reads this
    {
      forall c :: c in allContainers ==> !allContainers[c]
    }

    /** Running containers are among the recorded ones. */
    ghost predicate Consistent()
      reads this
    {
      forall c :: c in runningContainers ==> c in allContainers
    }

    /** The host's log so far fits the recorded containers and directories. */
    ghost predicate SafeSoFar(host: Host, course: Course)
      reads this, host
    {
      host.Valid() && Safe(host.start, host.log, runningContainers, upperDirMappingList, course)
    }

    /** One command that either succeeds or fails. */
    method Issue(host: Host, yes: Event, no: Event, ghost course: Course) returns (ok: bool)
      requires SafeSoFar(host, course) && Command(yes) == yes == Command(no) && !Fails(yes)
      requires !yes.Stop? && !yes.Touch? && !yes.Move? && (yes.DockerStart? ==> course == Revert)
      requires Finishing(yes) ==> course == Finish && AllEmptied(host.state.fs, upperDirMappingList)
      modifies host
      ensures SafeSoFar(host, course) && host.state == Apply(old(host.state), if ok then yes else no)
      ensures Ran(old(host.log), host.log, [yes], ok || !Fails(no)) && !Interrupted(host.log)
    {
      ok := host.Try(yes, no);
      RanOne(old(host.log), host.log.last);
    }

    // ---- PreMigrate -----------------------------------------------------------------------

    method IssuePreparing(host: Host, yes: Event, no: Event) returns (ok: bool)
      requires host.Valid() && OnlyPreparing(host.log) && Command(yes) == yes == Command(no) && !Fails(yes) && Fails(no)
      requires yes.Pull? || yes.StoreVolumes? || yes.StoreSandboxes?
      modifies host
      ensures host.Valid() && OnlyPreparing(host.log)
      ensures Ran(old(host.log), host.log, [yes], ok) && host.log.Then? && host.log.last == if ok then yes else no
    {
      ok := host.Try(yes, no);
      RanOne(old(host.log), host.log.last);
    }

    /** The image part and the outcome of doPrepare: pull each image once, then hand back
        the new upper directory.  `used` are the images of the containers prepared before. */
    method DoPrepare(host: Host, c: Inspected, snapshot: Option<Path>, ghost used: seq<string>)
        returns (dst: Option<Path>)
      requires host.Valid() && OnlyPreparing(host.log) && forall x :: x in images <==> x in used
      modifies this`images, host
      ensures host.Valid() && OnlyPreparing(host.log) && forall x :: x in images <==> x in used + [c.image]
      ensures dst.Some? ==> dst == snapshot && dst.value != "" && Carried(old(host.log), host.log, PullFor(used, c))
      ensures dst.None? && snapshot.Some? && snapshot.value != "" ==>
                Ran(old(host.log), host.log, PullFor(used, c), false) && !host.log.last.StoreVolumes?
    {
      var imageExist := c.image in images;
      images := images + {c.image};
      var snapshotter := "overlayfs";
      if c.driver == "overlay" {
        snapshotter := "overlay1fs";
      }
      if !imageExist {
        var pulled := IssuePreparing(host, Pull(c.image, snapshotter, true), Pull(c.image, snapshotter, false));
        if !pulled {
          return None;
        }
      }
      if snapshot.None? || snapshot.value == "" {
        return None;
      }
      return snapshot;
    }

    /** What PreMigrate does for one container; the books are kept even when it fails. */
    method PrepareContainer(host: Host, c: Listed, ghost used: seq<string>) returns (ok: bool)
      requires host.Valid() && OnlyPreparing(host.log) && Consistent() && forall x :: x in images <==> x in used
      modifies this, host
      ensures host.Valid() && OnlyPreparing(host.log) && Consistent()
      ensures allContainers == old(allContainers)[c.id := false]
      ensures runningContainers == old(runningContainers) + if c.state == "running" then [c.id] else []
      ensures ok ==> Preparable(c) && Carried(old(host.log), host.log, PullFor(used, c.inspected.value))
      ensures ok ==>
                var m := Mapping(c.inspected.value.upperDir, c.snapshot.value);
                upperDirMappingList == old(upperDirMappingList) + [m]
      ensures ok ==> forall x :: x in images <==> x in used + [c.inspected.value.image]
      ensures !ok && Preparable(c) ==>
                Ran(old(host.log), host.log, PullFor(used, c.inspected.value), false) && !host.log.last.StoreVolumes?
    {
      allContainers := allContainers[c.id := false];
      if c.state == "running" {
        runningContainers := runningContainers + [c.id];
      }
      if c.inspected.None? {
        return false;
      }
      var dst := DoPrepare(host, c.inspected.value, c.snapshot, used);
      if dst.None? {
        return false;
      }
      upperDirMappingList := upperDirMappingList + [Mapping(c.inspected.value.upperDir, dst.value)];
      return c.saved;
    }

    /** The loop of PreMigrate over all listed containers. */
    method PrepareContainers(host: Host, containers: seq<Listed>) returns (ok: bool)
      requires host.Valid() && host.log == Empty && Blank()
      modifies this, host
      ensures host.Valid() && OnlyPreparing(host.log) && Consistent()
      ensures ok ==> Recorded(containers) && Carried(Empty, host.log, Pulls(containers))
      ensures ok ==> AllPreparable(containers)
      ensures !ok && AllPreparable(containers) ==>
                Ran(Empty, host.log, Pulls(containers), false) && !host.log.last.StoreVolumes?
    {
      for i := 0 to |containers|
        invariant host.Valid() && OnlyPreparing(host.log) && Consistent() && Recorded(containers[..i])
        invariant forall x :: x in images <==> x in ImageNames(containers[..i])
        invariant Carried(Empty, host.log, Pulls(containers[..i]))
        invariant forall j :: 0 <= j < i ==> Preparable(containers[j])
      {
        ok := PrepareNext(host, containers, i);
        if !ok {
          return;
        }
      }
      assert containers[..|containers|] == containers;
      ok := true;
    }

    method PrepareNext(host: Host, containers: seq<Listed>, i: nat) returns (ok: bool)
      requires i < |containers| && host.Valid() && OnlyPreparing(host.log) && Consistent() && Recorded(containers[..i])
      requires Carried(Empty, host.log, Pulls(containers[..i]))
      requires forall x :: x in images <==> x in ImageNames(containers[..i])
      modifies this, host
      ensures host.Valid() && OnlyPreparing(host.log) && Consistent()
      ensures ok ==> Recorded(containers[..i + 1]) && Carried(Empty, host.log, Pulls(containers[..i + 1]))
      ensures ok ==> Preparable(containers[i]) && forall x :: x in images <==> x in ImageNames(containers[..i + 1])
      ensures !ok && Preparable(containers[i]) ==>
                Ran(Empty, host.log, Pulls(containers), false) && !host.log.last.StoreVolumes?
    {
      ghost var before := host.log;
      var c := containers[i];
      ListingStep(containers, i);
      ok := PrepareContainer(host, c, ImageNames(containers[..i]));
      if c.inspected.Some? && Ran(before, host.log, PullFor(ImageNames(containers[..i]), c.inspected.value), ok) {
        PullsRound(before, host.log, containers, i, c.inspected.value, ok);
      }
    }

    /** PreMigrate.  A failure to store the volumes ends it early but counts as success. */
    method PreMigrate(host: Host, listing: Option<seq<Listed>>, volumesOk: bool) returns (ok: bool)
      requires host.Valid() && host.log == Empty && Blank()
      modifies this, host
      ensures host.Valid() && OnlyPreparing(host.log) && Consistent()
      ensures ok ==> listing.Some? && Recorded(listing.value) && Prepared(host.log, listing.value)
      ensures ok ==> listing.value == [] || volumesOk
      ensures ok ==> forall k :: 0 <= k < |listing.value| ==>
                var c := listing.value[k];
                c.inspected.Some? && c.snapshot.Some? && c.snapshot.value != "" && c.saved
      ensures ok ==> forall e :: e in Events(host.log) && e.Pull? ==> PullsForFirst(listing.value, e) && e.ok
      ensures ok ==> forall k :: 0 <= k < |listing.value| ==>
                exists e :: e in Events(host.log) && e.Pull? && e.image == listing.value[k].inspected.value.image
      ensures ok && listing.value != [] ==>
                host.log.Then? && host.log.last in {StoreVolumes(false), StoreSandboxes(true)}
      ensures !ok && listing.Some? && (listing.value == [] || volumesOk) && AllPreparable(listing.value) ==>
                host.log.Then? && ((host.log.last.Pull? && !host.log.last.ok) || host.log.last == StoreSandboxes(false))
      ensures !ok && listing.Some? && (listing.value == [] || volumesOk) && AllPreparable(listing.value) ==>
                && listing.value != [] && Ran(Empty, host.log, PreparePlan(listing.value), false)
                && !host.log.last.StoreVolumes?
    {
      if listing.None? {
        return false;
      }
      ok := PrepareListed(host, listing.value, volumesOk);
      if ok {
        PreparedPulls(host.log, listing.value);
      } else if (listing.value == [] || volumesOk) && AllPreparable(listing.value) {
        PrepareFailure(Empty, host.log, listing.value);
      }
    }

    /** PreMigrate once the containers are listed. */
    method PrepareListed(host: Host, containers: seq<Listed>, volumesOk: bool) returns (ok: bool)
      requires host.Valid() && host.log == Empty && Blank()
      modifies this, host
      ensures host.Valid() && OnlyPreparing(host.log) && Consistent()
      ensures ok ==> Recorded(containers) && Prepared(host.log, containers)
      ensures ok ==> (containers == [] || volumesOk) && AllPreparable(containers)
      ensures !ok && (containers == [] || volumesOk) && AllPreparable(containers) ==>
                && containers != [] && Ran(Empty, host.log, PreparePlan(containers), false)
                && !host.log.last.StoreVolumes?
    {
      if |containers| == 0 {
        return true;
      }
      if !volumesOk {
        return false;
      }
      ok := PrepareContainers(host, containers);
      if ok {
        ok := StoreRecords(host, containers);
      } else if Ran(Empty, host.log, Pulls(containers), false) {
        FailedLonger(Empty, host.log, Pulls(containers), PreparePlan(containers));
      }
    }

    /** The end of PreMigrate: the volumes and the sandbox records are stored. */
    method StoreRecords(host: Host, ghost containers: seq<Listed>) returns (ok: bool)
      requires host.Valid() && OnlyPreparing(host.log) && containers != []
      requires Carried(Empty, host.log, Pulls(containers))
      modifies host
      ensures host.Valid() && OnlyPreparing(host.log)
      ensures ok ==> Prepared(host.log, containers)
      ensures !ok ==> Ran(Empty, host.log, PreparePlan(containers), false) && !host.log.last.StoreVolumes?
    {
      ghost var pulls, pulled := Pulls(containers), host.log;
      var stored := IssuePreparing(host, StoreVolumes(true), StoreVolumes(false));
      ghost var after := host.log;
      RanThen(Empty, pulled, after, pulls, [StoreVolumes(true)], stored);
      if !stored {
        FailedLonger(Empty, host.log, pulls + [StoreVolumes(true)], PreparePlan(containers));
        return true;
      }
      ok := IssuePreparing(host, StoreSandboxes(true), StoreSandboxes(false));
      RanThen(Empty, after, host.log, pulls + [StoreVolumes(true)], [StoreSandboxes(true)], ok);
      assert PreparePlan(containers) == pulls + [StoreVolumes(true)] + [StoreSandboxes(true)];
    }

    // ---- Migrate --------------------------------------------------------------------------

    /** Stops every recorded running container, then moves the directories one by one.
        On failure `k` is the mapping it stopped at. */
    method Migrate(host: Host) returns (ok: bool, ghost k: nat)
      requires SafeSoFar(host, ForwardOnly)
      requires Separate(upperDirMappingList) && Fresh(host.state.fs, upperDirMappingList)
      modifies host
      ensures SafeSoFar(host, ForwardOnly)
      ensures Ran(old(host.log), host.log, MigratePlan(runningContainers, upperDirMappingList), ok)
      ensures ok ==> Quiet(host.state, runningContainers) && AllEmptied(host.state.fs, upperDirMappingList)
      ensures !ok ==> Frontier(host.state.fs, upperDirMappingList, k) && (k < |upperDirMappingList| || k == 0)
      ensures !ok ==> Quiet(host.state, runningContainers) || NothingMoved(host.state.fs, upperDirMappingList)
      ensures !ok ==> LastTold(host.log, host.state.fs, upperDirMappingList)
      ensures !ok ==>
                || host.log.last == CopyNetworkFile(false)
                || (host.log.last.Stop? && host.log.last.stopped.StopFailed?)
                || (host.log.last.Move? && !host.log.last.moved.Completed?)
    {
      ok, k := StopAndMove(host);
      if !ok {
        MigrateFailure(old(host.log), host.log, runningContainers, upperDirMappingList);
      }
    }

    /** Migrate up to the account of how it failed. */
    method StopAndMove(host: Host) returns (ok: bool, ghost k: nat)
      requires SafeSoFar(host, ForwardOnly)
      requires Separate(upperDirMappingList) && Fresh(host.state.fs, upperDirMappingList)
      modifies host
      ensures SafeSoFar(host, ForwardOnly)
      ensures Ran(old(host.log), host.log, MigratePlan(runningContainers, upperDirMappingList), ok)
      ensures ok ==> Quiet(host.state, runningContainers) && AllEmptied(host.state.fs, upperDirMappingList)
      ensures !ok ==> Frontier(host.state.fs, upperDirMappingList, k) && (k < |upperDirMappingList| || k == 0)
      ensures !ok ==> Quiet(host.state, runningContainers) || NothingMoved(host.state.fs, upperDirMappingList)
      ensures !ok ==> LastTold(host.log, host.state.fs, upperDirMappingList)
    {
      k := 0;
      MoveBegins(host.state.fs, upperDirMappingList);
      ghost var copy := [CopyNetworkFile(true)];
      ghost var stops, moves := Each(runningContainers, StopOne), Each(upperDirMappingList, MoveOne);
      ok := Issue(host, CopyNetworkFile(true), CopyNetworkFile(false), ForwardOnly);
      ghost var copied := host.log;
      if !ok {
        FailedLonger(old(host.log), host.log, copy, copy + stops + moves);
        return;
      }
      ok := StopAll(host);
      ghost var stopped := host.log;
      RanThen(old(host.log), copied, stopped, copy, stops, ok);
      if !ok {
        FailedLonger(old(host.log), host.log, copy + stops, copy + stops + moves);
        return;
      }
      ok, k := MoveAll(host);
      RanThen(old(host.log), stopped, host.log, copy + stops, moves, ok);
    }

    method StopAll(host: Host) returns (ok: bool)
      requires SafeSoFar(host, ForwardOnly)
      modifies host
      ensures SafeSoFar(host, ForwardOnly) && Ran(old(host.log), host.log, Each(runningContainers, StopOne), ok)
      ensures host.state.fs == old(host.state.fs)
      ensures if ok then Quiet(host.state, runningContainers) else !Interrupted(host.log)
    {
      for i := 0 to |runningContainers|
        invariant SafeSoFar(host, ForwardOnly)
        invariant Carried(old(host.log), host.log, Each(runningContainers[..i], StopOne))
        invariant host.state.fs == old(host.state.fs) && Quiet(host.state, runningContainers[..i])
      {
        ghost var before := host.log;
        ok := Stop(host, runningContainers[i]);
        Round(old(host.log), before, host.log, runningContainers, StopOne, i, ok);
        if !ok {
          return;
        }
      }
      assert runningContainers[..|runningContainers|] == runningContainers;
      ok := true;
    }

    /** A container that does not exist counts as stopped. */
    method Stop(host: Host, id: string) returns (ok: bool)
      requires SafeSoFar(host, ForwardOnly)
      modifies host
      ensures SafeSoFar(host, ForwardOnly) && Ran(old(host.log), host.log, StopOne(id), ok)
      ensures host.state.fs == old(host.state.fs) && host.state.up <= old(host.state.up)
      ensures ok ==> id !in host.state.up
      ensures !Interrupted(host.log)
    {
      var outcome := host.StopContainer(id);
      RanOne(old(host.log), host.log.last);
      ok := !outcome.StopFailed?;
    }

    method MoveAll(host: Host) returns (ok: bool, ghost k: nat)
      requires SafeSoFar(host, ForwardOnly) && Quiet(host.state, runningContainers)
      requires Separate(upperDirMappingList) && Fresh(host.state.fs, upperDirMappingList)
      modifies host
      ensures SafeSoFar(host, ForwardOnly) && Ran(old(host.log), host.log, Each(upperDirMappingList, MoveOne), ok)
      ensures Quiet(host.state, runningContainers)
      ensures ok ==> AllEmptied(host.state.fs, upperDirMappingList)
      ensures !ok ==> k < |upperDirMappingList| && Frontier(host.state.fs, upperDirMappingList, k)
      ensures !ok ==> LastTold(host.log, host.state.fs, upperDirMappingList)
    {
      k := 0;
      MoveBegins(host.state.fs, upperDirMappingList);
      for i := 0 to |upperDirMappingList|
        invariant SafeSoFar(host, ForwardOnly)
        invariant Carried(old(host.log), host.log, Each(upperDirMappingList[..i], MoveOne))
        invariant Quiet(host.state, runningContainers) && MovedUpTo(host.state.fs, upperDirMappingList, i)
      {
        ghost var before := host.log;
        ok := MoveUpperDir(host, i);
        Round(old(host.log), before, host.log, upperDirMappingList, MoveOne, i, ok);
        if !ok {
          k := i;
          FailureTold(host.log, host.state.fs, upperDirMappingList, i);
          return;
        }
      }
      assert upperDirMappingList[..|upperDirMappingList|] == upperDirMappingList;
      MoveEnds(host.state.fs, upperDirMappingList);
      ok := true;
    }

    /** One round of the loop: mark the old directory, then move its visible entries. */
    method MoveUpperDir(host: Host, i: nat) returns (ok: bool)
      requires SafeSoFar(host, ForwardOnly)
      requires i < |upperDirMappingList| && Separate(upperDirMappingList)
      requires Quiet(host.state, runningContainers) && MovedUpTo(host.state.fs, upperDirMappingList, i)
      modifies host
      ensures SafeSoFar(host, ForwardOnly) && Ran(old(host.log), host.log, MoveOne(upperDirMappingList[i]), ok)
      ensures host.state.up == old(host.state.up)
      ensures if ok then MovedUpTo(host.state.fs, upperDirMappingList, i + 1)
                else Frontier(host.state.fs, upperDirMappingList, i)
      ensures !ok ==> FailedMoving(host.log, host.state.fs, upperDirMappingList[i])
    {
      var m := upperDirMappingList[i];
      MarkSource(host, i);
      ghost var marked := host.log;
      ok := MoveVisible(host, i);
      RanThen(old(host.log), marked, host.log, [Touch(m.src, true)], [Move(m.src, m.dst, Completed)], ok);
      assert MoveOne(m) == [Touch(m.src, true)] + [Move(m.src, m.dst, Completed)];
    }

    method MoveVisible(host: Host, i: nat) returns (ok: bool)
      requires SafeSoFar(host, ForwardOnly)
      requires i < |upperDirMappingList| && Separate(upperDirMappingList)
      requires Quiet(host.state, runningContainers) && MovedUpTo(host.state.fs, upperDirMappingList, i)
      modifies host
      ensures SafeSoFar(host, ForwardOnly)
      ensures var m := upperDirMappingList[i];
              Ran(old(host.log), host.log, [Move(m.src, m.dst, Completed)], ok)
      ensures host.state.up == old(host.state.up)
      ensures if ok then MovedUpTo(host.state.fs, upperDirMappingList, i + 1)
                else Frontier(host.state.fs, upperDirMappingList, i)
      ensures !ok ==> FailedMoving(host.log, host.state.fs, upperDirMappingList[i])
    {
      var m := upperDirMappingList[i];
      ghost var o;
      ok, o := host.MoveDir(m.src, m.dst);
      assert IsForward(Move(m.src, m.dst, o), upperDirMappingList[i]);
      MoveStep(old(host.state.fs), upperDirMappingList, i, o);
      if !ok {
        FailedMove(old(host.state.fs), m, o);
      }
      RanOne(old(host.log), host.log.last);
    }

    method MarkSource(host: Host, i: nat)
      requires SafeSoFar(host, ForwardOnly)
      requires i < |upperDirMappingList| && Separate(upperDirMappingList)
      requires Quiet(host.state, runningContainers) && MovedUpTo(host.state.fs, upperDirMappingList, i)
      modifies host
      ensures SafeSoFar(host, ForwardOnly)
      ensures Carried(old(host.log), host.log, [Touch(upperDirMappingList[i].src, true)])
      ensures host.state.up == old(host.state.up) && MovedUpTo(host.state.fs, upperDirMappingList, i)
    {
      TouchStep(host.state.fs, upperDirMappingList, i, true);
      TouchStep(host.state.fs, upperDirMappingList, i, false);
      var _ := host.TouchMarker(upperDirMappingList[i].src);
      RanOne(old(host.log), host.log.last);
    }

    // ---- RevertMigration --------------------------------------------------------------------

    /** Moves everything back in order and restarts the containers; gives up at the first
        directory that cannot be moved.  `reached` tells whether it came to the restarts. */
    method RevertMigration(host: Host, ghost k: nat) returns (ok: bool, reached: bool)
      requires SafeSoFar(host, ForwardOnly)
      requires Separate(upperDirMappingList) && "" !in host.state.fs
      requires Quiet(host.state, runningContainers) || NothingMoved(host.state.fs, upperDirMappingList)
      modifies host
      ensures SafeSoFar(host, Revert)
      ensures Ran(old(host.log), host.log, RevertPlan(runningContainers, upperDirMappingList), ok)
      ensures RevertRan(old(host.log), host.log, runningContainers, upperDirMappingList, reached, ok)
      ensures reached ==>
                && AllReturnable(old(host.state.fs), upperDirMappingList)
                && NothingMoved(host.state.fs, upperDirMappingList)
      ensures !reached && !Interrupted(host.log) ==> !AllReturnable(old(host.state.fs), upperDirMappingList)
      ensures !reached && !Interrupted(host.log) && Frontier(old(host.state.fs), upperDirMappingList, k) ==>
                NothingMoved(host.state.fs, upperDirMappingList)
      ensures !reached ==> !ok && host.state.up == old(host.state.up)
      ensures ok ==> forall c :: c in runningContainers ==> c in host.state.up
      ensures !ok ==>
                || (host.log.last.Move? && !host.log.last.moved.Completed?)
                || (host.log.last.DockerStart? && !host.log.last.ok)
    {
      ok, reached := ReturnAndRestart(host, k);
      if !ok {
        RevertFailure(old(host.log), host.log, runningContainers, upperDirMappingList);
      }
    }

    /** RevertMigration up to the account of how it failed. */
    method ReturnAndRestart(host: Host, ghost k: nat) returns (ok: bool, reached: bool)
      requires SafeSoFar(host, ForwardOnly)
      requires Separate(upperDirMappingList) && "" !in host.state.fs
      requires Quiet(host.state, runningContainers) || NothingMoved(host.state.fs, upperDirMappingList)
      modifies host
      ensures SafeSoFar(host, Revert)
      ensures Ran(old(host.log), host.log, RevertPlan(runningContainers, upperDirMappingList), ok)
      ensures RevertRan(old(host.log), host.log, runningContainers, upperDirMappingList, reached, ok)
      ensures reached ==>
                && AllReturnable(old(host.state.fs), upperDirMappingList)
                && NothingMoved(host.state.fs, upperDirMappingList)
      ensures !reached && !Interrupted(host.log) ==> !AllReturnable(old(host.state.fs), upperDirMappingList)
      ensures !reached && !Interrupted(host.log) && Frontier(old(host.state.fs), upperDirMappingList, k) ==>
                NothingMoved(host.state.fs, upperDirMappingList)
      ensures !reached ==> !ok && host.state.up == old(host.state.up)
      ensures ok ==> forall c :: c in runningContainers ==> c in host.state.up
    {
      ForwardIsSafe(host.start, host.log, runningContainers, upperDirMappingList, Revert);
      reached := ReturnAll(host, k);
      ghost var before := host.log;
      ok := reached;
      if reached {
        ok := RestartAll(host);
        RanThen(old(host.log), before, host.log, Each(upperDirMappingList, ReturnOne),
                Each(runningContainers, RestartOne), ok);
      } else {
        FailedLonger(old(host.log), host.log, Each(upperDirMappingList, ReturnOne),
                     RevertPlan(runningContainers, upperDirMappingList));
      }
    }

    method ReturnAll(host: Host, ghost k: nat) returns (ok: bool)
      requires SafeSoFar(host, Revert)
      requires Separate(upperDirMappingList) && "" !in host.state.fs
      requires Quiet(host.state, runningContainers) || NothingMoved(host.state.fs, upperDirMappingList)
      modifies host
      ensures SafeSoFar(host, Revert) && Ran(old(host.log), host.log, Each(upperDirMappingList, ReturnOne), ok)
      ensures host.state.up == old(host.state.up)
      ensures ok ==>
                && AllReturnable(old(host.state.fs), upperDirMappingList)
                && NothingMoved(host.state.fs, upperDirMappingList)
      ensures !ok && !Interrupted(host.log) ==> !AllReturnable(old(host.state.fs), upperDirMappingList)
      ensures !ok && !Interrupted(host.log) && Frontier(old(host.state.fs), upperDirMappingList, k) ==>
                NothingMoved(host.state.fs, upperDirMappingList)
    {
      var ms := upperDirMappingList;
      ghost var fs0 := host.state.fs;
      for i := 0 to |ms|
        invariant SafeSoFar(host, Revert) && Carried(old(host.log), host.log, Each(ms[..i], ReturnOne))
        invariant Quiet(host.state, runningContainers) || (i == 0 && NothingMoved(host.state.fs, ms))
        invariant ReturnedUpTo(fs0, host.state.fs, ms, i) && host.state.up == old(host.state.up)
      {
        ghost var before := host.log;
        ok := ReturnUpperDir(host, i, fs0);
        Round(old(host.log), before, host.log, ms, ReturnOne, i, ok);
        if !ok {
          if !Interrupted(host.log) && Frontier(fs0, ms, k) {
            StuckMeansDone(fs0, host.state.fs, ms, i, k);
          }
          return;
        }
      }
      assert ms[..|ms|] == ms;
      ReturnEnds(fs0, host.state.fs, ms);
      ok := true;
    }

    /** One round of the revert of `fs0`: bring back what the new directory holds. */
    method ReturnUpperDir(host: Host, i: nat, ghost fs0: Fs) returns (ok: bool)
      requires SafeSoFar(host, Revert)
      requires i < |upperDirMappingList| && Separate(upperDirMappingList)
      requires ReturnedUpTo(fs0, host.state.fs, upperDirMappingList, i)
      requires Quiet(host.state, runningContainers) || (i == 0 && NothingMoved(host.state.fs, upperDirMappingList))
      modifies host
      ensures SafeSoFar(host, Revert) && Ran(old(host.log), host.log, ReturnOne(upperDirMappingList[i]), ok)
      ensures host.state.up == old(host.state.up)
      ensures ok ==>
                Quiet(host.state, runningContainers) && ReturnedUpTo(fs0, host.state.fs, upperDirMappingList, i + 1)
      ensures !ok && !Interrupted(host.log) ==>
                host.state == old(host.state) && !Returnable(fs0, upperDirMappingList[i])
    {
      var m := upperDirMappingList[i];
      ghost var o;
      ok, o := host.MoveDir(m.dst, m.src);
      ReturnStep(fs0, old(host.state.fs), upperDirMappingList, i, o);
      assert IsBackward(Move(m.dst, m.src, o), upperDirMappingList[i]);
      RanOne(old(host.log), host.log.last);
    }

    method RestartAll(host: Host) returns (ok: bool)
      requires SafeSoFar(host, Revert)
      modifies host
      ensures SafeSoFar(host, Revert) && Ran(old(host.log), host.log, Each(runningContainers, RestartOne), ok)
      ensures host.state.fs == old(host.state.fs)
      ensures ok ==> forall c :: c in runningContainers ==> c in host.state.up
    {
      for i := 0 to |runningContainers|
        invariant SafeSoFar(host, Revert) && Carried(old(host.log), host.log, Each(runningContainers[..i], RestartOne))
        invariant host.state.fs == old(host.state.fs)
        invariant forall c :: c in runningContainers[..i] ==> c in host.state.up
      {
        var c := runningContainers[i];
        ghost var before := host.log;
        ok := Issue(host, DockerStart(c, true), DockerStart(c, false), Revert);
        Round(old(host.log), before, host.log, runningContainers, RestartOne, i, ok);
        if !ok {
          return;
        }
      }
      assert runningContainers[..|runningContainers|] == runningContainers;
      ok := true;
    }

    // ---- PostMigrate --------------------------------------------------------------------------

    /** Removes what has disappeared since the first listing and starts the rest in pouch.
        `deleted` are the containers it found missing. */
    method PostMigrate(host: Host, relisting: Option<seq<string>>) returns (ok: bool, ghost deleted: seq<string>)
      requires SafeSoFar(host, ForwardOnly) && AllEmptied(host.state.fs, upperDirMappingList)
      requires Consistent() && NonePresent()
      modifies this`allContainers, host
      ensures SafeSoFar(host, Finish) && host.state.fs == old(host.state.fs)
      ensures relisting.None? ==> !ok && host.log == old(host.log)
      ensures relisting.Some? ==>
                NoRepeats(deleted) && forall c :: c in deleted <==> c in old(allContainers) && c !in relisting.value
      ensures relisting.Some? ==>
                Ran(old(host.log), host.log, FinishPlan(deleted, Survivors(runningContainers, relisting.value)), ok)
      ensures ok ==> forall c :: c in Survivors(runningContainers, relisting.value) ==> c in host.state.pouchUp
      ensures ok ==> forall c ::
                RemovedIn(Since(old(host.log), host.log), c) <==> c in old(allContainers) && c !in relisting.value
      ensures ok ==> forall c ::
                StartedIn(Since(old(host.log), host.log), c) <==>
                  c in runningContainers && (c in relisting.value || c == "")
      ensures !ok && relisting.Some? ==>
                || host.log.last in {UninstallDocker(false), InstallPouch(false), ConnectPouch(false)}
                || (host.log.last.Remove? && host.log.last.removed.RemoveFailed?)
                || (host.log.last.PouchStart? && !host.log.last.ok)
    {
      ok, deleted := CarryOut(host, relisting);
      if relisting.Some? {
        ghost var survivors := Survivors(runningContainers, relisting.value);
        if ok {
          SurvivorsArePresent(runningContainers, relisting.value);
          FinishFinishes(old(host.log), host.log, deleted, survivors);
          assert forall c :: RemovedIn(Since(old(host.log), host.log), c) <==> c in deleted;
          assert forall c :: StartedIn(Since(old(host.log), host.log), c) <==> c in survivors;
        } else {
          FinishFailure(old(host.log), host.log, deleted, survivors);
        }
      }
    }

    /** PostMigrate up to the account of what it removed and started. */
    method CarryOut(host: Host, relisting: Option<seq<string>>) returns (ok: bool, ghost deleted: seq<string>)
      requires SafeSoFar(host, ForwardOnly) && AllEmptied(host.state.fs, upperDirMappingList)
      requires Consistent() && NonePresent()
      modifies this`allContainers, host
      ensures SafeSoFar(host, Finish) && host.state.fs == old(host.state.fs)
      ensures relisting.None? ==> !ok && host.log == old(host.log)
      ensures relisting.Some? ==>
                NoRepeats(deleted) && forall c :: c in deleted <==> c in old(allContainers) && c !in relisting.value
      ensures relisting.Some? ==>
                Ran(old(host.log), host.log, FinishPlan(deleted, Survivors(runningContainers, relisting.value)), ok)
      ensures ok ==> forall c :: c in Survivors(runningContainers, relisting.value) ==> c in host.state.pouchUp
    {
      ForwardIsSafe(host.start, host.log, runningContainers, upperDirMappingList, Finish);
      deleted := [];
      if relisting.None? {
        return false, deleted;
      }
      MarkPresent(relisting.value);
      var deletedContainers := DeletedContainers();
      deleted := deletedContainers;
      ok := ReplaceDocker(host);
      ghost var replaced := host.log;
      if !ok {
        FailedLonger(old(host.log), host.log, ReplacePlan(),
                     FinishPlan(deleted, Survivors(runningContainers, relisting.value)));
        return;
      }
      ok := CleanAndStart(host, deletedContainers, relisting.value);
      RanThen(old(host.log), replaced, host.log, ReplacePlan(),
              CleanAndStartPlan(deleted, Survivors(runningContainers, relisting.value)), ok);
    }

    /** Marks the recorded containers that are still listed. */
    method MarkPresent(containers: seq<string>)
      requires NonePresent()
      modifies this`allContainers
      ensures allContainers.Keys == old(allContainers).Keys
      ensures forall c :: c in allContainers ==> (allContainers[c] <==> c in containers)
    {
      for i := 0 to |containers|
        invariant allContainers.Keys == old(allContainers).Keys
        invariant forall c :: c in allContainers ==> (allContainers[c] <==> c in containers[..i])
      {
        if containers[i] in allContainers {
          allContainers := allContainers[containers[i] := true];
        }
      }
    }

    /** The recorded containers not marked present, in whatever order the map is walked. */
    method DeletedContainers() returns (deleted: seq<string>)
      ensures forall c :: c in deleted <==> c in allContainers && !allContainers[c]
      ensures NoRepeats(deleted)
    {
      deleted := [];
      var rest := allContainers.Keys;
      while rest != {}
        invariant rest <= allContainers.Keys && NoRepeats(deleted)
        invariant forall c :: c in deleted <==> c in allContainers && c !in rest && !allContainers[c]
        decreases rest
      {
        var id :| id in rest;
        rest := rest - {id};
        if !allContainers[id] {
          deleted := deleted + [id];
        }
      }
    }

    method ReplaceDocker(host: Host) returns (ok: bool)
      requires SafeSoFar(host, Finish) && AllEmptied(host.state.fs, upperDirMappingList)
      modifies host
      ensures SafeSoFar(host, Finish) && Ran(old(host.log), host.log, ReplacePlan(), ok)
      ensures host.state == old(host.state)
    {
      ok := Issue(host, UninstallDocker(true), UninstallDocker(false), Finish);
      ghost var uninstalled := host.log;
      if !ok {
        FailedLonger(old(host.log), host.log, [UninstallDocker(true)], ReplacePlan());
        return;
      }
      ok := Issue(host, InstallPouch(true), InstallPouch(false), Finish);
      ghost var installed := host.log;
      RanThen(old(host.log), uninstalled, installed, [UninstallDocker(true)], [InstallPouch(true)], ok);
      if !ok {
        FailedLonger(old(host.log), host.log, [UninstallDocker(true)] + [InstallPouch(true)], ReplacePlan());
        return;
      }
      ok := Issue(host, ConnectPouch(true), ConnectPouch(false), Finish);
      RanThen(old(host.log), installed, host.log,
              [UninstallDocker(true)] + [InstallPouch(true)], [ConnectPouch(true)], ok);
      assert ReplacePlan() == [UninstallDocker(true)] + [InstallPouch(true)] + [ConnectPouch(true)];
    }

    method CleanAndStart(host: Host, deleted: seq<string>, present: seq<string>) returns (ok: bool)
      requires SafeSoFar(host, Finish) && AllEmptied(host.state.fs, upperDirMappingList)
      requires forall c :: c in runningContainers ==> (c in deleted <==> c !in present)
      modifies host
      ensures SafeSoFar(host, Finish) && host.state.fs == old(host.state.fs)
      ensures Ran(old(host.log), host.log, CleanAndStartPlan(deleted, Survivors(runningContainers, present)), ok)
      ensures ok ==> forall c :: c in Survivors(runningContainers, present) ==> c in host.state.pouchUp
    {
      ghost var survivors := Survivors(runningContainers, present);
      ghost var removals, starts := Each(deleted, RemoveOne), Each(survivors, StartOne);
      ok := RemoveDeleted(host, deleted);
      ghost var removed := host.log;
      if !ok {
        FailedLonger(old(host.log), host.log, removals, CleanAndStartPlan(deleted, survivors));
        return;
      }
      var _ := Issue(host, DeleteBridge(true), DeleteBridge(false), Finish);
      ghost var cleaned := host.log;
      RanThen(old(host.log), removed, cleaned, removals, [DeleteBridge(true)], true);
      ok := StartSurvivors(host, deleted, present);
      RanThen(old(host.log), cleaned, host.log, removals + [DeleteBridge(true)], starts, ok);
    }

    method RemoveDeleted(host: Host, deleted: seq<string>) returns (ok: bool)
      requires SafeSoFar(host, Finish) && AllEmptied(host.state.fs, upperDirMappingList)
      modifies host
      ensures SafeSoFar(host, Finish) && Ran(old(host.log), host.log, Each(deleted, RemoveOne), ok)
      ensures host.state == old(host.state)
    {
      for i := 0 to |deleted|
        invariant SafeSoFar(host, Finish) && Carried(old(host.log), host.log, Each(deleted[..i], RemoveOne))
        invariant host.state == old(host.state)
      {
        ghost var before := host.log;
        ok := Remove(host, deleted[i]);
        Round(old(host.log), before, host.log, deleted, RemoveOne, i, ok);
        if !ok {
          return;
        }
      }
      assert deleted[..|deleted|] == deleted;
      ok := true;
    }

    /** A container that pouch does not know either counts as removed. */
    method Remove(host: Host, id: string) returns (ok: bool)
      requires SafeSoFar(host, Finish) && AllEmptied(host.state.fs, upperDirMappingList)
      modifies host
      ensures SafeSoFar(host, Finish) && Ran(old(host.log), host.log, RemoveOne(id), ok)
      ensures host.state == old(host.state)
    {
      var outcome := host.RemoveContainer(id);
      RanOne(old(host.log), host.log.last);
      ok := !outcome.RemoveFailed?;
    }

    method Start(host: Host, id: string) returns (ok: bool)
      requires SafeSoFar(host, Finish) && AllEmptied(host.state.fs, upperDirMappingList)
      modifies host
      ensures SafeSoFar(host, Finish) && Ran(old(host.log), host.log, StartOne(id), ok)
      ensures host.state.fs == old(host.state.fs)
      ensures host.state.pouchUp == if ok then old(host.state.pouchUp) + {id} else old(host.state.pouchUp)
    {
      ok := Issue(host, PouchStart(id, true), PouchStart(id, false), Finish);
    }

    method StartSurvivors(host: Host, deleted: seq<string>, present: seq<string>) returns (ok: bool)
      requires SafeSoFar(host, Finish) && AllEmptied(host.state.fs, upperDirMappingList)
      requires forall c :: c in runningContainers ==> (c in deleted <==> c !in present)
      modifies host
      ensures SafeSoFar(host, Finish)
      ensures Ran(old(host.log), host.log, Each(Survivors(runningContainers, present), StartOne), ok)
      ensures host.state.fs == old(host.state.fs)
      ensures ok ==> forall c :: c in Survivors(runningContainers, present) ==> c in host.state.pouchUp
    {
      for i := 0 to |runningContainers|
        invariant SafeSoFar(host, Finish)
        invariant Carried(old(host.log), host.log, Each(Survivors(runningContainers[..i], present), StartOne))
        invariant host.state.fs == old(host.state.fs)
        invariant forall c :: c in Survivors(runningContainers[..i], present) ==> c in host.state.pouchUp
      {
        var c := runningContainers[i];
        SurvivorsStep(runningContainers, present, i);
        var gone := StringInSlice(deleted, c);
        if gone {
          continue;
        }
        ghost var before := host.log;
        ok := Start(host, c);
        StartRound(old(host.log), before, host.log, runningContainers, present, i, ok);
        if !ok {
          return;
        }
      }
      assert runningContainers[..|runningContainers|] == runningContainers;
      ok := true;
    }
  }

  lemma PullsRound(b: Log, c: Log, cs: seq<Listed>, i: nat, info: Inspected, ok: bool)
    requires i < |cs| && cs[i].inspected == Some(info)
    requires Carried(Empty, b, Pulls(cs[..i])) && Ran(b, c, PullFor(ImageNames(cs[..i]), info), ok)
    ensures ImageNames(cs[..i + 1]) == ImageNames(cs[..i]) + [info.image]
    ensures if ok then Carried(Empty, c, Pulls(cs[..i + 1])) else Ran(Empty, c, Pulls(cs), false)
  {
    PullsStep(cs, i);
    RanThen(Empty, b, c, Pulls(cs[..i]), PullFor(ImageNames(cs[..i]), info), ok);
    PullsPrefix(cs, i + 1);
    if !ok {
      FailedLonger(Empty, c, Pulls(cs[..i + 1]), Pulls(cs));
    }
  }

  /** One round of starting the survivors that did start a container. */
  lemma StartRound(a: Log, b: Log, c: Log, running: seq<string>, present: seq<string>, i: nat, ok: bool)
    requires i < |running| && (running[i] in present || running[i] == "")
    requires Carried(a, b, Each(Survivors(running[..i], present), StartOne)) && Ran(b, c, StartOne(running[i]), ok)
    ensures ok ==> Carried(a, c, Each(Survivors(running[..i + 1], present), StartOne))
    ensures !ok ==> Ran(a, c, Each(Survivors(running, present), StartOne), false)
  {
    var all, n := Survivors(running, present), |Survivors(running[..i], present)|;
    SurvivorsStep(running, present, i);
    SurvivorsPrefix(running, present, i + 1);
    assert all[..n + 1] == Survivors(running[..i + 1], present) && all[..n] == Survivors(running[..i], present);
    Round(a, b, c, all, StartOne, n, ok);
  }
}
