/** What PreMigrate finds, and the commands each phase of the cold migration issues. */
module MigrationPlan {
  import opened Options
  import opened SliceUtils
  import opened Overlay
  import opened Hosts

  /** What inspecting and converting a container yields. */
  datatype Inspected = Inspected(image: string, driver: string, upperDir: Path)

  /** A docker container as PreMigrate finds it.  `inspected` is missing when inspection or
      conversion fails, `snapshot` when preparing the new snapshot fails, and `saved` tells
      whether the new metadata could be written. */
  datatype Listed = Listed(id: string, state: string, inspected: Option<Inspected>, snapshot: Option<Path>, saved: bool)

  /** Nothing but a failing command keeps this container from being prepared. */
  predicate Preparable(c: Listed) { c.inspected.Some? && c.snapshot.Some? && c.snapshot.value != "" && c.saved }

  ghost predicate AllPreparable(cs: seq<Listed>) { forall i :: 0 <= i < |cs| ==> Preparable(cs[i]) }

  // ---- What a listing says --------------------------------------------------------------

  function Ids(cs: seq<Listed>): set<string> {
    if cs == [] then {} else Ids(cs[..|cs| - 1]) + {cs[|cs| - 1].id}
  }

  function Running(cs: seq<Listed>): seq<string> {
    if cs == [] then []
    else Running(cs[..|cs| - 1]) + if cs[|cs| - 1].state == "running" then [cs[|cs| - 1].id] else []
  }

  function Mappings(cs: seq<Listed>): seq<Mapping> {
    if cs == [] then []
    else Mappings(cs[..|cs| - 1]) + match (cs[|cs| - 1].inspected, cs[|cs| - 1].snapshot) {
      case (Some(c), Some(dst)) => if dst != "" then [Mapping(c.upperDir, dst)] else []
      case _ => []
    }
  }

  /** What the lists become with one more container. */
  lemma ListingStep(cs: seq<Listed>, i: nat)
    requires i < |cs|
    ensures Ids(cs[..i + 1]) == Ids(cs[..i]) + {cs[i].id}
    ensures Running(cs[..i + 1]) == Running(cs[..i]) + if cs[i].state == "running" then [cs[i].id] else []
    ensures cs[i].inspected.Some? && cs[i].snapshot.Some? && cs[i].snapshot.value != "" ==>
              Mappings(cs[..i + 1]) == Mappings(cs[..i]) +
                  [Mapping(cs[i].inspected.value.upperDir, cs[i].snapshot.value)]
  {
    assert cs[..i + 1][..i] == cs[..i];
  }

  lemma {:induction false} IdsMean(cs: seq<Listed>, id: string)
    ensures id in Ids(cs) <==> exists k :: 0 <= k < |cs| && cs[k].id == id
  {
    if cs != [] {
      var n := |cs| - 1;
      IdsMean(cs[..n], id);
      assert forall k :: 0 <= k < n ==> cs[..n][k] == cs[k];
    }
  }

  lemma {:induction false} RunningMean(cs: seq<Listed>, id: string)
    ensures id in Running(cs) <==> exists k :: 0 <= k < |cs| && cs[k].id == id && cs[k].state == "running"
  {
    if cs != [] {
      var n := |cs| - 1;
      RunningMean(cs[..n], id);
      assert forall k :: 0 <= k < n ==> cs[..n][k] == cs[k];
    }
  }

  /** What is recorded of a listing is recorded container by container. */
  lemma {:induction false} ListingConcat(a: seq<Listed>, b: seq<Listed>, cs: seq<Listed>)
    requires cs == a + b
    ensures Running(cs) == Running(a) + Running(b)
    ensures ImageNames(cs) == ImageNames(a) + ImageNames(b)
    ensures Mappings(cs) == Mappings(a) + Mappings(b)
  {
    if b == [] {
      assert cs == a;
    } else {
      assert cs[..|cs| - 1] == a + b[..|b| - 1];
      ListingConcat(a, b[..|b| - 1], cs[..|cs| - 1]);
    }
  }

  /** A container counts as running in that state alone; its upper directory maps to that of its
      snapshot. */
  lemma ListingOne(c: Listed)
    ensures Running([c]) == if c.state == "running" then [c.id] else []
    ensures c.inspected.Some? ==> ImageNames([c]) == [c.inspected.value.image]
    ensures c.inspected.Some? && c.snapshot.Some? && c.snapshot.value != "" ==>
              Mappings([c]) == [Mapping(c.inspected.value.upperDir, c.snapshot.value)]
    ensures c.inspected.None? || c.snapshot.None? || c.snapshot.value == "" ==> Mappings([c]) == []
  {
    assert [c][..0] == [];
  }

  // ---- Preparing ------------------------------------------------------------------------

  /** The images the inspected containers use. */
  function ImageNames(cs: seq<Listed>): seq<string> {
    if cs == [] then []
    else ImageNames(cs[..|cs| - 1]) + if cs[|cs| - 1].inspected.Some? then [cs[|cs| - 1].inspected.value.image] else []
  }

  function Snapshotter(driver: string): string { if driver == "overlay" then "overlay1fs" else "overlayfs" }

  /** An image is pulled for the driver of the first container that uses it. */
  function PullFor(used: seq<string>, c: Inspected): seq<Event> {
    if c.image in used then [] else [Pull(c.image, Snapshotter(c.driver), true)]
  }

  function Pulls(cs: seq<Listed>): seq<Event> {
    if cs == [] then []
    else
      var init, c := cs[..|cs| - 1], cs[|cs| - 1];
      Pulls(init) + if c.inspected.Some? then PullFor(ImageNames(init), c.inspected.value) else []
  }

  lemma PullsStep(cs: seq<Listed>, i: nat)
    requires i < |cs| && cs[i].inspected.Some?
    ensures ImageNames(cs[..i + 1]) == ImageNames(cs[..i]) + [cs[i].inspected.value.image]
    ensures Pulls(cs[..i + 1]) == Pulls(cs[..i]) + PullFor(ImageNames(cs[..i]), cs[i].inspected.value)
  {
    assert cs[..i + 1][..i] == cs[..i];
  }

  lemma {:induction false} PullsPrefix(cs: seq<Listed>, i: nat)
    requires i <= |cs|
    ensures Pulls(cs[..i]) <= Pulls(cs)
  {
    if i < |cs| {
      PullsPrefix(cs[..|cs| - 1], i);
      assert cs[..|cs| - 1][..i] == cs[..i];
    } else {
      assert cs[..i] == cs;
    }
  }

  function PulledImages(commands: seq<Event>): seq<string> {
    if commands == [] then []
    else
      PulledImages(commands[..|commands| - 1]) +
      if commands[|commands| - 1].Pull? then [commands[|commands| - 1].image] else []
  }

  lemma PulledImagesPush(commands: seq<Event>, e: Event)
    ensures PulledImages(commands + [e]) == PulledImages(commands) + if e.Pull? then [e.image] else []
  {
    assert (commands + [e])[..|commands|] == commands;
  }

  lemma DistinctPush(names: seq<string>, name: string)
    ensures Distinct(names + [name]) == Distinct(names) + if name in names then [] else [name]
  {
    assert (names + [name])[..|names|] == names;
  }

  /** So the pulled images are the used ones without repetition, in order of first use. */
  lemma {:induction false} PulledOnceEach(cs: seq<Listed>)
    ensures PulledImages(Pulls(cs)) == Distinct(ImageNames(cs))
  {
    if cs != [] {
      var init, c := cs[..|cs| - 1], cs[|cs| - 1];
      PulledOnceEach(init);
      if c.inspected.None? {
        assert Pulls(cs) == Pulls(init) && ImageNames(cs) == ImageNames(init);
      } else {
        DistinctPush(ImageNames(init), c.inspected.value.image);
        assert Pulls(init) + [] == Pulls(init);
        PulledImagesPush(Pulls(init), Pull(c.inspected.value.image, Snapshotter(c.inspected.value.driver), true));
      }
    }
  }

  function PreparePlan(cs: seq<Listed>): seq<Event> { Pulls(cs) + [StoreVolumes(true), StoreSandboxes(true)] }

  /** The log of a preparation that counts as successful.  An empty host needs nothing, and
      a failure to store the volumes cuts the preparation short without being reported. */
  ghost predicate Prepared(log: Log, cs: seq<Listed>) {
    if cs == [] then log == Empty
    else Carried(Empty, log, PreparePlan(cs)) || (Ran(Empty, log, PreparePlan(cs), false) && log.last.StoreVolumes?)
  }

  /** Container `k` is the first that uses this image. */
  ghost predicate FirstUse(cs: seq<Listed>, k: nat, image: string) {
    && k < |cs| && cs[k].inspected.Some? && cs[k].inspected.value.image == image
    && forall j :: 0 <= j < k && cs[j].inspected.Some? ==> cs[j].inspected.value.image != image
  }

  /** The event pulls an image for the first container that uses it, and for its driver. */
  ghost predicate PullsForFirst(cs: seq<Listed>, e: Event) {
    e.Pull? && exists k: nat ::
      && FirstUse(cs, k, e.image)
      && (cs[k].inspected.value.driver == "overlay" ==> e.snapshotter == "overlay1fs")
      && (cs[k].inspected.value.driver != "overlay" ==> e.snapshotter == "overlayfs")
  }

  lemma {:induction false} UsedImages(cs: seq<Listed>, image: string)
    ensures image in ImageNames(cs) <==>
              exists k :: 0 <= k < |cs| && cs[k].inspected.Some? && cs[k].inspected.value.image == image
  {
    if cs != [] {
      var n := |cs| - 1;
      UsedImages(cs[..n], image);
      assert forall k :: 0 <= k < n ==> cs[..n][k] == cs[k];
    }
  }

  lemma FirstUseLater(cs: seq<Listed>, e: Event)
    requires cs != [] && PullsForFirst(cs[..|cs| - 1], e)
    ensures PullsForFirst(cs, e)
  {
    var n := |cs| - 1;
    var k: nat :| && FirstUse(cs[..n], k, e.image)
                  && (cs[..n][k].inspected.value.driver == "overlay" ==> e.snapshotter == "overlay1fs")
                  && (cs[..n][k].inspected.value.driver != "overlay" ==> e.snapshotter == "overlayfs");
    assert forall j :: 0 <= j <= k ==> cs[..n][j] == cs[j];
    assert FirstUse(cs, k, e.image);
  }

  /** Every pull is for the first container with its image and fits the driver of that one, and
      every image in use is pulled. */
  lemma {:induction false} PullsFit(cs: seq<Listed>)
    ensures forall e :: e in Pulls(cs) ==> PullsForFirst(cs, e) && e.ok
    ensures forall k :: 0 <= k < |cs| && cs[k].inspected.Some? ==>
              exists e :: e in Pulls(cs) && e.Pull? && e.image == cs[k].inspected.value.image
  {
    if cs != [] {
      var n := |cs| - 1;
      PullsFit(cs[..n]);
      LastPullFits(cs);
      forall e | e in Pulls(cs)
        ensures PullsForFirst(cs, e) && e.ok
      {
        if e in Pulls(cs[..n]) {
          FirstUseLater(cs, e);
        }
      }
      forall k | 0 <= k < |cs| && cs[k].inspected.Some?
        ensures exists e :: e in Pulls(cs) && e.Pull? && e.image == cs[k].inspected.value.image
      {
        UsedIsPulled(cs, k);
      }
    }
  }

  lemma LastPullFits(cs: seq<Listed>)
    requires cs != []
    ensures var init, c := cs[..|cs| - 1], cs[|cs| - 1];
            c.inspected.Some? ==>
              forall e :: e in PullFor(ImageNames(init), c.inspected.value) ==> PullsForFirst(cs, e) && e.ok
  {
    var n := |cs| - 1;
    var init, c := cs[..n], cs[n];
    if c.inspected.Some? && c.inspected.value.image !in ImageNames(init) {
      UsedImages(init, c.inspected.value.image);
      assert forall j :: 0 <= j < n ==> init[j] == cs[j];
      assert FirstUse(cs, n, c.inspected.value.image);
    }
  }

  lemma UsedIsPulled(cs: seq<Listed>, k: nat)
    requires k < |cs| && cs[k].inspected.Some?
    ensures exists e :: e in Pulls(cs) && e.Pull? && e.image == cs[k].inspected.value.image
  {
    var image := cs[k].inspected.value.image;
    PulledOnceEach(cs);
    UsedImages(cs, image);
    DistinctListsOnce(ImageNames(cs));
    assert image in PulledImages(Pulls(cs));
    PulledFrom(Pulls(cs), image);
  }

  lemma {:induction false} PulledFrom(commands: seq<Event>, image: string)
    requires image in PulledImages(commands)
    ensures exists e :: e in commands && e.Pull? && e.image == image
  {
    var n := |commands| - 1;
    if commands[n].Pull? && commands[n].image == image {
      assert commands[n] in commands;
    } else {
      PulledFrom(commands[..n], image);
      var e :| e in commands[..n] && e.Pull? && e.image == image;
      assert e in commands;
    }
  }

  // ---- Migrating, reverting, finishing ----------------------------------------------------

  /** The commands that `f` gives for each item, in order. */
  function Each<T>(xs: seq<T>, f: T -> seq<Event>): seq<Event> {
    if xs == [] then [] else Each(xs[..|xs| - 1], f) + f(xs[|xs| - 1])
  }

  lemma EachStep<T>(xs: seq<T>, f: T -> seq<Event>, i: nat)
    requires i < |xs|
    ensures Each(xs[..i + 1], f) == Each(xs[..i], f) + f(xs[i])
  {
    assert xs[..i + 1][..i] == xs[..i];
  }

  lemma {:induction false} EachPrefix<T>(xs: seq<T>, f: T -> seq<Event>, i: nat)
    requires i <= |xs|
    ensures Each(xs[..i], f) <= Each(xs, f)
  {
    if i < |xs| {
      EachPrefix(xs[..|xs| - 1], f, i);
      assert xs[..|xs| - 1][..i] == xs[..i];
    } else {
      assert xs[..i] == xs;
    }
  }

  /** One round of a loop that carries out `f` for each item. */
  lemma Round<T>(a: Log, b: Log, c: Log, xs: seq<T>, f: T -> seq<Event>, i: nat, ok: bool)
    requires i < |xs| && Carried(a, b, Each(xs[..i], f)) && Ran(b, c, f(xs[i]), ok)
    ensures ok ==> Carried(a, c, Each(xs[..i + 1], f))
    ensures !ok ==> Ran(a, c, Each(xs, f), false)
  {
    RanThen(a, b, c, Each(xs[..i], f), f(xs[i]), ok);
    EachStep(xs, f, i);
    EachPrefix(xs, f, i + 1);
    if !ok {
      FailedLonger(a, c, Each(xs[..i + 1], f), Each(xs, f));
    }
  }

  function StopOne(id: string): seq<Event> { [Stop(id, Halted)] }

  function MoveOne(m: Mapping): seq<Event> { [Touch(m.src, true), Move(m.src, m.dst, Completed)] }

  function ReturnOne(m: Mapping): seq<Event> { [Move(m.dst, m.src, Completed)] }

  function RestartOne(id: string): seq<Event> { [DockerStart(id, true)] }

  function RemoveOne(id: string): seq<Event> { [Remove(id, Removed)] }

  function StartOne(id: string): seq<Event> { [PouchStart(id, true)] }

  /** First the containers stop, then the directories move. */
  function MigratePlan(running: seq<string>, ms: seq<Mapping>): seq<Event> {
    [CopyNetworkFile(true)] + Each(running, StopOne) + Each(ms, MoveOne)
  }

  function RevertPlan(running: seq<string>, ms: seq<Mapping>): seq<Event> {
    Each(ms, ReturnOne) + Each(running, RestartOne)
  }

  /** The revert that began with `before`: if it reached its restarts, then by way of a log at
      which every directory was back; otherwise some directory could not be moved. */
  ghost predicate RevertRan(before: Log, log: Log, running: seq<string>, ms: seq<Mapping>, reached: bool, ok: bool) {
    if reached then
      exists home :: Carried(before, home, Each(ms, ReturnOne)) && Ran(home, log, Each(running, RestartOne), ok)
    else !ok && Ran(before, log, Each(ms, ReturnOne), false)
  }

  function ReplacePlan(): seq<Event> { [UninstallDocker(true), InstallPouch(true), ConnectPouch(true)] }

  function CleanAndStartPlan(deleted: seq<string>, survivors: seq<string>): seq<Event> {
    Each(deleted, RemoveOne) + [DeleteBridge(true)] + Each(survivors, StartOne)
  }

  function FinishPlan(deleted: seq<string>, survivors: seq<string>): seq<Event> {
    ReplacePlan() + CleanAndStartPlan(deleted, survivors)
  }

  /** The containers that have to run again: those still present.  The empty ID passes
      because the membership test never finds it among the deleted ones. */
  function Survivors(running: seq<string>, present: seq<string>): seq<string> {
    if running == [] then []
    else
      var c := running[|running| - 1];
      Survivors(running[..|running| - 1], present) + if c in present || c == "" then [c] else []
  }

  /** So a container missing from the new listing is started exactly when its ID is empty. */
  lemma {:induction false} SurvivorsArePresent(running: seq<string>, present: seq<string>)
    ensures forall c :: c in Survivors(running, present) <==> c in running && (c in present || c == "")
    ensures (forall c :: c in Survivors(running, present) ==> c in present) <==> ("" in running ==> "" in present)
  {
    if running != [] {
      SurvivorsArePresent(running[..|running| - 1], present);
    }
  }

  /** Survivors keep their order and multiplicity. */
  lemma {:induction false} SurvivorsConcat(a: seq<string>, b: seq<string>, present: seq<string>, ids: seq<string>)
    requires ids == a + b
    ensures Survivors(ids, present) == Survivors(a, present) + Survivors(b, present)
  {
    if b == [] {
      assert ids == a;
    } else {
      assert ids[..|ids| - 1] == a + b[..|b| - 1];
      SurvivorsConcat(a, b[..|b| - 1], present, ids[..|ids| - 1]);
    }
  }

  /** For instance a container without an ID. */
  lemma EmptyIdSurvives()
    ensures Survivors([""], []) == [""]
  {
    assert [""][..0] == [];
  }

  lemma SurvivorsStep(running: seq<string>, present: seq<string>, i: nat)
    requires i < |running|
    ensures Survivors(running[..i + 1], present) ==
            if running[i] in present || running[i] == "" then Survivors(running[..i], present) + [running[i]]
            else Survivors(running[..i], present)
  {
    assert running[..i + 1][..i] == running[..i];
  }

  lemma {:induction false} SurvivorsPrefix(running: seq<string>, present: seq<string>, i: nat)
    requires i <= |running|
    ensures Survivors(running[..i], present) <= Survivors(running, present)
  {
    if i < |running| {
      SurvivorsPrefix(running[..|running| - 1], present, i);
      assert running[..|running| - 1][..i] == running[..i];
    } else {
      assert running[..i] == running;
    }
  }

  ghost predicate NoRepeats(ids: seq<string>) { forall i, j :: 0 <= i < j < |ids| ==> ids[i] != ids[j] }

  // ---- Preparation is harmless ----------------------------------------------------------------

  /** The run ended with an I/O failure in the middle of a move. */
  predicate Interrupted(log: Log) { log.Then? && log.last.Move? && log.last.moved.Stopped? }

  predicate OnlyPreparing(log: Log) {
    log.Then? ==> OnlyPreparing(log.before) && (log.last.Pull? || log.last.StoreVolumes? || log.last.StoreSandboxes?)
  }

  lemma {:induction false} PreparationIsSafe(start: State, log: Log, running: seq<string>, ms: seq<Mapping>)
    requires OnlyPreparing(log)
    ensures Safe(start, log, running, ms, ForwardOnly) && Replay(start, log) == start
  {
    if log.Then? {
      PreparationIsSafe(start, log.before, running, ms);
    }
  }
}
