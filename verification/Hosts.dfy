/** The machine being migrated: its upper directories and containers, and the external
    commands the migrator issues.  Every command is an event whose outcome the environment
    chooses; the state is always the replay of the events so far. */
module Hosts {
  import opened Overlay

  datatype StopOutcome = Halted | Absent | StopFailed
  datatype RemoveOutcome = Removed | NotFound | RemoveFailed

  datatype Event =
    | Pull(image: string, snapshotter: string, ok: bool)
    | StoreVolumes(ok: bool)
    | StoreSandboxes(ok: bool)
    | CopyNetworkFile(ok: bool)
    | Stop(id: string, stopped: StopOutcome)
    | Touch(dir: Path, ok: bool)
    | Move(src: Path, dst: Path, moved: MoveOutcome)
    | UninstallDocker(ok: bool)
    | InstallPouch(ok: bool)
    | ConnectPouch(ok: bool)
    | Remove(id: string, removed: RemoveOutcome)
    | DeleteBridge(ok: bool)
    | PouchStart(id: string, ok: bool)
    | DockerStart(id: string, ok: bool)

  /** `up` and `pouchUp` are the containers running under docker and under pouch. */
  datatype State = State(fs: Fs, up: set<string>, pouchUp: set<string>)

  predicate Possible(s: State, e: Event) {
    match e
    case Stop(id, Absent) => id !in s.up
    case Move(src, dst, o) => MovePossible(s.fs, src, dst, o)
    case _ => true
  }

  function Apply(s: State, e: Event): State {
    match e
    case Stop(id, Halted) => s.(up := s.up - {id})
    case Touch(dir, ok) => s.(fs := AfterTouch(s.fs, dir, ok))
    case Move(src, dst, o) => s.(fs := AfterMove(s.fs, src, dst, o))
    case PouchStart(id, true) => s.(pouchUp := s.pouchUp + {id})
    case DockerStart(id, true) => s.(up := s.up + {id})
    case _ => s
  }

  /** The events of a run, latest outermost. */
  datatype Log = Empty | Then(before: Log, last: Event)

  /** `p` is an initial part of `log`, or all of it. */
  predicate Prefix(p: Log, log: Log) { p == log || (log.Then? && Prefix(p, log.before)) }

  function Replay(start: State, log: Log): State {
    match log
    case Empty => start
    case Then(before, e) => Apply(Replay(start, before), e)
  }

  /** Every outcome in the log could happen where it did. */
  ghost predicate Legal(start: State, log: Log) {
    log.Then? ==> Legal(start, log.before) && Possible(Replay(start, log.before), log.last)
  }

  // ---- What was asked for, and what went wrong ----------------------------------------------

  /** The command behind an event, whatever came of it. */
  function Command(e: Event): Event {
    match e
    case Pull(image, snapshotter, _) => Pull(image, snapshotter, true)
    case StoreVolumes(_) => StoreVolumes(true)
    case StoreSandboxes(_) => StoreSandboxes(true)
    case CopyNetworkFile(_) => CopyNetworkFile(true)
    case Stop(id, _) => Stop(id, Halted)
    case Touch(dir, _) => Touch(dir, true)
    case Move(src, dst, _) => Move(src, dst, Completed)
    case UninstallDocker(_) => UninstallDocker(true)
    case InstallPouch(_) => InstallPouch(true)
    case ConnectPouch(_) => ConnectPouch(true)
    case Remove(id, _) => Remove(id, Removed)
    case DeleteBridge(_) => DeleteBridge(true)
    case PouchStart(id, _) => PouchStart(id, true)
    case DockerStart(id, _) => DockerStart(id, true)
  }

  /** The event is a failure.  The marker and the bridge are optional, and absent containers
      count as stopped and as removed. */
  predicate Fails(e: Event) {
    match e
    case Touch(_, _) => false
    case DeleteBridge(_) => false
    case Stop(_, o) => o.StopFailed?
    case Remove(_, o) => o.RemoveFailed?
    case Move(_, _, o) => !o.Completed?
    case _ => !e.ok
  }

  /** Between `before` and `log` exactly the commands of `plan` were issued, and none failed. */
  ghost predicate Carried(before: Log, log: Log, plan: seq<Event>) {
    if plan == [] then log == before
    else
      && log.Then? && Command(log.last) == plan[|plan| - 1] && !Fails(log.last)
      && Carried(before, log.before, plan[..|plan| - 1])
  }

  /** The first `n` commands succeeded, and the next one failed. */
  ghost predicate FailedAt(before: Log, log: Log, plan: seq<Event>, n: nat) {
    && n < |plan| && log.Then? && Fails(log.last) && Command(log.last) == plan[n]
    && Carried(before, log.before, plan[..n])
  }

  /** The plan was carried out in full if `ok`, and otherwise up to its first failing command. */
  ghost predicate Ran(before: Log, log: Log, plan: seq<Event>, ok: bool) {
    if ok then Carried(before, log, plan) else exists n: nat :: FailedAt(before, log, plan, n)
  }

  lemma RanOne(before: Log, e: Event)
    ensures Ran(before, Then(before, e), [Command(e)], !Fails(e))
  {
    var plan := [Command(e)];
    assert plan[..0] == [] && plan[..|plan| - 1] == [] && Carried(before, before, plan[..0]);
    assert Fails(e) ==> FailedAt(before, Then(before, e), plan, 0);
  }

  lemma {:induction false} CarriedThen(a: Log, b: Log, c: Log, p: seq<Event>, q: seq<Event>)
    requires Carried(a, b, p) && Carried(b, c, q)
    ensures Carried(a, c, p + q)
    decreases |q|
  {
    if q == [] {
      assert p + q == p;
    } else {
      CarriedThen(a, b, c.before, p, q[..|q| - 1]);
      assert (p + q)[..|p + q| - 1] == p + q[..|q| - 1];
    }
  }

  lemma RanThen(a: Log, b: Log, c: Log, p: seq<Event>, q: seq<Event>, ok: bool)
    requires Carried(a, b, p) && Ran(b, c, q, ok)
    ensures Ran(a, c, p + q, ok)
  {
    if ok {
      CarriedThen(a, b, c, p, q);
    } else {
      var n: nat :| FailedAt(b, c, q, n);
      CarriedThen(a, b, c.before, p, q[..n]);
      assert (p + q)[..|p| + n] == p + q[..n] && (p + q)[|p| + n] == q[n];
      assert FailedAt(a, c, p + q, |p| + n);
    }
  }

  /** A plan that was cut short may as well have been longer. */
  lemma FailedLonger(a: Log, b: Log, p: seq<Event>, q: seq<Event>)
    requires Ran(a, b, p, false) && p <= q
    ensures Ran(a, b, q, false)
  {
    var n: nat :| FailedAt(a, b, p, n);
    assert q[..n] == p[..n] && q[n] == p[n];
    assert FailedAt(a, b, q, n);
  }

  // ---- The events themselves ----------------------------------------------------------------

  function Events(log: Log): seq<Event> { if log.Empty? then [] else Events(log.before) + [log.last] }

  /** What was issued since `before`, in order. */
  lemma {:induction false} CarriedEvents(before: Log, log: Log, plan: seq<Event>) returns (es: seq<Event>)
    requires Carried(before, log, plan)
    ensures Events(log) == Events(before) + es && |es| == |plan|
    ensures forall i :: 0 <= i < |es| ==> Command(es[i]) == plan[i] && !Fails(es[i])
    decreases |plan|
  {
    if plan == [] {
      es := [];
    } else {
      var init := plan[..|plan| - 1];
      var rest := CarriedEvents(before, log.before, init);
      es := rest + [log.last];
      assert forall i :: 0 <= i < |rest| ==> es[i] == rest[i] && init[i] == plan[i];
    }
  }

  /** The events after `before`. */
  function Since(before: Log, log: Log): seq<Event> {
    if |Events(before)| <= |Events(log)| then Events(log)[|Events(before)|..] else []
  }

  lemma CarriedSince(before: Log, log: Log, plan: seq<Event>)
    requires Carried(before, log, plan)
    ensures |Since(before, log)| == |plan| && Events(log) == Events(before) + Since(before, log)
    ensures forall i :: 0 <= i < |plan| ==> Command(Since(before, log)[i]) == plan[i] && !Fails(Since(before, log)[i])
  {
    var es := CarriedEvents(before, log, plan);
    assert Since(before, log) == es;
  }

  /** A run up to a failure: its last event is the only failure. */
  lemma FailedSince(before: Log, log: Log, plan: seq<Event>) returns (n: nat)
    requires Ran(before, log, plan, false)
    ensures n < |plan| && |Since(before, log)| == n + 1 && Events(log) == Events(before) + Since(before, log)
    ensures log.Then? && log.last == Since(before, log)[n] && Fails(log.last)
    ensures forall i :: 0 <= i <= n ==> Command(Since(before, log)[i]) == plan[i]
    ensures forall i :: 0 <= i < n ==> !Fails(Since(before, log)[i])
  {
    n :| FailedAt(before, log, plan, n);
    CarriedSince(before, log.before, plan[..n]);
    var es := Since(before, log.before);
    assert Since(before, log) == es + [log.last];
    forall i | 0 <= i <= n
      ensures Command(Since(before, log)[i]) == plan[i] && (i < n ==> !Fails(Since(before, log)[i]))
    {
      if i < n {
        assert Command(es[i]) == plan[..n][i];
      }
    }
  }

  // ---- Safety of a run --------------------------------------------------------------

  /** The event works on container data: it changes it, or fails while trying to. */
  predicate Disturbs(e: Event) {
    e.Touch? || (e.Move? && (e.moved.Stopped? || e.moved.Completed?))
  }

  ghost predicate IsForward(e: Event, m: Mapping) { e.Move? && e.src == m.src && e.dst == m.dst }

  ghost predicate IsBackward(e: Event, m: Mapping) { e.Move? && e.src == m.dst && e.dst == m.src }

  /** The event only involves directories of one recorded mapping, and a marker is only
      placed before anything of that mapping has moved. */
  ghost predicate StaysInMappings(s: State, e: Event, ms: seq<Mapping>) {
    && (e.Touch? ==> exists i :: 0 <= i < |ms| && e.dir == ms[i].src && VisibleNames(At(s.fs, ms[i].dst)) == {})
    && (e.Move? ==> exists i :: 0 <= i < |ms| && (IsForward(e, ms[i]) || IsBackward(e, ms[i])))
  }

  /** The visible content of a mapping has left its source. */
  ghost predicate Emptied(fs: Fs, m: Mapping) {
    m.src != "" && m.dst != "" && VisibleNames(At(fs, m.src)) == {} && VisibleNames(At(fs, m.dst)) != {}
  }

  /** Which way a run goes after the forward moves, if it goes on at all. */
  datatype Course = ForwardOnly | Finish | Revert

  predicate Finishing(e: Event) {
    e.UninstallDocker? || e.InstallPouch? || e.ConnectPouch? || e.Remove? || e.DeleteBridge? || e.PouchStart?
  }

  ghost predicate StepSafe(s: State, e: Event, running: seq<string>, ms: seq<Mapping>, course: Course) {
    && StaysInMappings(s, e, ms)
    && (Disturbs(e) ==> Quiet(s, running))
    && (Finishing(e) ==> course == Finish && AllEmptied(s.fs, ms))
    && (e.DockerStart? ==> course == Revert)
    && (e.Move? && course != Revert ==> exists i :: 0 <= i < |ms| && IsForward(e, ms[i]))
  }

  ghost predicate Quiet(s: State, running: seq<string>) { forall c :: c in running ==> c !in s.up }

  ghost predicate AllEmptied(fs: Fs, ms: seq<Mapping>) { forall i :: 0 <= i < |ms| ==> Emptied(fs, ms[i]) }

  /** No container data is worked on while a recorded running container is up; docker is
      uninstalled and pouch set up only with every mapping moved, in runs that never move
      anything back; containers return to docker only in runs that never finish. */
  ghost predicate Safe(start: State, log: Log, running: seq<string>, ms: seq<Mapping>, course: Course) {
    log.Then? ==> Safe(start, log.before, running, ms, course)
                  && StepSafe(Replay(start, log.before), log.last, running, ms, course)
  }

  lemma {:induction false} ForwardIsSafe(start: State, log: Log, running: seq<string>, ms: seq<Mapping>, course: Course)
    requires Safe(start, log, running, ms, ForwardOnly)
    ensures Safe(start, log, running, ms, course)
  {
    if log.Then? {
      ForwardIsSafe(start, log.before, running, ms, course);
    }
  }

  // ---- Conservation over whole runs ---------------------------------------------------

  lemma MovePreservesPair(fs0: Fs, fs: Fs, m: Mapping, e: Event)
    requires m.src != m.dst && Conserved(fs0, fs, m)
    requires (IsForward(e, m) || IsBackward(e, m)) && MovePossible(fs, e.src, e.dst, e.moved)
    ensures Conserved(fs0, AfterMove(fs, e.src, e.dst, e.moved), m)
  {
    if e.moved.Stopped? || e.moved.Completed? {
      var names := if e.moved.Stopped? then e.moved.moved else VisibleNames(At(fs, e.src));
      if IsForward(e, m) {
        ForwardConserves(fs0, fs, m, names);
      } else {
        BackwardConserves(fs0, fs, m, names);
      }
    }
  }

  lemma StepConserves(fs0: Fs, s: State, e: Event, ms: seq<Mapping>, i: nat)
    requires Separate(ms) && i < |ms| && Conserved(fs0, s.fs, ms[i])
    requires Possible(s, e) && StaysInMappings(s, e, ms)
    ensures Conserved(fs0, Apply(s, e).fs, ms[i])
  {
    if e.Touch? {
      var j :| 0 <= j < |ms| && e.dir == ms[j].src && VisibleNames(At(s.fs, ms[j].dst)) == {};
      if j == i {
        TouchConserves(fs0, s.fs, ms[i], e.ok);
      }
    } else if e.Move? {
      var j :| 0 <= j < |ms| && (IsForward(e, ms[j]) || IsBackward(e, ms[j]));
      if j == i {
        MovePreservesPair(fs0, s.fs, ms[i], e);
      } else {
        MoveElsewhere(s.fs, e.src, e.dst, e.moved, ms[i]);
      }
    }
  }

  lemma MoveElsewhere(fs: Fs, src: Path, dst: Path, o: MoveOutcome, m: Mapping)
    requires MovePossible(fs, src, dst, o)
    requires m.dst != src && m.dst != dst
    requires (m.src != src && m.src != dst) || src == "" || dst == ""
    ensures At(AfterMove(fs, src, dst, o), m.src) == At(fs, m.src)
    ensures At(AfterMove(fs, src, dst, o), m.dst) == At(fs, m.dst)
  {
  }

  /** At every point of every safe run, whatever the environment does, each pair of
      directories together holds exactly the container's entries. */
  lemma {:induction false} ConservedThroughout(start: State, log: Log, running: seq<string>, ms: seq<Mapping>,
                                               course: Course, p: Log)
    requires Separate(ms) && Fresh(start.fs, ms)
    requires Legal(start, log) && Safe(start, log, running, ms, course)
    requires Prefix(p, log)
    ensures forall i :: 0 <= i < |ms| ==> Conserved(start.fs, Replay(start, p).fs, ms[i])
    decreases log
  {
    if log.Empty? {
      forall i | 0 <= i < |ms|
        ensures Conserved(start.fs, start.fs, ms[i])
      {
        ConservedInitially(start.fs, ms[i]);
      }
    } else if p != log {
      ConservedThroughout(start, log.before, running, ms, course, p);
    } else {
      ConservedThroughout(start, log.before, running, ms, course, log.before);
      forall i | 0 <= i < |ms|
        ensures Conserved(start.fs, Replay(start, log).fs, ms[i])
      {
        StepConserves(start.fs, Replay(start, log.before), log.last, ms, i);
      }
    }
  }

  // ---- The commands -------------------------------------------------------------------

  class Host {
    ghost const start: State
    var state: State
    ghost var log: Log

    ghost predicate Valid()
      reads this
    {
      Legal(start, log) && state == Replay(start, log)
    }

    constructor (initial: State)
      ensures Valid() && start == initial && log == Empty
    {
      start, state, log := initial, initial, Empty;
    }

    method Perform(e: Event)
      requires Valid() && Possible(state, e)
      modifies this
      ensures Valid() && log == Then(old(log), e) && state == Apply(old(state), e)
    {
      log := Then(log, e);
      state := Apply(state, e);
    }

    /** utils.MoveDir: succeeds exactly when every visible name was moved. */
    method MoveDir(src: Path, dst: Path) returns (ok: bool, ghost o: MoveOutcome)
      requires Valid()
      modifies this
      ensures Valid() && log == Then(old(log), Move(src, dst, o))
      ensures MovePossible(old(state.fs), src, dst, o) && (ok <==> o.Completed?)
      ensures state == old(state).(fs := AfterMove(old(state.fs), src, dst, o))
    {
      var outcome: MoveOutcome;
      if src == "" || dst == "" {
        outcome := Rejected;
      } else if VisibleNames(At(state.fs, src)) == {} {
        outcome := NoMatch;
      } else {
        var interrupted: bool := *;
        var reached: set<Name> := *;
        outcome := if interrupted then Stopped(reached * VisibleNames(At(state.fs, src))) else Completed;
      }
      Perform(Move(src, dst, outcome));
      ok, o := outcome.Completed?, outcome;
    }

    method TouchMarker(dir: Path) returns (ok: bool)
      requires Valid()
      modifies this
      ensures Valid() && log == Then(old(log), Touch(dir, ok))
      ensures state == old(state).(fs := AfterTouch(old(state.fs), dir, ok))
    {
      ok := *;
      Perform(Touch(dir, ok));
    }

    method StopContainer(id: string) returns (outcome: StopOutcome)
      requires Valid()
      modifies this
      ensures Valid() && log == Then(old(log), Stop(id, outcome))
      ensures state == Apply(old(state), Stop(id, outcome)) && (outcome.Absent? ==> id !in state.up)
    {
      outcome := *;
      if outcome.Absent? && id in state.up {
        outcome := StopFailed;
      }
      Perform(Stop(id, outcome));
    }

    method RemoveContainer(id: string) returns (outcome: RemoveOutcome)
      requires Valid()
      modifies this
      ensures Valid() && log == Then(old(log), Remove(id, outcome)) && state == old(state)
    {
      outcome := *;
      Perform(Remove(id, outcome));
    }

    /** Any other command either succeeds or fails. */
    method Try(yes: Event, no: Event) returns (ok: bool)
      requires Valid() && Possible(state, yes) && Possible(state, no)
      modifies this
      ensures Valid() && log == Then(old(log), if ok then yes else no)
      ensures state == Apply(old(state), if ok then yes else no)
    {
      ok := *;
      Perform(if ok then yes else no);
    }
  }
}
