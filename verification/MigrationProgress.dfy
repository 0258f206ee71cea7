/** How far the directory moves of a migration, or of its revert, have come. */
module MigrationProgress {
  import opened Overlay
  import opened Hosts

  ghost predicate NothingMoved(fs: Fs, ms: seq<Mapping>) {
    forall j :: 0 <= j < |ms| ==> VisibleNames(At(fs, ms[j].dst)) == {}
  }

  /** The first `i` mappings are moved, the others untouched. */
  ghost predicate MovedUpTo(fs: Fs, ms: seq<Mapping>, i: nat) {
    && "" !in fs && i <= |ms|
    && (forall j :: 0 <= j < i ==> Emptied(fs, ms[j]))
    && (forall j :: i <= j < |ms| ==> VisibleNames(At(fs, ms[j].dst)) == {})
  }

  /** Mappings before `k` have visible names in their destination, those after it have none. */
  ghost predicate Frontier(fs: Fs, ms: seq<Mapping>, k: nat) {
    && "" !in fs && k <= |ms|
    && (forall j :: 0 <= j < k ==> ms[j].src != "" && VisibleNames(At(fs, ms[j].dst)) != {})
    && (forall j :: k < j < |ms| ==> VisibleNames(At(fs, ms[j].dst)) == {})
    && (k < |ms| && ms[k].src == "" ==> VisibleNames(At(fs, ms[k].dst)) == {})
  }

  /** The mapping takes part in a revert: there is something to move back, and a place for it. */
  ghost predicate Returnable(fs: Fs, m: Mapping) {
    m.src != "" && VisibleNames(At(fs, m.dst)) != {}
  }

  ghost predicate AllReturnable(fs: Fs, ms: seq<Mapping>) { forall j :: 0 <= j < |ms| ==> Returnable(fs, ms[j]) }

  /** The revert of `fs0` has dealt with the first `i` mappings. */
  ghost predicate ReturnedUpTo(fs0: Fs, fs: Fs, ms: seq<Mapping>, i: nat) {
    && "" !in fs && "" !in fs0 && i <= |ms|
    && (forall j :: 0 <= j < i ==> Returnable(fs0, ms[j]) && VisibleNames(At(fs, ms[j].dst)) == {})
    && (forall j :: i <= j < |ms| ==> At(fs, ms[j].dst) == At(fs0, ms[j].dst))
  }

  lemma MoveBegins(fs: Fs, ms: seq<Mapping>)
    requires Fresh(fs, ms)
    ensures MovedUpTo(fs, ms, 0) && NothingMoved(fs, ms) && Frontier(fs, ms, 0)
  {
  }

  lemma MoveEnds(fs: Fs, ms: seq<Mapping>)
    requires MovedUpTo(fs, ms, |ms|)
    ensures AllEmptied(fs, ms)
  {
  }

  lemma ReturnEnds(fs0: Fs, fs: Fs, ms: seq<Mapping>)
    requires ReturnedUpTo(fs0, fs, ms, |ms|)
    ensures AllReturnable(fs0, ms) && NothingMoved(fs, ms)
  {
  }

  lemma CompletedMove(fs: Fs, src: Path, dst: Path)
    requires src != dst && MovePossible(fs, src, dst, Completed)
    ensures VisibleNames(At(AfterMove(fs, src, dst, Completed), src)) == {}
    ensures VisibleNames(At(AfterMove(fs, src, dst, Completed), dst)) != {}
  {
    var fs' := AfterMove(fs, src, dst, Completed);
    var n :| n in VisibleNames(At(fs, src));
    assert n in VisibleNames(At(fs', dst));
  }

  /** The last event was a move of `m` that an I/O failure stopped after some of the names. */
  ghost predicate LeftInPart(log: Log, m: Mapping) {
    log.Then? && IsForward(log.last, m) && log.last.moved.Stopped? && log.last.moved.moved != {}
  }

  /** The last event was a move of `m`, and it alone tells whether there is something to
      move back. */
  ghost predicate FailedMoving(log: Log, fs: Fs, m: Mapping) {
    log.Then? && IsForward(log.last, m) && (Returnable(fs, m) <==> LeftInPart(log, m))
  }

  /** The log tells whether something of the last mapping has been moved. */
  ghost predicate LastTold(log: Log, fs: Fs, ms: seq<Mapping>) {
    ms != [] ==> (Returnable(fs, ms[|ms| - 1]) <==> LeftInPart(log, ms[|ms| - 1]))
  }

  lemma FailedMove(fs: Fs, m: Mapping, o: MoveOutcome)
    requires m.src != m.dst && VisibleNames(At(fs, m.dst)) == {} && MovePossible(fs, m.src, m.dst, o) && !o.Completed?
    ensures Returnable(AfterMove(fs, m.src, m.dst, o), m) <==> o.Stopped? && o.moved != {}
  {
    var d := At(AfterMove(fs, m.src, m.dst, o), m.dst);
    if o.Stopped? {
      assert forall n :: n in At(fs, m.dst) && Visible(n) ==> n in VisibleNames(At(fs, m.dst));
      assert forall n :: n in VisibleNames(d) <==> n in o.moved;
    }
  }

  lemma FailureTold(log: Log, fs: Fs, ms: seq<Mapping>, i: nat)
    requires Separate(ms) && i < |ms| && Frontier(fs, ms, i) && FailedMoving(log, fs, ms[i])
    ensures LastTold(log, fs, ms)
  {
    if i < |ms| - 1 {
      assert ms[i].dst != ms[|ms| - 1].dst;
    }
  }

  lemma TouchStep(fs: Fs, ms: seq<Mapping>, i: nat, marked: bool)
    requires Separate(ms) && i < |ms| && MovedUpTo(fs, ms, i)
    ensures MovedUpTo(AfterTouch(fs, ms[i].src, marked), ms, i)
  {
    var fs' := AfterTouch(fs, ms[i].src, marked);
    forall j | 0 <= j < |ms|
      ensures At(fs', ms[j].dst) == At(fs, ms[j].dst)
      ensures j < i && ms[j].src != "" ==> At(fs', ms[j].src) == At(fs, ms[j].src)
    {
    }
  }

  lemma MoveFrame(fs: Fs, src: Path, dst: Path, o: MoveOutcome, p: Path)
    requires p != src && p != dst
    ensures At(AfterMove(fs, src, dst, o), p) == At(fs, p)
    ensures p !in fs ==> p !in AfterMove(fs, src, dst, o)
  {
  }

  /** One round of Migrate. */
  lemma MoveStep(fs: Fs, ms: seq<Mapping>, i: nat, o: MoveOutcome)
    requires Separate(ms) && i < |ms| && MovedUpTo(fs, ms, i) && MovePossible(fs, ms[i].src, ms[i].dst, o)
    ensures var fs' := AfterMove(fs, ms[i].src, ms[i].dst, o);
            if o.Completed? then MovedUpTo(fs', ms, i + 1) else Frontier(fs', ms, i)
  {
    var fs' := AfterMove(fs, ms[i].src, ms[i].dst, o);
    if !o.Rejected? {
      MoveFrame(fs, ms[i].src, ms[i].dst, o, "");
      forall j | 0 <= j < |ms| && j != i
        ensures At(fs', ms[j].dst) == At(fs, ms[j].dst) && (j < i ==> At(fs', ms[j].src) == At(fs, ms[j].src))
      {
        MoveFrame(fs, ms[i].src, ms[i].dst, o, ms[j].dst);
        if j < i {
          MoveFrame(fs, ms[i].src, ms[i].dst, o, ms[j].src);
        }
      }
    }
    if o.Completed? {
      CompletedMove(fs, ms[i].src, ms[i].dst);
    }
  }

  /** One round of RevertMigration. */
  lemma ReturnStep(fs0: Fs, fs: Fs, ms: seq<Mapping>, i: nat, o: MoveOutcome)
    requires Separate(ms) && i < |ms| && ReturnedUpTo(fs0, fs, ms, i)
    requires MovePossible(fs, ms[i].dst, ms[i].src, o)
    ensures var fs' := AfterMove(fs, ms[i].dst, ms[i].src, o);
            && (o.Completed? ==> ReturnedUpTo(fs0, fs', ms, i + 1))
            && (!o.Completed? && !o.Stopped? ==> fs' == fs && !Returnable(fs0, ms[i]))
  {
    if o.Completed? {
      MoveFrame(fs, ms[i].dst, ms[i].src, o, "");
      CompletedMove(fs, ms[i].dst, ms[i].src);
      forall j | 0 <= j < |ms| && j != i
        ensures At(AfterMove(fs, ms[i].dst, ms[i].src, o), ms[j].dst) == At(fs, ms[j].dst)
      {
        MoveFrame(fs, ms[i].dst, ms[i].src, o, ms[j].dst);
      }
    }
  }

  /** A revert that gets stuck behind a frontier has nothing left to bring back. */
  lemma StuckMeansDone(fs0: Fs, fs: Fs, ms: seq<Mapping>, i: nat, k: nat)
    requires Frontier(fs0, ms, k) && ReturnedUpTo(fs0, fs, ms, i)
    requires i < |ms| ==> !Returnable(fs0, ms[i])
    ensures NothingMoved(fs, ms)
  {
  }

  /** After a Migrate that failed at mapping `k`, every mapping has something to return exactly
      when the last one has.  A failure further up leaves that one untouched. */
  lemma RestartsNeedLastMapping(fs: Fs, ms: seq<Mapping>, k: nat)
    requires Frontier(fs, ms, k)
    ensures AllReturnable(fs, ms) <==> ms == [] || Returnable(fs, ms[|ms| - 1])
    ensures k + 1 < |ms| ==> !AllReturnable(fs, ms)
  {
    if k + 1 < |ms| {
      assert !Returnable(fs, ms[|ms| - 1]);
    }
  }

  /** For instance a failure at the first of two mappings, with all data in place: the revert
      stops at once, and no container is started again. */
  lemma NothingToReturn()
    ensures var ms := [Mapping("/a", "/b"), Mapping("/c", "/d")];
            var fs: Fs := map["/a" := map["x" := "1"], "/c" := map["y" := "2"]];
            Separate(ms) && Fresh(fs, ms) && Frontier(fs, ms, 0) && !AllReturnable(fs, ms)
  {
    var ms := [Mapping("/a", "/b"), Mapping("/c", "/d")];
    var fs: Fs := map["/a" := map["x" := "1"], "/c" := map["y" := "2"]];
    MoveBegins(fs, ms);
    RestartsNeedLastMapping(fs, ms, 0);
  }
}
