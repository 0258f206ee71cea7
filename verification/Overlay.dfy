/** The upper directories of containers, and how `touch` and the shell's `mv` of every
    visible entry change them (utils/fileutils.go). */
module Overlay {
  type Path = string
  type Name = string
  type Content = string
  /** The top-level entries of a directory; an entry's content is its whole subtree. */
  type Dir = map<Name, Content>
  type Fs = map<Path, Dir>

  /** A docker upper directory and the pouch upper directory that takes its place. */
  datatype Mapping = Mapping(src: Path, dst: Path)

  const MARKER: Name := "d2p-migrator.txt"

  /** Names that the shell pattern `*` matches. */
  predicate Visible(n: Name) { n == "" || n[0] != '.' }

  function At(fs: Fs, p: Path): Dir { if p in fs then fs[p] else map[] }

  function VisibleNames(d: Dir): set<Name> { set n | n in d && Visible(n) }

  function VisiblePart(d: Dir): Dir { map n | n in d && Visible(n) :: d[n] }

  function HiddenPart(d: Dir): Dir { map n | n in d && !Visible(n) :: d[n] }

  function Pick(d: Dir, names: set<Name>): Dir { map n | n in d && n in names :: d[n] }

  // ---- mv ---------------------------------------------------------------------------

  /** How `MoveDir` can end: refused for an empty path, failed because the pattern matched
      nothing, stopped after moving some of the names, or completed. */
  datatype MoveOutcome = Rejected | NoMatch | Stopped(moved: set<Name>) | Completed

  predicate MovePossible(fs: Fs, src: Path, dst: Path, o: MoveOutcome) {
    if src == "" || dst == "" then o.Rejected?
    else if VisibleNames(At(fs, src)) == {} then o.NoMatch?
    else o.Completed? || (o.Stopped? && o.moved <= VisibleNames(At(fs, src)))
  }

  function Transfer(fs: Fs, src: Path, dst: Path, names: set<Name>): Fs {
    fs[src := At(fs, src) - names][dst := At(fs, dst) + Pick(At(fs, src), names)]
  }

  function AfterMove(fs: Fs, src: Path, dst: Path, o: MoveOutcome): Fs {
    match o
    case Rejected => fs
    case NoMatch => fs
    case Stopped(moved) => Transfer(fs, src, dst, moved)
    case Completed => Transfer(fs, src, dst, VisibleNames(At(fs, src)))
  }

  /** `touch dir/d2p-migrator.txt`; with an empty `dir` it would touch the root directory,
      which holds no container data. */
  function AfterTouch(fs: Fs, dir: Path, ok: bool): Fs {
    if ok && dir != "" && MARKER !in At(fs, dir) then fs[dir := At(fs, dir)[MARKER := ""]] else fs
  }

  /** Hidden are the names that begin with a dot. */
  lemma HiddenMeans(n: Name)
    ensures !Visible(n) <==> exists rest: string :: n == ['.'] + rest
  {
    if !Visible(n) {
      assert n == ['.'] + n[1..];
    }
  }

  /** A move is refused for an empty path, fails when every name is hidden, and leaves the
      directories as they are in both cases. */
  lemma MoveFails(fs: Fs, src: Path, dst: Path, o: MoveOutcome)
    requires MovePossible(fs, src, dst, o)
    ensures o.Rejected? <==> src == "" || dst == ""
    ensures o.NoMatch? <==> src != "" && dst != "" && forall n :: n in At(fs, src) ==> !Visible(n)
    ensures o.Rejected? || o.NoMatch? ==> AfterMove(fs, src, dst, o) == fs
  {
    assert forall n :: n in At(fs, src) && Visible(n) ==> n in VisibleNames(At(fs, src));
  }

  /** Otherwise some of the visible names, in the end all of them, are in the destination with
      their content and no longer in the source; nothing else has changed. */
  lemma MoveMoves(fs: Fs, src: Path, dst: Path, o: MoveOutcome, n: Name)
    requires MovePossible(fs, src, dst, o) && src != dst && (o.Completed? || o.Stopped?)
    ensures var moved := n in At(fs, src) && Visible(n) && (o.Stopped? ==> n in o.moved);
            var fs' := AfterMove(fs, src, dst, o);
            && (n in At(fs', src) <==> n in At(fs, src) && !moved)
            && (n in At(fs', src) ==> At(fs', src)[n] == At(fs, src)[n])
            && (n in At(fs', dst) <==> n in At(fs, dst) || moved)
            && (n in At(fs', dst) ==> At(fs', dst)[n] == if moved then At(fs, src)[n] else At(fs, dst)[n])
    ensures forall p :: p != src && p != dst ==> At(AfterMove(fs, src, dst, o), p) == At(fs, p)
  {
    assert n in VisibleNames(At(fs, src)) <==> n in At(fs, src) && Visible(n);
  }

  /** Marking adds an empty file and touches no other entry. */
  lemma TouchMarks(fs: Fs, dir: Path, ok: bool, p: Path)
    ensures ok && dir != "" && p == dir && "d2p-migrator.txt" !in At(fs, p) ==>
              At(AfterTouch(fs, dir, ok), p) == At(fs, p)["d2p-migrator.txt" := ""]
    ensures !ok || dir == "" || p != dir || "d2p-migrator.txt" in At(fs, p) ==>
              At(AfterTouch(fs, dir, ok), p) == At(fs, p)
  {
  }

  // ---- Layout -----------------------------------------------------------------------

  /** The directories of the mappings are pairwise distinct; a source path may be empty. */
  ghost predicate Separate(ms: seq<Mapping>) {
    && (forall i, j :: 0 <= i < |ms| && 0 <= j < |ms| ==> ms[i].src != ms[j].dst)
    && (forall i, j :: 0 <= i < j < |ms| ==> ms[i].dst != ms[j].dst)
    && (forall i, j :: 0 <= i < j < |ms| ==> ms[i].src != ms[j].src || ms[i].src == "")
  }

  /** New snapshots hold no visible name, and the empty path is no directory. */
  ghost predicate Fresh(fs: Fs, ms: seq<Mapping>) {
    && "" !in fs
    && (forall i :: 0 <= i < |ms| ==> VisibleNames(At(fs, ms[i].dst)) == {})
  }

  // ---- Conservation -----------------------------------------------------------------

  /** `d` is `d0`, possibly with the empty marker file added. */
  predicate SameOrMarked(d0: Dir, d: Dir) {
    d == d0 || (MARKER !in d0 && d == d0[MARKER := ""])
  }

  /** Everything that belongs to the container, wherever it currently lies. */
  function Gathered(fs: Fs, m: Mapping): Dir {
    At(fs, m.src) + VisiblePart(At(fs, m.dst))
  }

  /** Nothing of the pair is lost, duplicated or altered. */
  ghost predicate Conserved(fs0: Fs, fs: Fs, m: Mapping) {
    && At(fs, m.src).Keys !! VisibleNames(At(fs, m.dst))
    && SameOrMarked(At(fs0, m.src), Gathered(fs, m))
    && HiddenPart(At(fs, m.dst)) == At(fs0, m.dst)
  }

  /** The source is as it was, up to the marker, and the destination exactly as it was. */
  ghost predicate Restored(fs0: Fs, fs: Fs, m: Mapping) {
    && SameOrMarked(At(fs0, m.src), At(fs, m.src))
    && At(fs, m.dst) == At(fs0, m.dst)
  }

  /** Every visible name lies in the destination; only hidden names stay behind. */
  ghost predicate Migrated(fs0: Fs, fs: Fs, m: Mapping) {
    && VisibleNames(At(fs, m.src)) == {}
    && SameOrMarked(VisiblePart(At(fs0, m.src)), VisiblePart(At(fs, m.dst)))
    && HiddenPart(At(fs, m.src)) == HiddenPart(At(fs0, m.src))
  }

  /** Everything the source held is now visible in the destination. */
  ghost predicate ArrivedWhole(fs0: Fs, fs: Fs, m: Mapping) {
    SameOrMarked(At(fs0, m.src), VisiblePart(At(fs, m.dst)))
  }

  ghost predicate AllConserved(fs0: Fs, fs: Fs, ms: seq<Mapping>) {
    forall i :: 0 <= i < |ms| ==> Conserved(fs0, fs, ms[i])
  }

  ghost predicate AllRestored(fs0: Fs, fs: Fs, ms: seq<Mapping>) {
    forall i :: 0 <= i < |ms| ==> Restored(fs0, fs, ms[i])
  }

  ghost predicate AllMigrated(fs0: Fs, fs: Fs, ms: seq<Mapping>) {
    forall i :: 0 <= i < |ms| ==> Migrated(fs0, fs, ms[i])
  }

  /** Nothing is missing from exactly the directories that held no hidden entry. */
  ghost predicate WholeUnlessHidden(fs0: Fs, fs: Fs, ms: seq<Mapping>) {
    forall i :: 0 <= i < |ms| ==> (ArrivedWhole(fs0, fs, ms[i]) <==> HiddenPart(At(fs0, ms[i].src)) == map[])
  }

  lemma ConservedInitially(fs: Fs, m: Mapping)
    requires VisibleNames(At(fs, m.dst)) == {}
    ensures Conserved(fs, fs, m)
  {
    assert forall n :: n in At(fs, m.dst) && Visible(n) ==> n in VisibleNames(At(fs, m.dst));
    assert HiddenPart(At(fs, m.dst)) == At(fs, m.dst);
    assert Gathered(fs, m) == At(fs, m.src);
  }

  lemma ConservedAndEmptyIsRestored(fs0: Fs, fs: Fs, m: Mapping)
    requires Conserved(fs0, fs, m) && VisibleNames(At(fs, m.dst)) == {}
    ensures Restored(fs0, fs, m)
  {
    var d := At(fs, m.dst);
    assert forall n :: n in d && Visible(n) ==> n in VisibleNames(d);
    assert HiddenPart(d) == d;
    assert Gathered(fs, m) == At(fs, m.src);
  }

  /** With nothing visible in `s`, the visible part of both is that of `d`. */
  lemma PartsOfGathered(s: Dir, d: Dir)
    requires VisibleNames(s) == {}
    ensures VisiblePart(s + VisiblePart(d)) == VisiblePart(d)
    ensures HiddenPart(s + VisiblePart(d)) == HiddenPart(s)
  {
    assert forall n :: n in s && Visible(n) ==> n in VisibleNames(s);
  }

  lemma PartsOfMarked(d0: Dir, d: Dir)
    requires SameOrMarked(d0, d)
    ensures SameOrMarked(VisiblePart(d0), VisiblePart(d)) && HiddenPart(d) == HiddenPart(d0)
  {
    if d != d0 {
      assert VisiblePart(d) == VisiblePart(d0)[MARKER := ""];
    }
  }

  lemma ConservedAndMovedIsMigrated(fs0: Fs, fs: Fs, m: Mapping)
    requires Conserved(fs0, fs, m) && VisibleNames(At(fs, m.src)) == {}
    ensures Migrated(fs0, fs, m)
  {
    PartsOfGathered(At(fs, m.src), At(fs, m.dst));
    PartsOfMarked(At(fs0, m.src), Gathered(fs, m));
  }

  /** A migrated container finds all its entries exactly when none of them was hidden. */
  lemma WholeExactlyWithoutHidden(fs0: Fs, fs: Fs, m: Mapping)
    requires Migrated(fs0, fs, m)
    ensures ArrivedWhole(fs0, fs, m) <==> HiddenPart(At(fs0, m.src)) == map[]
  {
    var d0, d := At(fs0, m.src), At(fs, m.dst);
    if HiddenPart(d0) == map[] {
      assert forall n :: n in d0 && !Visible(n) ==> n in HiddenPart(d0);
      assert VisiblePart(d0) == d0;
    } else {
      var n :| n in HiddenPart(d0);
      assert n in d0 && n !in VisiblePart(d) && n != MARKER;
    }
  }

  /** For instance a directory with a visible and a hidden entry does not arrive whole. */
  lemma HiddenEntryStaysBehind()
    ensures var m := Mapping("/s", "/d");
            var fs0 := map["/s" := map[".bashrc" := "x", "a" := "y"], "/d" := map[]];
            var fs := AfterMove(fs0, m.src, m.dst, Completed);
            MovePossible(fs0, m.src, m.dst, Completed) && Migrated(fs0, fs, m) && !ArrivedWhole(fs0, fs, m)
  {
    var m := Mapping("/s", "/d");
    var fs0 := map["/s" := map[".bashrc" := "x", "a" := "y"], "/d" := map[]];
    var fs := AfterMove(fs0, m.src, m.dst, Completed);
    assert "a" in VisibleNames(At(fs0, "/s"));
    ConservedInitially(fs0, m);
    ForwardConserves(fs0, fs0, m, VisibleNames(At(fs0, "/s")));
    ConservedAndMovedIsMigrated(fs0, fs, m);
    assert ".bashrc" in HiddenPart(At(fs0, "/s"));
    WholeExactlyWithoutHidden(fs0, fs, m);
  }

  lemma TouchConserves(fs0: Fs, fs: Fs, m: Mapping, ok: bool)
    requires m.src != m.dst && Conserved(fs0, fs, m) && VisibleNames(At(fs, m.dst)) == {}
    ensures Conserved(fs0, AfterTouch(fs, m.src, ok), m)
  {
    var fs' := AfterTouch(fs, m.src, ok);
    if fs' != fs {
      assert MARKER !in VisibleNames(At(fs, m.dst));
      assert Gathered(fs', m) == Gathered(fs, m)[MARKER := ""];
    }
  }

  /** Entries leave `s` for `d`. */
  lemma ShiftOut(s: Dir, d: Dir, names: set<Name>)
    requires s.Keys !! VisibleNames(d) && names <= VisibleNames(s)
    ensures (s - names).Keys !! VisibleNames(d + Pick(s, names))
    ensures (s - names) + VisiblePart(d + Pick(s, names)) == s + VisiblePart(d)
    ensures HiddenPart(d + Pick(s, names)) == HiddenPart(d)
  {
    var d' := d + Pick(s, names);
    assert d'.Keys == d.Keys + names;
    assert ((s - names) + VisiblePart(d')).Keys == (s + VisiblePart(d)).Keys;
  }

  /** Entries come back to `s` from `d`. */
  lemma ShiftIn(s: Dir, d: Dir, names: set<Name>)
    requires s.Keys !! VisibleNames(d) && names <= VisibleNames(d)
    ensures (s + Pick(d, names)).Keys !! VisibleNames(d - names)
    ensures (s + Pick(d, names)) + VisiblePart(d - names) == s + VisiblePart(d)
    ensures HiddenPart(d - names) == HiddenPart(d)
  {
    var s' := s + Pick(d, names);
    assert s'.Keys == s.Keys + names;
    assert (s' + VisiblePart(d - names)).Keys == (s + VisiblePart(d)).Keys;
  }

  lemma ForwardConserves(fs0: Fs, fs: Fs, m: Mapping, names: set<Name>)
    requires m.src != m.dst && Conserved(fs0, fs, m)
    requires names <= VisibleNames(At(fs, m.src))
    ensures Conserved(fs0, Transfer(fs, m.src, m.dst, names), m)
  {
    ShiftOut(At(fs, m.src), At(fs, m.dst), names);
  }

  lemma BackwardConserves(fs0: Fs, fs: Fs, m: Mapping, names: set<Name>)
    requires m.src != m.dst && Conserved(fs0, fs, m)
    requires names <= VisibleNames(At(fs, m.dst))
    ensures Conserved(fs0, Transfer(fs, m.dst, m.src, names), m)
  {
    ShiftIn(At(fs, m.src), At(fs, m.dst), names);
  }
}
