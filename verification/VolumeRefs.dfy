/** migrator/volume_migrate.go: which containers use which volume.
    The index keeps a set of container IDs as one comma-joined string and asks for
    membership with a substring search. */
module VolumeRefs {
  import opened GoStrings

  datatype Mount = Mount(name: string, driver: string)
  datatype Container = Container(id: string, mounts: seq<Mount>)
  type Refs = map<string, string>

  /** IDs that can be told apart once joined. */
  predicate WellFormedId(id: string) { id != "" && ',' !in id }

  ghost predicate WellFormed(cs: seq<Container>) {
    forall i :: 0 <= i < |cs| ==> WellFormedId(cs[i].id)
  }

  // ---- What one mount does to the index -------------------------------------------

  function CountMount(refs: Refs, id: string, m: Mount): Refs {
    if m.driver == "" then refs
    else if m.name !in refs || refs[m.name] == "" then refs[m.name := id]
    else if !Contains(refs[m.name], id) then refs[m.name := Join([refs[m.name], id], ',')]
    else refs
  }

  function CountMounts(refs: Refs, id: string, mounts: seq<Mount>): Refs {
    if mounts == [] then refs
    else CountMount(CountMounts(refs, id, mounts[..|mounts| - 1]), id, mounts[|mounts| - 1])
  }

  /** The index after counting a list of containers from an empty map. */
  function CountAll(cs: seq<Container>): Refs {
    if cs == [] then map[]
    else CountMounts(CountAll(cs[..|cs| - 1]), cs[|cs| - 1].id, cs[|cs| - 1].mounts)
  }

  // ---- The ordered set it stands for ----------------------------------------------

  predicate MountsVolume(mounts: seq<Mount>, name: string) {
    exists k | 0 <= k < |mounts| :: mounts[k].name == name && mounts[k].driver != ""
  }

  /** The distinct IDs of containers using volume `name`, in first-reference order. */
  function Users(cs: seq<Container>, name: string): seq<string> {
    if cs == [] then []
    else
      var ids, c := Users(cs[..|cs| - 1], name), cs[|cs| - 1];
      if MountsVolume(c.mounts, name) && c.id !in ids then ids + [c.id] else ids
  }

  /** That list holds the ID of every user, only those, and each once. */
  lemma {:induction false} UsersAreDistinctUsers(cs: seq<Container>, name: string)
    ensures forall k :: 0 <= k < |cs| && MountsVolume(cs[k].mounts, name) ==> cs[k].id in Users(cs, name)
    ensures forall id :: id in Users(cs, name) ==>
              exists k :: 0 <= k < |cs| && cs[k].id == id && MountsVolume(cs[k].mounts, name)
    ensures forall i, j :: 0 <= i < j < |Users(cs, name)| ==> Users(cs, name)[i] != Users(cs, name)[j]
  {
    if cs != [] {
      var init := cs[..|cs| - 1];
      UsersAreDistinctUsers(init, name);
      assert forall k :: 0 <= k < |init| ==> init[k] == cs[k];
    }
  }

  /** A mount without a driver is no volume. */
  lemma MountsMeans(mounts: seq<Mount>, name: string)
    ensures MountsVolume(mounts, name) <==> exists m :: m in mounts && m.name == name && m.driver != ""
  {
  }

  /** A longer list of containers only adds users behind the others. */
  lemma {:induction false} UsersGrow(cs: seq<Container>, more: seq<Container>, name: string)
    ensures Users(cs, name) <= Users(cs + more, name)
  {
    if more == [] {
      assert cs + more == cs;
    } else {
      var n := |more| - 1;
      assert (cs + more)[..|cs| + n] == cs + more[..n];
      UsersGrow(cs, more[..n], name);
    }
  }

  /** Some ID of the list has `id` as a substring. */
  predicate Shadowed(ids: seq<string>, id: string) {
    exists k | 0 <= k < |ids| :: Contains(ids[k], id)
  }

  /** What the substring test really keeps: an ID enters unless it is a substring of one
      already present. */
  function Kept(cs: seq<Container>, name: string): (ids: seq<string>) {
    if cs == [] then []
    else
      var ids := Kept(cs[..|cs| - 1], name);
      var c := cs[|cs| - 1];
      if MountsVolume(c.mounts, name) && !Shadowed(ids, c.id) then ids + [c.id] else ids
  }

  // ---- The string index is the joined list -----------------------------------------

  /** The index entry of `name` is the list `ids`; an absent key is the empty list. */
  ghost predicate Represents(refs: Refs, name: string, ids: seq<string>) {
    && (name in refs <==> ids != [])
    && (name in refs ==> refs[name] == Join(ids, ','))
    && (forall i :: 0 <= i < |ids| ==> WellFormedId(ids[i]))
  }

  lemma ShadowedMeans(ids: seq<string>, id: string)
    ensures Shadowed(ids, id) <==>
              exists k, pre: string, post: string :: 0 <= k < |ids| && ids[k] == pre + id + post
  {
    if k :| 0 <= k < |ids| && Contains(ids[k], id) {
      ContainsParts(ids[k], id);
      var pre: string, post: string :| ids[k] == pre + id + post;
    }
    if k, pre: string, post: string :| 0 <= k < |ids| && ids[k] == pre + id + post {
      ContainsParts(ids[k], id);
      assert Contains(ids[k], id);
    }
  }

  lemma JoinNonEmpty(ids: seq<string>)
    requires ids != [] && ids[0] != ""
    ensures Join(ids, ',') != ""
  {
  }

  lemma CountMountStep(refs: Refs, id: string, m: Mount, name: string, ids: seq<string>)
    requires WellFormedId(id) && Represents(refs, name, ids)
    ensures Represents(CountMount(refs, id, m), name,
                       if m.name == name && m.driver != "" && !Shadowed(ids, id) then ids + [id] else ids)
  {
    if m.name == name && m.driver != "" && ids != [] {
      JoinNonEmpty(ids);
      ContainsJoin(ids, ',', id);
      JoinAppend(ids, id, ',');
      assert Join([refs[name], id], ',') == refs[name] + [','] + id;
    }
  }

  /** Counting every mount of one container, however often it mounts the volume. */
  lemma {:induction false} CountMountsStep(refs: Refs, id: string, mounts: seq<Mount>, name: string, ids: seq<string>)
    requires WellFormedId(id) && Represents(refs, name, ids)
    ensures Represents(CountMounts(refs, id, mounts), name,
                       if MountsVolume(mounts, name) && !Shadowed(ids, id) then ids + [id] else ids)
  {
    if mounts != [] {
      var init, m := mounts[..|mounts| - 1], mounts[|mounts| - 1];
      CountMountsStep(refs, id, init, name, ids);
      var ids' := if MountsVolume(init, name) && !Shadowed(ids, id) then ids + [id] else ids;
      CountMountStep(CountMounts(refs, id, init), id, m, name, ids');
      if MountsVolume(init, name) && !Shadowed(ids, id) {
        ContainsRefl(id);
        assert Contains(ids'[|ids|], id);
      }
      assert MountsVolume(init, name) ==> MountsVolume(mounts, name) by {
        if k :| 0 <= k < |init| && init[k].name == name && init[k].driver != "" {
          assert mounts[k].name == name;
        }
      }
      assert mounts[|mounts| - 1] == m;
      if MountsVolume(mounts, name) {
        var k :| 0 <= k < |mounts| && mounts[k].name == name && mounts[k].driver != "";
        assert k < |init| ==> init[k].name == name;
      }
    }
  }

  /** With no assumption on lengths, every entry splits into exactly the kept IDs. */
  lemma {:induction false} IndexIsKept(cs: seq<Container>, name: string)
    requires WellFormed(cs)
    ensures Represents(CountAll(cs), name, Kept(cs, name))
    ensures Kept(cs, name) != [] ==> Split(CountAll(cs)[name], ',') == Kept(cs, name)
  {
    if cs != [] {
      var init, c := cs[..|cs| - 1], cs[|cs| - 1];
      IndexIsKept(init, name);
      CountMountsStep(CountAll(init), c.id, c.mounts, name, Kept(init, name));
    }
    if Kept(cs, name) != [] {
      SplitJoin(Kept(cs, name), ',');
    }
  }

  // ---- When the index is the ordered set --------------------------------------------

  /** Every user's ID is at least hidden in a kept one. */
  lemma {:induction false} UsersAreCovered(cs: seq<Container>, name: string)
    ensures forall k :: 0 <= k < |cs| && MountsVolume(cs[k].mounts, name) ==> Shadowed(Kept(cs, name), cs[k].id)
  {
    if cs != [] {
      var n := |cs| - 1;
      UsersAreCovered(cs[..n], name);
      ContainsRefl(cs[n].id);
      var before, after := Kept(cs[..n], name), Kept(cs, name);
      assert cs[n].id in after ==> Contains(after[|after| - 1], cs[n].id) || after == before;
      forall k | 0 <= k < |cs| && MountsVolume(cs[k].mounts, name)
        ensures Shadowed(after, cs[k].id)
      {
        if k < n {
          assert cs[..n][k] == cs[k];
          var i :| 0 <= i < |before| && Contains(before[i], cs[k].id);
          assert Contains(after[i], cs[k].id);
        } else if !Shadowed(before, cs[n].id) {
          assert Contains(after[|before|], cs[n].id);
        }
      }
    }
  }

  /** The user at position `j`, if it is a new one, is not hidden in an earlier one. */
  ghost predicate Unshadowed(cs: seq<Container>, j: nat, name: string)
    requires j < |cs|
  {
    MountsVolume(cs[j].mounts, name) && cs[j].id !in Users(cs[..j], name) ==> !Shadowed(Users(cs[..j], name), cs[j].id)
  }

  /** No container using the volume has an ID that is a proper part of the ID of an
      earlier user. */
  ghost predicate NoShadowing(cs: seq<Container>, name: string) {
    forall j :: 0 <= j < |cs| ==> Unshadowed(cs, j, name)
  }

  lemma NoShadowingPrefix(cs: seq<Container>, name: string)
    requires cs != []
    ensures NoShadowing(cs, name) <==> NoShadowing(cs[..|cs| - 1], name) && Unshadowed(cs, |cs| - 1, name)
  {
    var n := |cs| - 1;
    forall j | 0 <= j < n
      ensures Unshadowed(cs[..n], j, name) <==> Unshadowed(cs, j, name)
    {
      assert cs[..n][..j] == cs[..j];
    }
  }

  lemma MemberIsShadowed(ids: seq<string>, id: string)
    ensures id in ids ==> Shadowed(ids, id)
  {
    ContainsRefl(id);
    if k :| 0 <= k < |ids| && ids[k] == id {
      assert Contains(ids[k], id);
    }
  }

  lemma {:induction false} NoShadowingSuffices(cs: seq<Container>, name: string)
    requires NoShadowing(cs, name)
    ensures Kept(cs, name) == Users(cs, name)
  {
    if cs != [] {
      var init, c := cs[..|cs| - 1], cs[|cs| - 1];
      NoShadowingPrefix(cs, name);
      NoShadowingSuffices(init, name);
      MemberIsShadowed(Users(init, name), c.id);
    }
  }

  /** If an ID is hidden in an earlier one, some user is missing from the index for good. */
  lemma {:induction false} ShadowingLosesUser(cs: seq<Container>, name: string)
    requires !NoShadowing(cs, name)
    ensures exists k :: 0 <= k < |cs| && MountsVolume(cs[k].mounts, name) && cs[k].id !in Kept(cs, name)
  {
    var n := |cs| - 1;
    NoShadowingPrefix(cs, name);
    if NoShadowing(cs[..n], name) {
      NoShadowingSuffices(cs[..n], name);
      assert cs[n].id !in Kept(cs, name);
    } else {
      ShadowingLosesUser(cs[..n], name);
      var k :| 0 <= k < n && MountsVolume(cs[..n][k].mounts, name) && cs[..n][k].id !in Kept(cs[..n], name);
      UsersAreCovered(cs[..n], name);
      assert cs[k] == cs[..n][k];
    }
  }

  /** The substring index equals the ordered set of users exactly when no user's ID is
      hidden inside the ID of an earlier user. */
  lemma KeptIsUsers(cs: seq<Container>, name: string)
    ensures Kept(cs, name) == Users(cs, name) <==> NoShadowing(cs, name)
  {
    if NoShadowing(cs, name) {
      NoShadowingSuffices(cs, name);
    } else {
      ShadowingLosesUser(cs, name);
      UsersAreDistinctUsers(cs, name);
    }
  }

  ghost predicate SameLength(cs: seq<Container>) {
    forall i, j :: 0 <= i < |cs| && 0 <= j < |cs| ==> |cs[i].id| == |cs[j].id|
  }

  /** Docker's IDs all have one length, so its index is exact: each entry splits into the
      distinct users in first-reference order, and unused volumes have no entry. */
  lemma IndexIsExact(cs: seq<Container>, name: string)
    requires WellFormed(cs) && SameLength(cs)
    ensures name in CountAll(cs) <==> exists k :: 0 <= k < |cs| && MountsVolume(cs[k].mounts, name)
    ensures name in CountAll(cs) ==> Split(CountAll(cs)[name], ',') == Users(cs, name)
    ensures name in CountAll(cs) ==>
              forall c: Container :: WellFormedId(c.id) && cs != [] && |c.id| == |cs[0].id| ==>
                (Contains(CountAll(cs)[name], c.id) <==> c.id in Users(cs, name))
  {
    SameLengthNeverShadows(cs, name);
    KeptIsUsers(cs, name);
    IndexIsKept(cs, name);
    UsersAreDistinctUsers(cs, name);
    var ids := Users(cs, name);
    if ids != [] {
      assert ids[0] in ids;
      forall c: Container | WellFormedId(c.id) && |c.id| == |cs[0].id|
        ensures Contains(CountAll(cs)[name], c.id) <==> c.id in ids
      {
        ContainsJoin(ids, ',', c.id);
        SameLengthMembership(cs, name, c.id);
      }
    }
  }

  lemma SameLengthMembership(cs: seq<Container>, name: string, id: string)
    requires SameLength(cs) && cs != [] && |id| == |cs[0].id|
    ensures Shadowed(Users(cs, name), id) <==> id in Users(cs, name)
  {
    var ids := Users(cs, name);
    UsersAreDistinctUsers(cs, name);
    forall i | 0 <= i < |ids|
      ensures Contains(ids[i], id) <==> ids[i] == id
    {
      assert ids[i] in ids;
      ContainsSameLength(ids[i], id);
    }
  }

  lemma SameLengthNeverShadows(cs: seq<Container>, name: string)
    requires SameLength(cs)
    ensures NoShadowing(cs, name)
  {
    forall j | 0 <= j < |cs|
      ensures Unshadowed(cs, j, name)
    {
      if j > 0 {
        SameLengthMembership(cs[..j], name, cs[j].id);
      }
    }
  }

  /** The user at position `j` has this ID, and no earlier user's ID contains it. */
  ghost predicate Enters(cs: seq<Container>, j: nat, name: string, id: string)
    requires j < |cs|
  {
    MountsVolume(cs[j].mounts, name) && cs[j].id == id && !Shadowed(Users(cs[..j], name), id)
  }

  ghost predicate EntersAnywhere(cs: seq<Container>, name: string, id: string) {
    exists j :: 0 <= j < |cs| && Enters(cs, j, name, id)
  }

  lemma {:induction false} KeptAreUsers(cs: seq<Container>, name: string)
    ensures forall id :: id in Kept(cs, name) ==> id in Users(cs, name)
  {
    if cs != [] {
      KeptAreUsers(cs[..|cs| - 1], name);
    }
  }

  /** It makes no difference whether an ID is looked for among the kept ones or all users. */
  lemma ShadowedAlike(cs: seq<Container>, name: string, id: string)
    ensures Shadowed(Kept(cs, name), id) <==> Shadowed(Users(cs, name), id)
  {
    var kept, users := Kept(cs, name), Users(cs, name);
    if i :| 0 <= i < |kept| && Contains(kept[i], id) {
      KeptAreUsers(cs, name);
      assert kept[i] in users;
    }
    if i :| 0 <= i < |users| && Contains(users[i], id) {
      UsersAreDistinctUsers(cs, name);
      UsersAreCovered(cs, name);
      assert users[i] in users;
      var j :| 0 <= j < |kept| && Contains(kept[j], users[i]);
      ContainsTransitive(kept[j], users[i], id);
    }
  }

  /** An ID is in the index exactly when one of the users with it came before any user whose
      ID contains it; otherwise it is lost for good. */
  lemma {:induction false} HiddenIdIsLost(cs: seq<Container>, name: string, id: string)
    ensures id in Kept(cs, name) <==> EntersAnywhere(cs, name, id)
  {
    if cs != [] {
      var n := |cs| - 1;
      HiddenIdIsLost(cs[..n], name, id);
      EntersLater(cs, name, id);
      ShadowedAlike(cs[..n], name, id);
    }
  }

  lemma EntersLater(cs: seq<Container>, name: string, id: string)
    requires cs != []
    ensures EntersAnywhere(cs, name, id) <==>
              EntersAnywhere(cs[..|cs| - 1], name, id) || Enters(cs, |cs| - 1, name, id)
  {
    var n := |cs| - 1;
    forall j | 0 <= j < n
      ensures Enters(cs[..n], j, name, id) <==> Enters(cs, j, name, id)
    {
      assert cs[..n][..j] == cs[..j];
    }
  }

  lemma FirstUser(c: Container, name: string)
    requires MountsVolume(c.mounts, name)
    ensures Kept([c], name) == [c.id] && Users([c], name) == [c.id]
  {
    assert [c][..0] == [];
  }

  lemma SecondUser(c: Container, d: Container, name: string)
    requires MountsVolume(c.mounts, name) && MountsVolume(d.mounts, name)
    requires c.id != d.id && Contains(c.id, d.id)
    ensures Kept([c, d], name) == [c.id] && Users([c, d], name) == [c.id, d.id]
  {
    FirstUser(c, name);
    assert [c, d][..1] == [c];
    assert Contains([c.id][0], d.id);
  }

  /** For instance "a" after "ab". */
  lemma ShortIdIsLost()
    ensures var cs := [Container("ab", [Mount("v", "local")]), Container("a", [Mount("v", "local")])];
            Kept(cs, "v") == ["ab"] && Users(cs, "v") == ["ab", "a"]
  {
    var long, short, mount := "ab", "a", Mount("v", "local");
    assert OccursAt(long, short, 0);
    assert [mount][0] == mount;
    SecondUser(Container(long, [mount]), Container(short, [mount]), "v");
  }

  /** Counting a container once more changes nothing. */
  lemma RepeatChangesNothing(cs: seq<Container>, c: Container)
    requires WellFormed(cs) && c in cs
    ensures CountAll(cs + [c]) == CountAll(cs)
  {
    var more := cs + [c];
    var once, twice := CountAll(cs), CountAll(more);
    forall name: string
      ensures name in twice <==> name in once
      ensures name in once ==> twice[name] == once[name]
    {
      RepeatKeeps(cs, c, name);
      IndexIsKept(cs, name);
      IndexIsKept(more, name);
    }
  }

  lemma RepeatKeeps(cs: seq<Container>, c: Container, name: string)
    requires c in cs
    ensures Kept(cs + [c], name) == Kept(cs, name)
  {
    assert (cs + [c])[..|cs|] == cs;
    UsersAreCovered(cs, name);
  }

  // ---- The code ---------------------------------------------------------------------

  /** The map that ContainerVolumeRefsCount updates in place. */
  class VolumeIndex {
    var refs: Refs

    constructor ()
      ensures refs == map[]
    {
      refs := map[];
    }

    method ContainerVolumeRefsCount(c: Container)
      modifies this
      ensures refs == CountMounts(old(refs), c.id, c.mounts)
    {
      for i := 0 to |c.mounts|
        invariant refs == CountMounts(old(refs), c.id, c.mounts[..i])
      {
        var mount := c.mounts[i];
        assert c.mounts[..i + 1][..i] == c.mounts[..i];
        if mount.driver == "" {
          continue;
        }
        if mount.name !in refs || refs[mount.name] == "" {
          refs := refs[mount.name := c.id];
        } else if !Contains(refs[mount.name], c.id) {
          refs := refs[mount.name := Join([refs[mount.name], c.id], ',')];
        }
      }
      assert c.mounts[..|c.mounts|] == c.mounts;
    }
  }

  /** A volume record of the pouch store; `extra` and `size` are updated in place. */
  class Volume {
    const name: string
    const driver: string
    var extra: map<string, string>
    var size: string

    constructor (name: string, driver: string, mountpoint: string)
      ensures this.name == name && this.driver == driver
      ensures extra == map["mount" := mountpoint] && size == ""
    {
      this.name, this.driver := name, driver;
      extra, size := map["mount" := mountpoint], "";
    }
  }

  predicate Referenced(refs: Refs, name: string) { name in refs && refs[name] != "" }

  /** The options of a volume after the update. */
  function ExtraFor(refs: Refs, name: string, extra: map<string, string>): map<string, string> {
    if Referenced(refs, name) then extra["ref" := refs[name]] else extra
  }

  /** Its size; only alilocal volumes are inspected. */
  function SizeFor(refs: Refs, name: string, driver: string, size: string, sizes: map<string, string>): string {
    if Referenced(refs, name) && driver == "alilocal" && name in sizes then sizes[name] else size
  }

  /** The update loop of PrepareVolumes; `sizes` holds the answers of volume inspection,
      a missing name standing for a failed one. */
  method UpdateVolumeRefs(volumes: seq<Volume>, refs: Refs, sizes: map<string, string>)
    requires forall i, j :: 0 <= i < j < |volumes| ==> volumes[i] != volumes[j]
    modifies volumes
    ensures forall v :: v in volumes ==>
              if v.name in refs && refs[v.name] != "" then v.extra == old(v.extra)["ref" := refs[v.name]]
              else v.extra == old(v.extra)
    ensures forall v :: v in volumes ==>
              if v.name in refs && refs[v.name] != "" && v.driver == "alilocal" && v.name in sizes
              then v.size == sizes[v.name] else v.size == old(v.size)
  {
    for n := 0 to |volumes|
      invariant forall i :: 0 <= i < n ==> volumes[i].extra == ExtraFor(refs, volumes[i].name, old(volumes[i].extra))
      invariant forall i :: 0 <= i < n ==>
                  volumes[i].size == SizeFor(refs, volumes[i].name, volumes[i].driver, old(volumes[i].size), sizes)
      invariant forall i :: n <= i < |volumes| ==>
                  volumes[i].extra == old(volumes[i].extra) && volumes[i].size == old(volumes[i].size)
    {
      var vol := volumes[n];
      if vol.name !in refs || refs[vol.name] == "" {
        continue;
      }
      vol.extra := vol.extra["ref" := refs[vol.name]];
      if vol.driver == "alilocal" {
        if vol.name !in sizes {
          continue;
        }
        vol.size := sizes[vol.name];
      }
    }
  }

  /** A volume is referenced exactly when an ID was kept for it, and then by the kept ones. */
  lemma ReferencedByKept(cs: seq<Container>, name: string)
    requires WellFormed(cs)
    ensures Referenced(CountAll(cs), name) <==> Kept(cs, name) != []
    ensures Referenced(CountAll(cs), name) ==> CountAll(cs)[name] == Join(Kept(cs, name), ',')
  {
    IndexIsKept(cs, name);
    if Kept(cs, name) != [] {
      JoinNonEmpty(Kept(cs, name));
    }
  }

  /** Counting every container and then updating the volumes.  The stored list is that of the
      kept IDs, hence that of the users exactly as far as no user's ID is hidden in an earlier
      one; IDs of one length never are. */
  method PrepareVolumes(containers: seq<Container>, volumes: seq<Volume>, sizes: map<string, string>)
    requires WellFormed(containers)
    requires forall i, j :: 0 <= i < j < |volumes| ==> volumes[i] != volumes[j]
    modifies volumes
    ensures forall v :: v in volumes ==>
              var ids := Kept(containers, v.name);
              if ids != [] then v.extra == old(v.extra)["ref" := Join(ids, ',')] else v.extra == old(v.extra)
    ensures forall v :: v in volumes ==>
              if Kept(containers, v.name) != [] && v.driver == "alilocal" && v.name in sizes
              then v.size == sizes[v.name] else v.size == old(v.size)
    ensures forall v :: v in volumes ==>
              (Kept(containers, v.name) == Users(containers, v.name) <==> NoShadowing(containers, v.name))
    ensures SameLength(containers) ==> forall v :: v in volumes ==> NoShadowing(containers, v.name)
  {
    var index := new VolumeIndex();
    for n := 0 to |containers|
      invariant fresh(index) && index.refs == CountAll(containers[..n])
      invariant forall v :: v in volumes ==> v.extra == old(v.extra) && v.size == old(v.size)
    {
      assert containers[..n + 1][..n] == containers[..n];
      index.ContainerVolumeRefsCount(containers[n]);
    }
    assert containers[..|containers|] == containers;
    UpdateVolumeRefs(volumes, index.refs, sizes);
    forall v | v in volumes
      ensures Referenced(index.refs, v.name) <==> Kept(containers, v.name) != []
      ensures Referenced(index.refs, v.name) ==> index.refs[v.name] == Join(Kept(containers, v.name), ',')
      ensures Kept(containers, v.name) == Users(containers, v.name) <==> NoShadowing(containers, v.name)
      ensures SameLength(containers) ==> NoShadowing(containers, v.name)
    {
      ReferencedByKept(containers, v.name);
      KeptIsUsers(containers, v.name);
      if SameLength(containers) {
        SameLengthNeverShadows(containers, v.name);
      }
    }
  }
}
