/** Environment, binds and capabilities of a converted container (pouch/convertor/core.go). */
module ContainerEnv {
  import opened Options
  import opened GoStrings
  import opened SliceUtils

  datatype Entry = Entry(key: string, value: string)

  const RUN_MODE: string := "ali_run_mode"

  // ---- Parsing ------------------------------------------------------------------------------

  /** An entry is well formed when it has exactly one '='. */
  function ParseEntry(e: string): Option<Entry> {
    var p := Split(e, '=');
    if |p| == 2 then Some(Entry(p[0], p[1])) else None
  }

  function Extend(env: map<string, string>, e: string): map<string, string> {
    var p := ParseEntry(e);
    if p.Some? then env[p.value.key := p.value.value] else env
  }

  function ParseEnv(envs: seq<string>): map<string, string> {
    if envs == [] then map[] else Extend(ParseEnv(envs[..|envs| - 1]), envs[|envs| - 1])
  }

  /** parseEnv. */
  method ParseEnvironment(envs: seq<string>) returns (result: map<string, string>)
    ensures result == ParseEnv(envs)
  {
    result := map[];
    for i := 0 to |envs|
      invariant result == ParseEnv(envs[..i])
    {
      assert envs[..i + 1][..i] == envs[..i];
      var mapping := Split(envs[i], '=');
      if |mapping| != 2 {
        continue;
      }
      result := result[mapping[0] := mapping[1]];
    }
    assert envs[..|envs|] == envs;
  }

  function Text(key: string, value: string): string { key + ['='] + value }

  lemma EntryText(e: string, key: string, value: string)
    ensures ParseEntry(e) == Some(Entry(key, value)) <==> e == Text(key, value) && '=' !in key && '=' !in value
  {
    JoinSplit(e, '=');
    var p := Split(e, '=');
    if |p| == 2 {
      assert Join(p, '=') == p[0] + ['='] + p[1];
    }
    if e == Text(key, value) && '=' !in key && '=' !in value {
      SplitConcat(key, value, '=');
      SplitAtom(key, '=');
      SplitAtom(value, '=');
    }
  }

  predicate Sets(e: string, key: string) { ParseEntry(e).Some? && ParseEntry(e).value.key == key }

  /** Some entry after position `k` sets `key` again. */
  ghost predicate SetLater(envs: seq<string>, k: nat, key: string) {
    exists j :: k < j < |envs| && Sets(envs[j], key)
  }

  /** The last entry that sets a key decides its value. */
  lemma {:induction false} LastEntryDecides(envs: seq<string>, key: string) returns (l: nat)
    requires key in ParseEnv(envs)
    ensures l < |envs| && ParseEntry(envs[l]) == Some(Entry(key, ParseEnv(envs)[key])) && !SetLater(envs, l, key)
  {
    var n := |envs| - 1;
    if Sets(envs[n], key) {
      l := n;
    } else {
      l := LastEntryDecides(envs[..n], key);
      assert forall j :: l < j < n ==> envs[..n][j] == envs[j];
    }
  }

  lemma {:induction false} LastSetterDecides(envs: seq<string>, k: nat, key: string, value: string)
    requires k < |envs| && ParseEntry(envs[k]) == Some(Entry(key, value)) && !SetLater(envs, k, key)
    ensures key in ParseEnv(envs) && ParseEnv(envs)[key] == value
  {
    var n := |envs| - 1;
    if k < n {
      assert !Sets(envs[n], key);
      assert forall j :: k < j < n ==> envs[..n][j] == envs[j];
      LastSetterDecides(envs[..n], k, key, value);
    }
  }

  lemma SetsText(e: string, key: string)
    ensures Sets(e, key) <==> '=' !in key && exists v: string :: '=' !in v && e == key + ['='] + v
  {
    if Sets(e, key) {
      EntryText(e, key, ParseEntry(e).value.value);
    }
    if v: string :| '=' !in v && e == key + ['='] + v && '=' !in key {
      EntryText(e, key, v);
    }
  }

  /** A key has a value exactly when some entry says so, with no further '=' in it, and no later
      one says anything about the key. */
  lemma ParseExactly(envs: seq<string>, key: string, value: string)
    ensures key in ParseEnv(envs) && ParseEnv(envs)[key] == value <==>
              exists k ::
                && 0 <= k < |envs| && envs[k] == key + ['='] + value && '=' !in key && '=' !in value
                && forall j, v: string :: k < j < |envs| && '=' !in v ==> envs[j] != key + ['='] + v
  {
    if key in ParseEnv(envs) && ParseEnv(envs)[key] == value {
      var l := LastEntryDecides(envs, key);
      EntryText(envs[l], key, value);
      forall j, v: string | l < j < |envs| && '=' !in v
        ensures envs[j] != key + ['='] + v
      {
        SetsText(envs[j], key);
      }
    }
    if k :| && 0 <= k < |envs| && envs[k] == key + ['='] + value && '=' !in key && '=' !in value
            && forall j, v: string :: k < j < |envs| && '=' !in v ==> envs[j] != key + ['='] + v {
      EntryText(envs[k], key, value);
      forall j | k < j < |envs|
        ensures !Sets(envs[j], key)
      {
        SetsText(envs[j], key);
      }
      LastSetterDecides(envs, k, key, value);
    }
  }

  // ---- Rewriting the run mode ------------------------------------------------------------------

  /** The first entry holding the run mode becomes "vm", unless the mode is "vm" or unset. */
  function Rewritten(envs: seq<string>): seq<string> {
    var parsed := ParseEnv(envs);
    if RUN_MODE in parsed && parsed[RUN_MODE] != "vm" && Text(RUN_MODE, parsed[RUN_MODE]) in envs
    then envs[FirstIndex(envs, Text(RUN_MODE, parsed[RUN_MODE])) := Text(RUN_MODE, "vm")]
    else envs
  }

  /** The rewrite of ToPouchContainerMeta, in place. */
  method RewriteRunMode(env: array<string>)
    modifies env
    ensures env[..] == Rewritten(old(env[..]))
  {
    var envs := ParseEnvironment(env[..]);
    if RUN_MODE in envs && envs[RUN_MODE] != "vm" {
      var oldRunMode := Text(RUN_MODE, envs[RUN_MODE]);
      for i := 0 to env.Length
        invariant env[..] == old(env[..]) && oldRunMode !in env[..i]
      {
        if env[i] == oldRunMode {
          assert forall k :: 0 <= k < i ==> env[..][k] == env[..i][k];
          FirstIndexIs(env[..], i);
          env[i] := Text(RUN_MODE, "vm");
          break;
        }
      }
    }
  }

  /** The length is kept and at most one position changes, from an entry of that key. */
  lemma RewriteIsLocal(envs: seq<string>, key: string)
    requires key == "ali_run_mode"
    ensures |Rewritten(envs)| == |envs|
    ensures forall i, j :: 0 <= i < |envs| && 0 <= j < |envs| ==>
              Rewritten(envs)[i] != envs[i] && Rewritten(envs)[j] != envs[j] ==> i == j
    ensures forall i :: 0 <= i < |envs| && Rewritten(envs)[i] != envs[i] ==>
              && key in ParseEnv(envs) && envs[i] == key + ['='] + ParseEnv(envs)[key] && envs[i] !in envs[..i]
              && Rewritten(envs)[i] == key + ['='] + "vm"
    ensures key in ParseEnv(envs) && ParseEnv(envs)[key] != "vm" ==> Rewritten(envs) != envs
  {
    if RUN_MODE in ParseEnv(envs) {
      var l := LastEntryDecides(envs, RUN_MODE);
      EntryText(envs[l], RUN_MODE, ParseEnv(envs)[RUN_MODE]);
      if ParseEnv(envs)[RUN_MODE] != "vm" {
        var mode := ParseEnv(envs)[RUN_MODE];
        var i := FirstIndex(envs, Text(RUN_MODE, mode));
        assert Text(RUN_MODE, mode)[|RUN_MODE| + 1..] == mode && Text(RUN_MODE, "vm")[|RUN_MODE| + 1..] == "vm";
        assert Rewritten(envs)[i] != envs[i];
      }
    }
  }

  /** Changing one entry of a key changes the parsed value unless a later entry sets it again. */
  lemma {:induction false} ParseUpdated(envs: seq<string>, k: nat, key: string, value: string)
    requires k < |envs| && Sets(envs[k], key) && '=' !in key && '=' !in value
    ensures ParseEnv(envs[k := Text(key, value)]) ==
            if SetLater(envs, k, key) then ParseEnv(envs) else ParseEnv(envs)[key := value]
  {
    var n := |envs| - 1;
    var init := envs[..n];
    EntryText(Text(key, value), key, value);
    if k == n {
      assert envs[k := Text(key, value)][..n] == init;
    } else {
      assert envs[k := Text(key, value)][..n] == init[k := Text(key, value)];
      ParseUpdated(init, k, key, value);
      SetLaterStep(envs, k, key);
    }
  }

  lemma SetLaterStep(envs: seq<string>, k: nat, key: string)
    requires k < |envs| - 1
    ensures SetLater(envs, k, key) <==> SetLater(envs[..|envs| - 1], k, key) || Sets(envs[|envs| - 1], key)
  {
    var init := envs[..|envs| - 1];
    if j :| k < j < |init| && Sets(init[j], key) {
      assert Sets(envs[j], key);
    }
    if j :| k < j < |envs| && Sets(envs[j], key) {
      assert j < |init| ==> Sets(init[j], key);
    }
  }

  /** The entry text occurs in one place only. */
  ghost predicate Once(envs: seq<string>, e: string) {
    forall i, j :: 0 <= i < |envs| && 0 <= j < |envs| && envs[i] == e && envs[j] == e ==> i == j
  }

  /** Rewriting commutes with parsing exactly when the run mode is already "vm" or its entry
      is not repeated; without a run mode nothing happens. */
  lemma RewriteCommutesWithParsing(envs: seq<string>, key: string)
    requires key == "ali_run_mode"
    ensures key !in ParseEnv(envs) ==> Rewritten(envs) == envs
    ensures key in ParseEnv(envs) ==>
              var mode := ParseEnv(envs)[key];
              (ParseEnv(Rewritten(envs)) == ParseEnv(envs)[key := "vm"] <==>
               mode == "vm" || Once(envs, key + ['='] + mode))
  {
    if RUN_MODE in ParseEnv(envs) {
      var mode := ParseEnv(envs)[RUN_MODE];
      var l := LastEntryDecides(envs, RUN_MODE);
      EntryText(envs[l], RUN_MODE, mode);
      if mode == "vm" {
        assert ParseEnv(envs)[RUN_MODE := "vm"] == ParseEnv(envs);
      } else {
        var k := FirstIndex(envs, Text(RUN_MODE, mode));
        ParseUpdated(envs, k, RUN_MODE, "vm");
        FirstAndLast(envs, k, l, mode);
        assert ParseEnv(envs)[RUN_MODE := "vm"][RUN_MODE] != mode;
      }
    }
  }

  lemma FirstAndLast(envs: seq<string>, k: nat, l: nat, mode: string)
    requires k < |envs| && l < |envs| && '=' !in mode
    requires envs[k] == Text(RUN_MODE, mode) && (forall i :: 0 <= i < k ==> envs[i] != envs[k])
    requires envs[l] == Text(RUN_MODE, mode) && !SetLater(envs, l, RUN_MODE)
    ensures SetLater(envs, k, RUN_MODE) <==> !Once(envs, Text(RUN_MODE, mode))
  {
    var e := Text(RUN_MODE, mode);
    EntryText(e, RUN_MODE, mode);
    if SetLater(envs, k, RUN_MODE) {
      var j :| k < j < |envs| && Sets(envs[j], RUN_MODE);
      assert j <= l;
    } else {
      forall i | 0 <= i < |envs| && envs[i] == e
        ensures i == k
      {
        assert Sets(envs[i], RUN_MODE);
      }
    }
  }

  /** For instance of two equal entries only the first is rewritten, and the second decides. */
  lemma RepeatedEntryDecides(envs: seq<string>, mode: string)
    requires mode == "a" && envs == [Text(RUN_MODE, mode), Text(RUN_MODE, mode)]
    ensures ParseEnv(Rewritten(envs)) != ParseEnv(envs)[RUN_MODE := "vm"]
  {
    EntryText(envs[1], RUN_MODE, mode);
    assert ParseEnv(envs)[RUN_MODE] == mode;
    assert envs[0] == envs[1];
    RewriteCommutesWithParsing(envs, RUN_MODE);
  }

  // ---- Completing lists -------------------------------------------------------------------------

  const REQUIRED_CAPABILITIES: seq<string> :=
    ["SYS_RESOURCE", "SYS_MODULE", "SYS_PTRACE", "SYS_PACCT", "NET_ADMIN", "SYS_ADMIN"]

  function AddOnce(list: seq<string>, item: string): seq<string> {
    if InSlice(list, item) then list else list + [item]
  }

  function AddAll(list: seq<string>, items: seq<string>): seq<string> {
    if items == [] then list else AddOnce(AddAll(list, items[..|items| - 1]), items[|items| - 1])
  }

  /** The items that `list` lacks, in order. */
  function Missing(list: seq<string>, items: seq<string>): seq<string> {
    if items == [] then []
    else Missing(list, items[..|items| - 1]) + if items[|items| - 1] in list then [] else [items[|items| - 1]]
  }

  ghost predicate ProperItems(items: seq<string>) {
    (forall i :: 0 <= i < |items| ==> items[i] != "") && (forall i, j :: 0 <= i < j < |items| ==> items[i] != items[j])
  }

  lemma {:induction false} MissingAreItems(list: seq<string>, items: seq<string>)
    ensures forall x :: x in Missing(list, items) <==> x in items && x !in list
  {
    if items != [] {
      MissingAreItems(list, items[..|items| - 1]);
    }
  }

  /** Completion keeps the list in front and adds exactly the missing items, once each. */
  lemma {:induction false} AddAllAppendsMissing(list: seq<string>, items: seq<string>)
    requires ProperItems(items)
    ensures AddAll(list, items) == list + Missing(list, items)
  {
    if items != [] {
      var init := items[..|items| - 1];
      AddAllAppendsMissing(list, init);
      MissingAreItems(list, init);
    }
  }

  lemma {:induction false} MissingConcat(list: seq<string>, a: seq<string>, b: seq<string>)
    ensures Missing(list, a + b) == Missing(list, a) + Missing(list, b)
  {
    if b == [] {
      assert a + b == a;
    } else {
      assert (a + b)[..|a + b| - 1] == a + b[..|b| - 1];
      MissingConcat(list, a, b[..|b| - 1]);
    }
  }

  lemma MissingOne(list: seq<string>, item: string)
    ensures Missing(list, [item]) == if item in list then [] else [item]
  {
    assert [item][..0] == [];
  }

  lemma {:induction false} NothingMissing(list: seq<string>, items: seq<string>)
    requires forall x :: x in items ==> x in list
    ensures Missing(list, items) == []
  {
    if items != [] {
      NothingMissing(list, items[..|items| - 1]);
    }
  }

  lemma AddAllIdempotent(list: seq<string>, items: seq<string>)
    requires ProperItems(items)
    ensures AddAll(AddAll(list, items), items) == AddAll(list, items)
  {
    AddAllAppendsMissing(list, items);
    MissingAreItems(list, items);
    NothingMissing(AddAll(list, items), items);
    AddAllAppendsMissing(AddAll(list, items), items);
  }

  /** The capability loop of toHostConfig. */
  method CompleteCapabilities(capAdd: seq<string>) returns (caps: seq<string>)
    ensures var required := ["SYS_RESOURCE", "SYS_MODULE", "SYS_PTRACE", "SYS_PACCT", "NET_ADMIN", "SYS_ADMIN"];
            caps == capAdd + Missing(capAdd, required) && forall c :: c in required ==> c in caps
    ensures AddAll(caps, REQUIRED_CAPABILITIES) == caps
  {
    caps := AddInTurn(capAdd, REQUIRED_CAPABILITIES);
    AddAllAppendsMissing(capAdd, REQUIRED_CAPABILITIES);
    AddAllIdempotent(capAdd, REQUIRED_CAPABILITIES);
    MissingAreItems(capAdd, REQUIRED_CAPABILITIES);
  }

  method AddInTurn(list: seq<string>, items: seq<string>) returns (result: seq<string>)
    ensures result == AddAll(list, items)
  {
    result := list;
    for i := 0 to |items|
      invariant result == AddAll(list, items[..i])
    {
      assert items[..i + 1][..i] == items[..i];
      var found := StringInSlice(result, items[i]);
      if found {
        continue;
      }
      result := result + [items[i]];
    }
    assert items[..|items|] == items;
  }

  /** A preloaded library is bound read-only at its own path, once. */
  method AddPreloadBind(binds: seq<string>, envs: map<string, string>) returns (result: seq<string>)
    ensures "LD_PRELOAD" !in envs || envs["LD_PRELOAD"] == "" ==> result == binds
    ensures "LD_PRELOAD" in envs && envs["LD_PRELOAD"] != "" ==>
              var path := envs["LD_PRELOAD"];
              var bind := path + ":" + path + ":ro";
              result == if bind in binds then binds else binds + [bind]
  {
    var ldBind := "";
    if "LD_PRELOAD" in envs && envs["LD_PRELOAD"] != "" {
      ldBind := envs["LD_PRELOAD"] + ":" + envs["LD_PRELOAD"] + ":ro";
    }
    var found := StringInSlice(binds, ldBind);
    result := if ldBind != "" && !found then binds + [ldBind] else binds;
  }
}
