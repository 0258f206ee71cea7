/** Fetching a Docker schema 1 manifest and deriving an OCI history from it
    (ctrd/image/converter.go and the order of steps in ctrd/image/image.go).
    JSON decoding is a parameter: a total function that may fail. */
module Schema1 {
  import opened Options
  import opened GoStrings
  import opened Base64Url

  datatype Manifest = Manifest(blobSums: seq<string>, history: seq<string>)

  datatype V1History = V1History(author: string, created: string, comment: string,
                                 throwAway: Option<bool>, size: Option<int>, cmd: seq<string>)

  /** The protected header of a signature: where the signed payload ends in the document
      and how it really ends. */
  datatype Protected = Protected(length: int, tail: string)

  datatype Json = Json(
    signatures: seq<byte> -> Option<seq<string>>,
    block: seq<byte> -> Option<Protected>,
    manifest: seq<byte> -> Option<Manifest>,
    v1: string -> Option<V1History>,
    isImage: string -> bool)

  const MANIFEST_SIZE_LIMIT: nat := 8_000_000

  // ---- Signatures -------------------------------------------------------------------------

  datatype Stripped = Payload(bytes: seq<byte>) | Refused | Crashed

  /** stripSignature.  Slicing with a negative length crashes the program. */
  function StripSignature(json: Json, b: seq<byte>): Stripped {
    var sigs := json.signatures(b);
    if sigs.None? || sigs.value == [] then Refused
    else
      var pb := JoseDecode(sigs.value[0]);
      if pb.Err? || json.block(pb.bytes).None? then Refused
      else
        var protected := json.block(pb.bytes).value;
        if protected.length > |b| then Refused
        else
          var tail := JoseDecode(protected.tail);
          if tail.Err? then Refused
          else if protected.length < 0 then Crashed
          else Payload(b[..protected.length] + tail.bytes)
  }

  /** The document carries a signature whose protected block is `p`. */
  ghost predicate SignedWith(json: Json, b: seq<byte>, p: Protected) {
    exists block: seq<byte>, others: seq<string> ::
      json.signatures(b) == Some([Encode(block)] + others) && json.block(block) == Some(p)
  }

  /** Stripping a signed document gives back the payload, however it was cut in two. */
  lemma StripRecoversPayload(json: Json, head: seq<byte>, tail: seq<byte>, rest: seq<byte>)
    requires SignedWith(json, head + rest, Protected(|head|, Encode(tail)))
    ensures StripSignature(json, head + rest) == Payload(head + tail)
  {
    var b := head + rest;
    var block: seq<byte>, others: seq<string> :|
      json.signatures(b) == Some([Encode(block)] + others) &&
          json.block(block) == Some(Protected(|head|, Encode(tail)));
    JoseRoundTrip(block);
    JoseRoundTrip(tail);
    assert ([Encode(block)] + others)[0] == Encode(block);
    assert b[..|head|] == head;
  }

  /** For a well-signed document the outcome depends on the stated length alone. */
  lemma StripOutcomes(json: Json, b: seq<byte>, length: int, tail: seq<byte>)
    requires SignedWith(json, b, Protected(length, Encode(tail)))
    ensures StripSignature(json, b).Crashed? <==> length < 0
    ensures StripSignature(json, b).Refused? <==> length > |b|
    ensures 0 <= length <= |b| ==> StripSignature(json, b) == Payload(b[..length] + tail)
  {
    var block: seq<byte>, others: seq<string> :|
      json.signatures(b) == Some([Encode(block)] + others) &&
          json.block(block) == Some(Protected(length, Encode(tail)));
    JoseRoundTrip(block);
    JoseRoundTrip(tail);
    assert ([Encode(block)] + others)[0] == Encode(block);
  }

  /** For instance a header that states the length -1. */
  lemma NegativeLengthCrashes(json: Json, b: seq<byte>)
    requires json.signatures(b) == Some([""]) && json.block([]) == Some(Protected(-1, ""))
    ensures StripSignature(json, b).Crashed?
  {
    assert Encode([]) == "";
    assert [""] == [Encode([])] + [];
    StripOutcomes(json, b, -1, []);
  }

  /** A document is stripped exactly when it has a signature, the protected header of the first
      one can be read, and its length and tail make sense; then its length decides whether
      the program crashes. */
  lemma StripAccepts(json: Json, b: seq<byte>)
    ensures StripSignature(json, b).Refused? <==>
              || json.signatures(b).None? || json.signatures(b).value == []
              || JoseDecode(json.signatures(b).value[0]).Err?
              || var block := json.block(JoseDecode(json.signatures(b).value[0]).bytes);
                 block.None? || block.value.length > |b| || JoseDecode(block.value.tail).Err?
    ensures StripSignature(json, b).Crashed? ==>
              json.block(JoseDecode(json.signatures(b).value[0]).bytes).value.length < 0
    ensures StripSignature(json, b).Payload? ==>
              var header := json.block(JoseDecode(json.signatures(b).value[0]).bytes).value;
              && 0 <= header.length <= |b|
              && StripSignature(json, b).bytes == b[..header.length] + JoseDecode(header.tail).bytes
  {
  }

  /** The manifest in what the registry delivers, at most 8 MB of it. */
  function Delivered(json: Json, content: Option<seq<byte>>): Option<Manifest> {
    if content.Some? && StripSignature(json, Limited(content.value)).Payload?
    then json.manifest(StripSignature(json, Limited(content.value)).bytes) else None
  }

  function Limited(content: seq<byte>): seq<byte> {
    if |content| < MANIFEST_SIZE_LIMIT then content else content[..MANIFEST_SIZE_LIMIT]
  }

  /** At most the first eight million octets count. */
  lemma EightMillionOctets(content: seq<byte>)
    ensures |content| <= 8_000_000 ==> Limited(content) == content
    ensures |content| > 8_000_000 ==> Limited(content) == content[..8_000_000]
  {
  }

  // ---- Layers -----------------------------------------------------------------------------

  /** isEmptyLayer: `throwaway` decides, then `Size`; without either the answer is no. */
  function IsEmptyLayer(json: Json, compat: string): (empty: Option<bool>)
    ensures empty.Some? <==> json.v1(compat).Some?
    ensures empty == Some(true) <==>
              && json.v1(compat).Some?
              && var h := json.v1(compat).value;
                 h.throwAway == Some(true) || (h.throwAway.None? && h.size == Some(0))
  {
    match json.v1(compat)
    case None => None
    case Some(h) =>
      if h.throwAway.Some? then h.throwAway
      else if h.size.Some? then Some(h.size.value == 0)
      else Some(false)
  }

  datatype BlobState = BlobState(diffID: string, empty: bool)

  /** c.blobMap[blobSum]; a missing key reads as the zero state. */
  function StateOf(blobMap: map<string, BlobState>, blobSum: string): BlobState {
    if blobSum in blobMap then blobMap[blobSum] else BlobState("", false)
  }

  datatype HistoryEntry = HistoryEntry(author: string, comment: string, created: string, createdBy: string,
                                       emptyLayer: bool)

  function Entry(h: V1History, state: BlobState): HistoryEntry {
    HistoryEntry(h.author, h.comment, h.created, Join(h.cmd, ' '), state.empty)
  }

  function Reversed<T>(s: seq<T>): (r: seq<T>)
    ensures |r| == |s|
  {
    if s == [] then [] else [s[|s| - 1]] + Reversed(s[..|s| - 1])
  }

  lemma {:induction false} ReversedElement<T>(s: seq<T>, k: nat)
    requires k < |s|
    ensures Reversed(s)[k] == s[|s| - 1 - k]
  {
    if k > 0 {
      ReversedElement(s[..|s| - 1], k - 1);
    }
  }

  lemma ReversedAt<T>(s: seq<T>)
    ensures forall k :: 0 <= k < |s| ==> Reversed(s)[k] == s[|s| - 1 - k]
  {
    forall k | 0 <= k < |s|
      ensures Reversed(s)[k] == s[|s| - 1 - k]
    {
      ReversedElement(s, k);
    }
  }

  /** The diff IDs of the layers not marked empty, in order. */
  function DiffIDs(states: seq<BlobState>): seq<string> {
    if states == [] then []
    else (if states[0].empty then [] else [states[0].diffID]) + DiffIDs(states[1..])
  }

  /** The states of the layers that belong to history entries. */
  function StatesOf(blobMap: map<string, BlobState>, m: Manifest): (r: seq<BlobState>)
    requires |m.history| <= |m.blobSums|
    ensures |r| == |m.history|
    ensures forall k :: 0 <= k < |r| ==> r[k] == StateOf(blobMap, m.blobSums[k])
  {
    seq(|m.history|, k requires 0 <= k < |m.history| => StateOf(blobMap, m.blobSums[k]))
  }

  /** Some history entry is not valid JSON. */
  ghost predicate Unreadable(json: Json, history: seq<string>) {
    exists i :: 0 <= i < |history| && json.v1(history[i]).None?
  }

  predicate EntryFits(json: Json, entry: HistoryEntry, compat: string, state: BlobState) {
    json.v1(compat).Some? && entry == Entry(json.v1(compat).value, state)
  }

  /** `history` is the manifest's history in reverse, each entry with its layer's flag. */
  ghost predicate IsHistoryOf(json: Json, history: seq<HistoryEntry>, m: Manifest, states: seq<BlobState>) {
    && |history| == |m.history| == |states|
    && forall j :: 0 <= j < |history| ==>
        EntryFits(json, history[j], m.history[|history| - 1 - j], states[|history| - 1 - j])
  }

  /** After `n` history entries: they stand at the end, last first, and the diff IDs of their
      layers have been collected. */
  ghost predicate Progress(json: Json, history: seq<HistoryEntry>, diffIDs: seq<string>, m: Manifest,
                           states: seq<BlobState>, n: nat) {
    && n <= |history| == |m.history| == |states|
    && (forall j :: |history| - n <= j < |history| ==>
        EntryFits(json, history[j], m.history[|history| - 1 - j], states[|history| - 1 - j]))
    && diffIDs == DiffIDs(Reversed(states[..n]))
  }

  lemma HistoryIsReadable(json: Json, history: seq<HistoryEntry>, m: Manifest, states: seq<BlobState>)
    requires IsHistoryOf(json, history, m, states)
    ensures !Unreadable(json, m.history)
  {
    forall i | 0 <= i < |m.history|
      ensures json.v1(m.history[i]).Some?
    {
      assert EntryFits(json, history[|history| - 1 - i], m.history[i], states[i]);
    }
  }

  lemma ProgressStep(json: Json, history: seq<HistoryEntry>, diffIDs: seq<string>, m: Manifest,
                     states: seq<BlobState>, n: nat, h: V1History)
    requires Progress(json, history, diffIDs, m, states, n) && n < |history| && json.v1(m.history[n]) == Some(h)
    ensures Progress(json, history[|history| - n - 1 := Entry(h, states[n])],
                     if states[n].empty then diffIDs else [states[n].diffID] + diffIDs, m, states, n + 1)
  {
    ReverseStep(states, n);
  }

  lemma ReverseStep(states: seq<BlobState>, i: nat)
    requires i < |states|
    ensures Reversed(states[..i + 1]) == [states[i]] + Reversed(states[..i])
    ensures DiffIDs(Reversed(states[..i + 1])) ==
            (if states[i].empty then [] else [states[i].diffID]) + DiffIDs(Reversed(states[..i]))
  {
    assert states[..i + 1][..i] == states[..i];
    assert Reversed(states[..i + 1])[1..] == Reversed(states[..i]);
  }

  function LayersIn(history: seq<HistoryEntry>): nat {
    if history == [] then 0 else (if history[0].emptyLayer then 0 else 1) + LayersIn(history[1..])
  }

  /** It counts the entries not marked empty. */
  lemma {:induction false} LayersInConcat(a: seq<HistoryEntry>, b: seq<HistoryEntry>, all: seq<HistoryEntry>)
    requires all == a + b
    ensures LayersIn(all) == LayersIn(a) + LayersIn(b)
  {
    if a == [] {
      assert all == b;
    } else {
      assert all[1..] == a[1..] + b;
      LayersInConcat(a[1..], b, all[1..]);
    }
  }

  lemma {:induction false} DiffIDsConcat(a: seq<BlobState>, b: seq<BlobState>, all: seq<BlobState>)
    requires all == a + b
    ensures DiffIDs(all) == DiffIDs(a) + DiffIDs(b)
  {
    if a == [] {
      assert all == b;
    } else {
      assert all[1..] == a[1..] + b;
      DiffIDsConcat(a[1..], b, all[1..]);
    }
  }

  lemma OneLayer(entry: HistoryEntry, state: BlobState)
    ensures LayersIn([entry]) == if entry.emptyLayer then 0 else 1
    ensures DiffIDs([state]) == if state.empty then [] else [state.diffID]
  {
    assert DiffIDs([]) == [];
  }

  /** OCI Image Configuration: as many diff IDs as history entries that are no empty layer. */
  lemma {:induction false} DiffIDsMatchHistory(history: seq<HistoryEntry>, states: seq<BlobState>)
    requires |history| == |states|
    requires forall k :: 0 <= k < |states| ==> history[k].emptyLayer == states[k].empty
    ensures |DiffIDs(states)| == LayersIn(history)
  {
    if states != [] {
      DiffIDsMatchHistory(history[1..], states[1..]);
    }
  }

  lemma ConversionIsConsistent(json: Json, history: seq<HistoryEntry>, m: Manifest, states: seq<BlobState>)
    requires IsHistoryOf(json, history, m, states)
    ensures |DiffIDs(Reversed(states))| == LayersIn(history)
  {
    var r := Reversed(states);
    ReversedAt(states);
    forall k | 0 <= k < |r|
      ensures history[k].emptyLayer == r[k].empty
    {
      assert EntryFits(json, history[k], m.history[|r| - 1 - k], states[|r| - 1 - k]);
    }
    DiffIDsMatchHistory(history, r);
  }

  /** No blob state ever gets a diff ID, so the converted image lists only empty ones. */
  lemma {:induction false} DiffIDsAreBlank(states: seq<BlobState>)
    requires forall k :: 0 <= k < |states| ==> states[k].diffID == ""
    ensures forall d :: d in DiffIDs(states) ==> d == ""
  {
    if states != [] {
      DiffIDsAreBlank(states[1..]);
    }
  }

  /** The layer is the first of the manifest with its blob, and the blob is new. */
  predicate FirstSeen(known: map<string, BlobState>, blobSums: seq<string>, i: nat)
    requires i < |blobSums|
  {
    blobSums[i] !in known && blobSums[i] !in blobSums[..i]
  }

  /** After `n` layers: known blobs are as before, and every other blob so far has the flag
      of its first layer. */
  ghost predicate Decided(json: Json, known: map<string, BlobState>, blobMap: map<string, BlobState>, m: Manifest,
                          n: nat)
    requires |m.blobSums| == |m.history|
  {
    && n <= |m.blobSums|
    && (forall d :: d in known ==> d in blobMap && blobMap[d] == known[d])
    && (forall d :: d in blobMap ==> d in known || d in m.blobSums[..n])
    && (forall i :: 0 <= i < n ==> m.blobSums[i] in blobMap)
    && (forall i {:trigger FirstSeen(known, m.blobSums, i)} :: 0 <= i < n && FirstSeen(known, m.blobSums, i) ==>
          Some(blobMap[m.blobSums[i]].empty) == IsEmptyLayer(json, m.history[i]))
  }

  /** Every layer has its history entry, and those that have to be looked at are readable. */
  ghost predicate Decidable(json: Json, known: map<string, BlobState>, m: Manifest) {
    && |m.blobSums| == |m.history|
    && forall i {:trigger FirstSeen(known, m.blobSums, i)} ::
         0 <= i < |m.blobSums| && FirstSeen(known, m.blobSums, i) ==> IsEmptyLayer(json, m.history[i]).Some?
  }

  lemma DecideNothing(json: Json, known: map<string, BlobState>, blobMap: map<string, BlobState>, m: Manifest, n: nat)
    requires |m.blobSums| == |m.history| && n < |m.blobSums| && Decided(json, known, blobMap, m, n)
    requires m.blobSums[n] in blobMap
    ensures Decided(json, known, blobMap, m, n + 1)
  {
    assert !FirstSeen(known, m.blobSums, n);
    forall d | d in m.blobSums[..n]
      ensures d in m.blobSums[..n + 1]
    {
      var i :| 0 <= i < n && m.blobSums[..n][i] == d;
      assert m.blobSums[..n + 1][i] == d;
    }
  }

  lemma DecideStep(json: Json, known: map<string, BlobState>, blobMap: map<string, BlobState>, m: Manifest, n: nat,
                   empty: bool)
    requires |m.blobSums| == |m.history| && n < |m.blobSums| && Decided(json, known, blobMap, m, n)
    requires m.blobSums[n] !in blobMap && IsEmptyLayer(json, m.history[n]) == Some(empty)
    ensures Decided(json, known, blobMap[m.blobSums[n] := BlobState("", empty)], m, n + 1)
  {
    var blobMap' := blobMap[m.blobSums[n] := BlobState("", empty)];
    assert m.blobSums[..n + 1] == m.blobSums[..n] + [m.blobSums[n]];
    forall i | 0 <= i < n + 1 && FirstSeen(known, m.blobSums, i)
      ensures Some(blobMap'[m.blobSums[i]].empty) == IsEmptyLayer(json, m.history[i])
    {
      if i < n {
        assert m.blobSums[i] in blobMap;
      }
    }
  }

  // ---- The converter ----------------------------------------------------------------------

  datatype MediaType = Schema1Manifest | Schema2LayerGzip | Other

  datatype Status = Success | Failure | Crash

  datatype Conversion = Converted(history: seq<HistoryEntry>, diffIDs: seq<string>) | NotConverted

  class Converter {
    const json: Json
    var pulledManifest: Option<Manifest>
    var blobMap: map<string, BlobState>

    constructor (json: Json)
      ensures this.json == json && pulledManifest == None && blobMap == map[] && Valid()
    {
      this.json := json;
      pulledManifest := None;
      blobMap := map[];
    }

    ghost predicate Valid()
      reads this
    {
      forall d :: d in blobMap ==> blobMap[d].diffID == ""
    }

    /** The manifest is complete: one history entry and one decided state for each layer. */
    ghost predicate Ready()
      reads this
    {
      && pulledManifest.Some?
      && |pulledManifest.value.blobSums| == |pulledManifest.value.history|
      && forall i :: 0 <= i < |pulledManifest.value.blobSums| ==> pulledManifest.value.blobSums[i] in blobMap
    }

    /** fetchManifest; `content` is what the registry delivers, if anything. */
    method FetchManifest(content: Option<seq<byte>>) returns (r: Status)
      modifies this`pulledManifest
      ensures r.Success? <==> Delivered(json, content).Some?
      ensures r.Success? ==>
                && content.Some? && StripSignature(json, Limited(content.value)).Payload?
                && json.manifest(StripSignature(json, Limited(content.value)).bytes) == pulledManifest
      ensures r.Failure? && content.Some? && StripSignature(json, Limited(content.value)).Payload? ==>
                json.manifest(StripSignature(json, Limited(content.value)).bytes).None?
      ensures r.Crash? <==> content.Some? && StripSignature(json, Limited(content.value)).Crashed?
      ensures pulledManifest == if r.Success? then Delivered(json, content) else old(pulledManifest)
    {
      if content.None? {
        return Failure;
      }
      var b := StripSignature(json, Limited(content.value));
      if b.Crashed? {
        return Crash;
      }
      if b.Refused? {
        return Failure;
      }
      var m := json.manifest(b.bytes);
      if m.None? {
        return Failure;
      }
      pulledManifest := m;
      return Success;
    }

    /** Handle.  Every blob keeps the flag it was given first. */
    method Handle(mediaType: MediaType, content: Option<seq<byte>>) returns (r: Status)
      requires Valid()
      modifies this
      ensures Valid()
      ensures forall d :: d in old(blobMap) ==> d in blobMap && blobMap[d] == old(blobMap)[d]
      ensures !mediaType.Schema1Manifest? ==> pulledManifest == old(pulledManifest) && blobMap == old(blobMap)
      ensures !mediaType.Schema1Manifest? ==> r == if mediaType.Schema2LayerGzip? then Success else Failure
      ensures r.Crash? <==>
                mediaType.Schema1Manifest? && content.Some? && StripSignature(json, Limited(content.value)).Crashed?
      ensures mediaType.Schema1Manifest? ==>
                (r.Success? <==>
                   Delivered(json, content).Some? && Decidable(json, old(blobMap), Delivered(json, content).value))
      ensures mediaType.Schema1Manifest? && r.Success? ==>
                && Ready() && pulledManifest == Delivered(json, content)
                && Decided(json, old(blobMap), blobMap, pulledManifest.value, |pulledManifest.value.blobSums|)
    {
      match mediaType
      case Schema1Manifest =>
        r := FetchManifest(content);
        if r.Success? {
          r := DecideLayers(pulledManifest.value);
        }
      case Schema2LayerGzip => return Success;
      case Other => return Failure;
    }

    /** The layer loop of Handle. */
    method DecideLayers(m: Manifest) returns (r: Status)
      requires Valid() && pulledManifest == Some(m)
      modifies this`blobMap
      ensures Valid()
      ensures forall d :: d in old(blobMap) ==> d in blobMap && blobMap[d] == old(blobMap)[d]
      ensures r == if Decidable(json, old(blobMap), m) then Success else Failure
      ensures r.Success? ==> Ready() && Decided(json, old(blobMap), blobMap, m, |m.blobSums|)
    {
      if |m.blobSums| != |m.history| {
        return Failure;
      }
      for i := 0 to |m.blobSums|
        invariant Valid() && Decided(json, old(blobMap), blobMap, m, i)
      {
        if m.blobSums[i] in blobMap {
          DecideNothing(json, old(blobMap), blobMap, m, i);
        } else {
          var empty := IsEmptyLayer(json, m.history[i]);
          if empty.None? {
            assert FirstSeen(old(blobMap), m.blobSums, i);
            return Failure;
          }
          DecideStep(json, old(blobMap), blobMap, m, i, empty.value);
          blobMap := blobMap[m.blobSums[i] := BlobState("", empty.value)];
        }
      }
      return Success;
    }

    /** Convert: the newest history entry also has to decode as an image configuration, and
        `written` tells whether the manifest and the configuration could be stored. */
    method Convert(written: bool) returns (r: Conversion)
      requires pulledManifest.Some? ==> |pulledManifest.value.history| <= |pulledManifest.value.blobSums|
      ensures r.NotConverted? <==>
                || pulledManifest.None? || pulledManifest.value.history == []
                || Unreadable(json, pulledManifest.value.history)
                || !json.isImage(pulledManifest.value.history[0]) || !written
      ensures r.Converted? ==>
                var m := pulledManifest.value;
                && IsHistoryOf(json, r.history, m, StatesOf(blobMap, m))
                && r.diffIDs == DiffIDs(Reversed(StatesOf(blobMap, m)))
    {
      r := ManifestHistory();
      if r.Converted? && (!json.isImage(pulledManifest.value.history[0]) || !written) {
        r := NotConverted;
      }
    }

    /** schema1ManifestHistory: the history oldest first, with the diff IDs of its layers.
        The source indexes the layers with history positions. */
    method ManifestHistory() returns (r: Conversion)
      requires pulledManifest.Some? ==> |pulledManifest.value.history| <= |pulledManifest.value.blobSums|
      ensures r.NotConverted? <==>
                || pulledManifest.None? || pulledManifest.value.history == []
                || Unreadable(json, pulledManifest.value.history)
      ensures r.Converted? ==>
                var m := pulledManifest.value;
                && IsHistoryOf(json, r.history, m, StatesOf(blobMap, m))
                && r.diffIDs == DiffIDs(Reversed(StatesOf(blobMap, m)))
    {
      if pulledManifest.None? {
        return NotConverted;
      }
      if |pulledManifest.value.history| == 0 {
        return NotConverted;
      }
      var m := pulledManifest.value;
      r := ConvertHistory(m);
      if r.Converted? {
        ghost var states := StatesOf(blobMap, m);
        assert states[..|states|] == states;
        HistoryIsReadable(json, r.history, m, states);
      }
    }

    /** The loop of schema1ManifestHistory: entries are filled in from the end, diff IDs are
        put in front. */
    method ConvertHistory(m: Manifest) returns (r: Conversion)
      requires |m.history| <= |m.blobSums|
      ensures r.NotConverted? ==> Unreadable(json, m.history)
      ensures r.Converted? ==> Progress(json, r.history, r.diffIDs, m, StatesOf(blobMap, m), |m.history|)
    {
      var n := |m.history|;
      ghost var states := StatesOf(blobMap, m);
      var history := new HistoryEntry[n];
      var diffIDs: seq<string> := [];
      for i := 0 to n
        invariant Progress(json, history[..], diffIDs, m, states, i)
      {
        var ok;
        ok, diffIDs := AddEntry(history, diffIDs, m, i, states);
        if !ok {
          return NotConverted;
        }
      }
      return Converted(history[..], diffIDs);
    }

    /** One round of the loop: entry `i` goes to its place from the end. */
    method AddEntry(history: array<HistoryEntry>, diffIDs: seq<string>, m: Manifest, i: nat,
                    ghost states: seq<BlobState>)
      returns (ok: bool, diffIDs': seq<string>)
      requires i < history.Length && |m.history| <= |m.blobSums| && states == StatesOf(blobMap, m)
      requires Progress(json, history[..], diffIDs, m, states, i)
      modifies history
      ensures ok ==> Progress(json, history[..], diffIDs', m, states, i + 1)
      ensures !ok ==> json.v1(m.history[i]).None?
    {
      var h := json.v1(m.history[i]);
      if h.None? {
        return false, diffIDs;
      }
      var state := StateOf(blobMap, m.blobSums[i]);
      var entry := Entry(h.value, state);
      ghost var before := history[..];
      history[history.Length - i - 1] := entry;
      assert history[..] == before[|before| - i - 1 := entry];
      diffIDs' := if state.empty then diffIDs else [state.diffID] + diffIDs;
      ProgressStep(json, before, diffIDs, m, states, i, h.value);
      ok := true;
    }
  }

  /** The converted history is the manifest's in reverse.  Each entry has the fields of the one
      it comes from, and is marked empty as the first entry with the same blob calls for. */
  ghost predicate ConvertedFrom(json: Json, history: seq<HistoryEntry>, m: Manifest) {
    && |history| == |m.history| == |m.blobSums|
    && forall i, k :: 0 <= i <= k < |history| && m.blobSums[i] == m.blobSums[k] && m.blobSums[i] !in m.blobSums[..i] ==>
         && json.v1(m.history[i]).Some? && json.v1(m.history[k]).Some?
         && var entry := history[|history| - 1 - k];
            var first, own := json.v1(m.history[i]).value, json.v1(m.history[k]).value;
            && entry.author == own.author && entry.comment == own.comment && entry.created == own.created
            && entry.createdBy == Join(own.cmd, ' ')
            && (entry.emptyLayer <==>
                  first.throwAway == Some(true) || (first.throwAway.None? && first.size == Some(0)))
  }

  lemma FlagsOfFirst(json: Json, history: seq<HistoryEntry>, m: Manifest, blobMap: map<string, BlobState>)
    requires |m.blobSums| == |m.history| && Decided(json, map[], blobMap, m, |m.blobSums|)
    requires forall d :: d in blobMap ==> blobMap[d].diffID == ""
    requires IsHistoryOf(json, history, m, StatesOf(blobMap, m))
    ensures ConvertedFrom(json, history, m)
  {
    var states := StatesOf(blobMap, m);
    forall i, k | 0 <= i <= k < |history| && m.blobSums[i] == m.blobSums[k] && m.blobSums[i] !in m.blobSums[..i]
      ensures IsEmptyLayer(json, m.history[i]).Some?
      ensures EntryFits(json, history[|history| - 1 - k], m.history[k],
                        BlobState("", IsEmptyLayer(json, m.history[i]).value))
    {
      var j := |history| - 1 - k;
      assert FirstSeen(map[], m.blobSums, i);
      assert EntryFits(json, history[j], m.history[|history| - 1 - j], states[|history| - 1 - j]);
    }
  }

  /** A manifest from which an image can be converted. */
  ghost predicate Convertible(json: Json, m: Manifest) {
    |m.blobSums| == |m.history| && m.history != [] && !Unreadable(json, m.history) && json.isImage(m.history[0])
  }

  /** PullManifest for a schema 1 manifest: conversion happens only after a successful
      dispatch, so it never runs past the layers and every state it reads was decided. */
  method PullSchema1(json: Json, content: Option<seq<byte>>, written: bool)
      returns (status: Status, conversion: Conversion)
    ensures status.Success? <==>
              && content.Some? && StripSignature(json, Limited(content.value)).Payload? && written
              && var delivered := json.manifest(StripSignature(json, Limited(content.value)).bytes);
                 && delivered.Some?
                 && |delivered.value.blobSums| == |delivered.value.history| > 0
                 && (forall i :: 0 <= i < |delivered.value.history| ==> json.v1(delivered.value.history[i]).Some?)
                 && json.isImage(delivered.value.history[0])
    ensures status.Crash? <==> content.Some? && StripSignature(json, Limited(content.value)).Crashed?
    ensures status.Success? ==>
              conversion.Converted? && ConvertedFrom(json, conversion.history, Delivered(json, content).value)
    ensures status.Success? ==> |conversion.diffIDs| == LayersIn(conversion.history)
    ensures status.Success? ==> forall d :: d in conversion.diffIDs ==> d == ""
  {
    var c := new Converter(json);
    status := c.Handle(Schema1Manifest, content);
    if !status.Success? {
      if Delivered(json, content).Some? {
        UndecidableIsInconvertible(json, Delivered(json, content).value);
      }
      return status, NotConverted;
    }
    conversion := c.Convert(written);
    if conversion.NotConverted? {
      return Failure, conversion;
    }
    ghost var m := c.pulledManifest.value;
    ghost var states := StatesOf(c.blobMap, m);
    DiffIDsOfBlank(states);
    ConversionIsConsistent(json, conversion.history, m, states);
    FlagsOfFirst(json, conversion.history, m, c.blobMap);
    HistoryIsReadable(json, conversion.history, m, states);
    return Success, conversion;
  }

  lemma DiffIDsOfBlank(states: seq<BlobState>)
    requires forall k :: 0 <= k < |states| ==> states[k].diffID == ""
    ensures forall d :: d in DiffIDs(Reversed(states)) ==> d == ""
  {
    ReversedAt(states);
    DiffIDsAreBlank(Reversed(states));
  }

  lemma UndecidableIsInconvertible(json: Json, m: Manifest)
    ensures Convertible(json, m) ==> Decidable(json, map[], m)
  {
    if Convertible(json, m) {
      forall i | 0 <= i < |m.blobSums| && FirstSeen(map[], m.blobSums, i)
        ensures IsEmptyLayer(json, m.history[i]).Some?
      {
        assert !json.v1(m.history[i]).None?;
      }
    }
  }
}
