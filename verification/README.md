# d2p-migrator, verified

d2p-migrator turns a host that runs docker containers into one that runs pouch containers.
This project models its decision-making parts in Dafny and proves what they keep, return or
restore. `dafny verify dfyconfig.toml` checks everything.

## What is modelled

**The cold migration** (`Overlay`, `Hosts`, `MigrationPlan`, `MigrationProgress`,
`MigrationEvents`, `ColdMigration`, `RunCmd`). A host is a file system (path to directory to entry), the containers
running under docker, and those running under pouch. Every external command is an event whose
outcome the environment picks: a pull or a stop may fail, and `mv src/* dst` moves no name
starting with a dot, fails without effect if nothing else is there, and may otherwise stop after
any subset of the visible names. The state is always the replay of the log of events. The
migrator is a class with the fields of the source, and every phase is proved to

* issue exactly the commands of its plan, in order, up to its first failing command (`Ran`);
  what that leaves in the log is also stated event by event, without the plan;
* be safe (`Safe`): container data is touched only while no recorded running container is up,
  docker is uninstalled only with every directory moved, nothing is moved back in a run that
  finishes, and nothing is finished in a run that moves something back.

From these follow conservation at every point of every run, full restoration after a failed
migration whose revert meets no I/O failure, and full migration in every other run that moved
anything, complete exactly for the containers without hidden entries. It is also stated which
containers run after a failed migration. Sources and destinations of a run are pairwise distinct, and new destinations hold no
visible name; that is what fresh snapshots provide. A source path may be empty (a container
without an upper directory): then `MoveDir` refuses, and `Migrate` fails there.

**The volume reference index** (`VolumeRefs`): a set of IDs kept as a comma-joined string and
queried by substring search.

**The schema 1 manifest converter** (`Base64Url`, `Schema1`): unpadded base64url (section 5 of
RFC 4648, section 2 and Appendix C of RFC 7515), signature stripping (Docker Image Manifest V2
Schema 1, "Signed Manifests"), and the reversed history with its diff IDs (OCI Image
Configuration, `history` and `rootfs.diff_ids`). JSON decoding is a parameter.

**The CRI parsers** (`SandboxName`, `ResolvConf`, `PodSandbox`), **proxy exclusion** (`NoProxy`),
**image references** (`ImageRef`), **slice helpers** (`SliceUtils`), and the environment, bind and
capability parts of container conversion (`ContainerEnv`). All of these use one small string
library, `GoStrings`.

Loops and updates in place stay loops and updates in place: `Host`, `ColdMigrator`, `VolumeIndex`,
`Volume`, `Converter` and `Dict` are classes, the history and the environment are arrays. Each
such method is proved against a function or predicate, and the lemmas speak about that.

## Where the code does less than one would expect

Each of these fails on some inputs. It is stated with the exact condition under which the code
meets it, and with an input on which it does not.

* The substring index equals the ordered set of users if and only if no user's ID is part of the
  ID of an earlier user (`KeptIsUsers`); IDs "ab" and then "a" lose the second (`ShortIdIsLost`).
  IDs of one length, as docker's are, are always safe (`IndexIsExact`).
* A container missing from the second listing is started all the same if and only if its ID is
  empty, because the membership test never finds the empty string (`SurvivorsArePresent`,
  `EmptyIdSurvives`). Docker never lists an empty ID, so this is not reached in practice.
* Appending to NO_PROXY sends a host back to the proxy exactly when the text was the lone "\*",
  which is special only while alone, and no entry covers the host (`AppendingEntries`); host "a"
  with "\*,b" is one (`WildcardInList`).
* Rewriting the run mode commutes with parsing if and only if the mode is already "vm" or its
  entry occurs once (`RewriteCommutesWithParsing`); two equal entries do not commute
  (`RepeatedEntryDecides`).
* Normalising an image reference is idempotent if and only if the reference names its registry
  or the head of the default registry looks like one (`Idempotent`); the default registry "reg"
  is added again (`PlainRegistryIsAddedAgain`).
* Stripping the signature of a well-signed document crashes the program if and only if the length
  in the protected header is negative (`StripOutcomes`, `NegativeLengthCrashes`).
* A revert gives up at the first directory with nothing to move back. Without an I/O failure all
  data is home by then, but the restarts are reached if and only if there is no directory at all
  or the migration was stopped in the last one after moving something (`RevertFailed`, `Run`,
  `RestartsNeedLastMapping`); a failure at the first of two directories restarts nothing
  (`NothingToReturn`).
* Entries whose names start with a dot are never moved: a migrated container finds all its
  visible entries, and everything it had if and only if none of its entries was hidden
  (`WholeExactlyWithoutHidden`; `Run` states it of every migrated container). A directory with
  ".bashrc" is one that fails (`HiddenEntryStaysBehind`).

These are so on all inputs:

* No diff ID is ever filled in, so a converted image lists only empty ones (`PullSchema1`).
* A failure to store the volumes ends the preparation early, skips the sandbox records and is
  reported as success (`PreMigrate`, `Prepared`).
* The annotation map of a sandbox is the container's own, so filling the one changes the other
  (`ToPodSandboxConfig`).

## Model

| member | source | states |
|---|---|---|
| RunCmd.Run | main.go:139-176 | Over every outcome of every command: the run is safe, each directory pair is conserved at every point of the log, and the commands are exactly those of the phases that belong to the outcome, each up to its first failure. Preparation changes nothing, and a run goes past it only with all volumes listed and every container prepared and saved. A failed migration whose revert meets no I/O failure leaves every source restored and every destination as it was; its restarts are reached exactly when there is no mapping or the last event of the failed Migrate is a move of the last one that was stopped after some names, otherwise no container is started. A run that finished has in its whole log removed exactly the listed containers that are gone, and started exactly the running ones still there. Any other run past Migrate leaves everything migrated, and whole exactly where nothing was hidden |
| RunCmd.MigrateAndAfter | main.go:149-174 | From complete books: revert runs after a failed Migrate and only then, PostMigrate after a successful one and only then, with the whole command sequence and, after a revert, which containers run |
| RunCmd.RevertFailed | main.go:151-161 | The deferred revert after a failed Migrate: the moves back up to the first that fails or else the restarts after all of them, when which of the two happens, which containers run then, and that nothing is left behind without an I/O failure |
| RunCmd.FinishedSwitchesOver | main.go:163-174 | In the log of a finished run, from its beginning, a container is removed exactly if the first listing has it and the second has not, and started in pouch exactly if the first has it in the state "running" and the second still has it, or its ID is empty |
| RunCmd.Conclude | migrator/cold_migrate.go:286-296 | A safe run that ends with empty destinations has restored every source, one that ends with all sources emptied has migrated every entry, and neither lost or altered one in between |
| Hosts.ConservedThroughout | migrator/cold_migrate.go:286-296 | At every prefix of every safe run, whatever was moved in part, source and destination of each mapping together hold exactly the original entries, each in one place, plus at most the marker |
| Hosts.RanThen | migrator/cold_migrate.go:268-299 | Phases compose: a plan carried out in full followed by one that ran up to a failure is the joint plan run up to that failure |
| Hosts.Host.MoveDir | utils/fileutils.go:11-17 | Refuses an empty path, fails without effect when no visible name exists, otherwise succeeds having moved all visible names or fails having moved an arbitrary part of them |
| Overlay.MoveFails | utils/fileutils.go:12-16 | A move is refused exactly for an empty path and finds nothing exactly when every name is hidden; both change nothing |
| Overlay.MoveMoves | utils/fileutils.go:16 | Any other move, complete or stopped, takes some of the visible names with their content from the source to the destination and changes nothing else anywhere |
| Overlay.HiddenMeans | utils/fileutils.go:16 | Hidden are exactly the names that begin with a dot |
| Overlay.TouchMarks | migrator/cold_migrate.go:287-290 | The marker is an empty file d2p-migrator.txt in the source, unless there is one; nothing else changes |
| Overlay.ForwardConserves | utils/fileutils.go:11-17 | Moving any subset of the visible names of a source keeps the pair's entries, contents and disjointness |
| Overlay.BackwardConserves | utils/fileutils.go:11-17 | The same for moving any subset back |
| Overlay.ConservedAndEmptyIsRestored | migrator/cold_migrate.go:377-385 | A conserved pair without visible names in the destination is the original one, up to the marker |
| Overlay.ConservedAndMovedIsMigrated | migrator/cold_migrate.go:286-296 | A conserved pair without visible names in the source has every visible entry in the destination and the hidden ones still in the source |
| Overlay.WholeExactlyWithoutHidden | utils/fileutils.go:11-17 | A migrated container finds all its entries if and only if none of them was hidden |
| Overlay.HiddenEntryStaysBehind | utils/fileutils.go:11-17 | For instance ".bashrc" next to "a" stays behind in a completed move |
| MigrationPlan.PulledOnceEach | migrator/cold_migrate.go:203-223 | The images pulled are the distinct images of the containers, each once, in order of first use |
| MigrationPlan.PullsFit | migrator/cold_migrate.go:197-223 | Every pull is for the first container with its image, with overlay1fs if its driver is overlay and with overlayfs if not, and every image in use is pulled |
| MigrationPlan.ListingOne | migrator/cold_migrate.go:108-151 | What one container adds: its ID if its state is "running", its image, and the mapping of its upper directory to that of its snapshot |
| MigrationPlan.ListingConcat | migrator/cold_migrate.go:108-151 | What is recorded of a listing is recorded container by container, in order |
| MigrationPlan.SurvivorsArePresent | migrator/cold_migrate.go:360-363 | The containers started after the switch are the recorded running ones still listed, exactly unless a running container has the empty ID |
| MigrationPlan.EmptyIdSurvives | migrator/cold_migrate.go:360-363 | For instance a running container with the empty ID that is no longer listed |
| MigrationPlan.PreparationIsSafe | migrator/cold_migrate.go:78-169 | Preparing touches no container data and no container, however it ends |
| MigrationProgress.MoveStep | migrator/cold_migrate.go:286-296 | A completed move extends the moved mappings by one; any failure leaves all mappings before it with visible names in their destination and none after it |
| MigrationProgress.ReturnStep | migrator/cold_migrate.go:379-385 | A completed return empties the destination again; a return that fails without an I/O failure changes nothing and only happens at a mapping with nothing to return |
| MigrationProgress.StuckMeansDone | migrator/cold_migrate.go:379-385 | When the revert of a failed Migrate stops at an empty destination, no destination holds a visible name any more |
| MigrationProgress.RestartsNeedLastMapping | migrator/cold_migrate.go:377-392 | After a failed Migrate every mapping has something to return exactly when there is none or the last one has, which a failure further up rules out |
| MigrationProgress.FailureTold | migrator/cold_migrate.go:292-295 | Whether the last mapping has something to return can be told from the last event of the failed Migrate: a move of it, stopped after some names |
| MigrationProgress.NothingToReturn | migrator/cold_migrate.go:379-385 | For instance a failure at the first of two mappings leaves nothing to return, and no restart is reached |
| MigrationEvents.PreparedPulls | migrator/cold_migrate.go:108-166 | The log of a successful preparation: fitting, successful pulls, one for every image in use, and at its end both records stored or the volumes not |
| MigrationEvents.PrepareFailure | migrator/cold_migrate.go:108-166 | A preparation whose commands fail ends with a failed pull or a failure to store a record |
| MigrationEvents.MigrateEvent | migrator/cold_migrate.go:268-299 | Event by event, a complete Migrate: the network file, each recorded container stopped or absent, then each source marked and moved completely |
| MigrationEvents.MigrateFailure | migrator/cold_migrate.go:268-299 | A failed Migrate ends with the network file, a recorded container that did not stop, or a recorded mapping not moved completely |
| MigrationEvents.RevertEvent | migrator/cold_migrate.go:377-392 | Event by event, a complete revert: each destination moved back, then each container started, in recorded order |
| MigrationEvents.RevertFailure | migrator/cold_migrate.go:377-392 | A failed revert ends with a recorded mapping not moved back completely or a recorded container not started |
| MigrationEvents.FinishEvent | migrator/cold_migrate.go:326-370 | Event by event, a complete PostMigrate: docker uninstalled, pouch installed and connected, each deleted container removed or not found, the bridge deleted or not, then each survivor started |
| MigrationEvents.FinishFailure | migrator/cold_migrate.go:326-370 | A failed PostMigrate ends with one of the three replacement steps, a deleted container that is there and not removed, or a survivor not started |
| MigrationEvents.FinishFinishes | migrator/cold_migrate.go:345-370 | A complete PostMigrate removes exactly the deleted containers and starts exactly the survivors |
| ColdMigration.ColdMigrator.DoPrepare | migrator/cold_migrate.go:196-263 | Pulls the image exactly if no earlier container used it, with the snapshotter its driver calls for, and fails only for a failed pull or a missing snapshot directory |
| ColdMigration.ColdMigrator.PrepareContainers | migrator/cold_migrate.go:108-156 | Success records all IDs as absent, the running ones in order and one mapping per container, after exactly the pulls needed, and only if every container was inspected, got its snapshot and was saved; running containers are always among the recorded ones |
| ColdMigration.ColdMigrator.PreMigrate | migrator/cold_migrate.go:78-169 | Success means complete books, readable volumes, every container inspected, with a snapshot and saved, and every image in use pulled for its first container and that one's driver; then both records were stored or, without saying so, the volumes were not. It fails only for a missing listing, volume, inspection, snapshot or record, a failed pull, or a failure to store the sandbox records |
| ColdMigration.ColdMigrator.Migrate | migrator/cold_migrate.go:268-299 | Copies the network file, stops each recorded container, then marks and moves each directory, up to the first failure; success means nothing recorded runs and every mapping is moved, failure leaves a frontier behind which nothing was moved, and its last event tells whether the last mapping was moved in part |
| ColdMigration.ColdMigrator.RevertMigration | migrator/cold_migrate.go:377-395 | Without an I/O failure it reaches the restarts exactly when every mapping has something to return, and from a frontier it empties every destination even when it gives up early; success means all recorded containers run again |
| ColdMigration.ColdMigrator.PostMigrate | migrator/cold_migrate.go:302-374 | Replaces docker, removes exactly the recorded containers missing from the second listing (each once, in any map order), then starts exactly the recorded running ones that are still listed, in recorded order, up to the first failure; both are also stated of the events in the log, as is the event a failure ends with |
| ColdMigration.ColdMigrator.DeletedContainers | migrator/cold_migrate.go:319-324 | Whatever the order of the map, the containers not marked present, each once |
| VolumeRefs.VolumeIndex.ContainerVolumeRefsCount | migrator/volume_migrate.go:110-125 | The map after a call is the old one with every mount of the container counted |
| VolumeRefs.IndexIsKept | migrator/volume_migrate.go:110-125 | With no assumption on lengths, each entry splits into exactly the IDs that were not part of an earlier kept one |
| VolumeRefs.KeptIsUsers | migrator/volume_migrate.go:119-121 | The index lists the distinct users of a volume if and only if no user's ID is part of the ID of an earlier user |
| VolumeRefs.IndexIsExact | migrator/volume_migrate.go:110-125 | With IDs of one length, a volume has an entry exactly when it is used, the entry splits into its distinct users in first-reference order, and the substring test decides membership |
| VolumeRefs.UsersAreDistinctUsers | migrator/volume_migrate.go:110-125 | The reference list holds every container that mounts the volume with a driver, only those, and none twice |
| VolumeRefs.UsersGrow | migrator/volume_migrate.go:110-125 | Later containers only add users behind the earlier ones |
| VolumeRefs.MountsMeans | migrator/volume_migrate.go:111-114 | A container uses a volume when one of its mounts has that name and a driver |
| VolumeRefs.ShadowedMeans | migrator/volume_migrate.go:119 | An ID is found when some listed ID is it with something in front and behind |
| VolumeRefs.HiddenIdIsLost | migrator/volume_migrate.go:119-121 | An ID is in the index exactly when a user with it came before every user whose ID contains it; otherwise it never enters |
| VolumeRefs.RepeatChangesNothing | migrator/volume_migrate.go:110-125 | Counting a container again leaves the whole index as it is |
| VolumeRefs.ShortIdIsLost | migrator/volume_migrate.go:119-121 | For instance "a" after "ab" |
| VolumeRefs.UpdateVolumeRefs | migrator/volume_migrate.go:37-55 | Every referenced volume gets its entry as `ref` and nothing else in its options changes; alilocal volumes get the inspected size unless inspection fails |
| VolumeRefs.PrepareVolumes | migrator/volume_migrate.go:37-55 | Counting all containers and updating stores, for each volume in use, exactly the comma-joined list of the kept IDs, which is that of the distinct users if and only if no user's ID is hidden in an earlier one (never with IDs of one length), and for an alilocal volume its inspected size; unused volumes are left alone |
| Base64Url.JoseRoundTrip | ctrd/image/converter.go:285-296 | Decoding the unpadded base64url form of any byte string returns it |
| Base64Url.JoseDecodesTo | ctrd/image/converter.go:285-296 | Every text over the alphabet, of an acceptable length, decodes to the values of its letters in table 2 of RFC 4648, regrouped into octets bit by bit |
| Base64Url.UsualTail | ctrd/image/converter.go:285-296 | For instance "Cn0" decodes to a line feed and a closing brace |
| Base64Url.OthersAreRefused | ctrd/image/converter.go:295 | A character that is no letter, padding or line break is refused |
| Base64Url.PaddedAlready | ctrd/image/converter.go:286-294 | Padding that is there already makes no difference |
| Base64Url.LineBreaksAreSkipped | ctrd/image/converter.go:295 | Line breaks anywhere are skipped, apart from their effect on the length |
| Base64Url.NeverOneModuloFour | ctrd/image/converter.go:286-294 | An encoding never has the length that the decoder refuses |
| Base64Url.JoseAccepts | ctrd/image/converter.go:285-296 | A text over the alphabet is accepted exactly when its length is not 1 modulo 4, and is the encoding of its decoding exactly when its spare bits are zero |
| Schema1.StripRecoversPayload | ctrd/image/converter.go:298-326 | Stripping a signed document returns the payload it was made from, wherever the payload was cut |
| Schema1.StripOutcomes | ctrd/image/converter.go:298-326 | For a well-signed document: crash exactly for a negative length, refusal exactly for one beyond the document, otherwise the payload |
| Schema1.NegativeLengthCrashes | ctrd/image/converter.go:316-325 | For instance the length -1 |
| Schema1.StripAccepts | ctrd/image/converter.go:298-326 | For any document: refused exactly without a signature, with an unreadable first protected header, a length beyond the document or an unreadable tail; crashed only for a negative length; otherwise the stated part of the document and the tail |
| Schema1.EightMillionOctets | ctrd/image/converter.go:164 | Only the first 8,000,000 octets of what is delivered count |
| Schema1.IsEmptyLayer | ctrd/image/converter.go:249-269 | A layer is empty exactly if the entry says so, or says nothing and gives the size zero; only an unreadable entry is an error |
| Schema1.Converter.FetchManifest | ctrd/image/converter.go:156-182 | Succeeds exactly when the first 8 MB carry a strippable signature around a readable manifest, which it then keeps; otherwise the manifest is as before |
| Schema1.Converter.Handle | ctrd/image/converter.go:51-82 | For a schema 1 manifest succeeds exactly when the delivered manifest has one history entry per layer and the entries that decide a new blob are readable; then every layer has a state, each blob the flag decided first, and known blobs keep theirs |
| Schema1.Converter.ManifestHistory | ctrd/image/converter.go:184-220 | Fails exactly for a missing or empty manifest or an unreadable entry; otherwise the history reversed and, in the same order, the diff IDs of the entries not marked empty |
| Schema1.ConversionIsConsistent | ctrd/image/converter.go:205-216 | There are as many diff IDs as history entries that are no empty layer |
| Schema1.LayersInConcat | ctrd/image/converter.go:205-216 | Layers are counted entry by entry |
| Schema1.DiffIDsConcat | ctrd/image/converter.go:205-216 | Diff IDs are collected state by state, in order |
| Schema1.OneLayer | ctrd/image/converter.go:214-216 | An entry counts, and a state gives its diff ID, exactly if not empty |
| Schema1.FlagsOfFirst | ctrd/image/converter.go:66-76 | Layers that share a blob carry the flag decided for the first of them |
| Schema1.Converter.Convert | ctrd/image/converter.go:85-154 | Fails exactly when the history does, the newest entry is no image configuration, or the result cannot be written; otherwise it has the reversed history and its diff IDs |
| Schema1.PullSchema1 | ctrd/image/image.go:68-76 | Conversion follows only a successful dispatch, never runs past the layers, and succeeds exactly for a delivered manifest with equally many layers and entries, at least one, all readable and the newest an image configuration, that can be written; every history entry has the fields of the one it comes from and is empty exactly if the first entry with its blob has throwaway set, or has none and size zero; since no state ever gets a diff ID, all listed ones are empty |
| SandboxName.RegexIsSixParts | pouch/convertor/cri.go:36 | The regular expression matches exactly the names that split at "_" into k8s, POD, three non-empty parts and a digit string |
| SandboxName.ParsePrinted | pouch/convertor/cri.go:142-159 | Parsing a printed record with non-empty underscore-free fields and a 32-bit attempt returns it |
| SandboxName.ParseExactly | pouch/convertor/cri.go:142-159 | A name yields a record exactly if it has the six parts and an attempt of at most 4294967295, and then its third to fifth parts and that number |
| SandboxName.DecimalPlaces | pouch/convertor/cri.go:148 | A further digit multiplies the number by ten and adds the digit |
| SandboxName.PrintParsed | pouch/convertor/cri.go:142-159 | Printing a parsed name returns it exactly when the attempt has no leading zero |
| SandboxName.ParseFailsOnOverflow | pouch/convertor/cri.go:147-151 | On matching names the sixth part exists, and parsing fails exactly when the attempt exceeds 2^32 - 1 |
| ResolvConf.ToDNSConfig | pouch/convertor/cri.go:197-239 | No path gives no configuration, an unreadable file an error, any other file its parse, whose entries are never empty or padded |
| ResolvConf.ParseConcat | pouch/convertor/cri.go:217-232 | Parsing two texts joined by a line break appends the three lists |
| ResolvConf.LineMeans | pouch/convertor/cri.go:217-232 | What one line says, whatever it is: trimmed and cut at spaces, its first word is the key and the others are taken, trimmed and without empty ones |
| ResolvConf.IndentedLine | pouch/convertor/cri.go:218 | White space around a line makes no difference |
| ResolvConf.ServersLine | pouch/convertor/cri.go:227-228 | A line of name servers gives just them |
| ResolvConf.SearchesLine | pouch/convertor/cri.go:225-226 | A line of search domains gives just them |
| ResolvConf.OptionsLine | pouch/convertor/cri.go:229-230 | A line of options gives just them |
| ResolvConf.ParsePrinted | pouch/convertor/cri.go:217-238 | Lists of non-empty words printed as lines are parsed back unchanged |
| PodSandbox.ToPodSandboxConfig | pouch/convertor/cri.go:96-120 | For every order of the map: the labels without prefixed and type keys, and the prior annotations overridden by the unprefixed ones, in the container's own map if it has one |
| PodSandbox.AnnotationLookup | pouch/convertor/cri.go:112-118 | An annotation is present exactly when the label with the prefixed name is, with its value |
| PodSandbox.LabelLookup | pouch/convertor/cri.go:105-109 | A label is kept, with its value, exactly if it neither begins with "annotation." nor is one of the two type markers |
| PodSandbox.LabelsAreSplit | pouch/convertor/cri.go:105-118 | Every label but the two type markers ends up in exactly one of labels and annotations, with its value |
| PodSandbox.TrimIsInjective | pouch/convertor/cri.go:117 | Removing the prefix once never merges two annotations |
| NoProxy.UseProxy | ctrd/image_proxy_util.go:151-203 | An empty address uses the proxy; any other one does exactly when it splits into host and port, the host is neither localhost nor loopback, the text is not "\*" and no entry covers the host |
| NoProxy.DecisionMeans | ctrd/image_proxy_util.go:151-203 | The same in the terms of the address: empty, not host and port, host "localhost" or loopback, text "\*", or the lower-cased, port-stripped host excluded by the list |
| NoProxy.BypassedMeans | ctrd/image_proxy_util.go:178-202 | The list excludes a host exactly if one of its entries matches it |
| NoProxy.EntryMeans | ctrd/image_proxy_util.go:178-200 | Any entry, however written: trimmed, lower-cased and without its port it stands for the host it names, a dot in front left aside, and for every host below it |
| GoStrings.ToLowerAt | ctrd/image_proxy_util.go:179 | A capital letter moves by 32, and any other character stays |
| GoStrings.WhiteSpace | ctrd/image_proxy_util.go:179 | What counts as white space, character by character |
| NoProxy.SplitsExactly | ctrd/image_proxy_util.go:155-158 | Host and port are found exactly in two texts around one colon without brackets, or in a bracketed host before a colon and a port |
| NoProxy.DefaultPorts | ctrd/image_proxy_util.go:100-116 | Without a port http gets 80, https 443, socks5 1080 and anything else none |
| NoProxy.StripNothing | ctrd/image_proxy_util.go:173-176 | Without a colon behind the last bracket nothing is stripped |
| NoProxy.HostDecides | ctrd/image_proxy_util.go:74-80 | For a URL, with or without a port, the answer depends on its host alone: local hosts and those the list covers, IPv6 addresses named in brackets, bypass the proxy |
| NoProxy.SplitCanonical | ctrd/image_proxy_util.go:109-116 | Splitting a canonical address gives back the host of the URL, IPv6 address or not |
| NoProxy.EntryBypasses | ctrd/image_proxy_util.go:178-201 | The tests on one entry decide exactly whether the host equals the entry's name or ends with a dot and it, dot in front or not |
| NoProxy.BodyTests | ctrd/image_proxy_util.go:192-200 | The index of the last test is in range, and the three tests together are that condition |
| NoProxy.WrittenEntry | ctrd/image_proxy_util.go:178-200 | White space around an entry, a dot in front of it, a port behind it and the case of its letters make no difference |
| NoProxy.StripCanonical | ctrd/image_proxy_util.go:109-116 | Stripping the port of a canonical address gives back the host, bracketed when it contains a colon |
| NoProxy.HostOfAddress | ctrd/image_proxy_util.go:173-176 | The host that is looked up for a canonical address is the URL's, in lower case, whether the port is the URL's or the scheme's default |
| NoProxy.OrderIsIrrelevant | ctrd/image_proxy_util.go:178-201 | The answer depends on the set of entries alone |
| NoProxy.TextsCompose | ctrd/image_proxy_util.go:178-201 | A joined text bypasses exactly what one of its parts bypasses |
| NoProxy.AppendingEntries | ctrd/image_proxy_util.go:168-201 | Appending entries sends a host back to the proxy exactly when the text was the lone "\*" and no entry of the longer text covers it |
| NoProxy.WildcardInList | ctrd/image_proxy_util.go:168-201 | For instance the host "a" when "b" is appended |
| ImageRef.Completes | ctrd/image/image.go:170-187 | Every reference: a bare name gets registry and namespace; a first part with a dot or colon is the registry, completed by the namespace only if it is the default one and nothing but a name follows; any other first part belongs to the name |
| ImageRef.FixedPoints | ctrd/image/image.go:170-187 | Unchanged are exactly the references with an explicit registry that is not the default or whose remainder has a slash |
| ImageRef.Idempotent | ctrd/image/image.go:170-187 | Twice is once exactly when the registry is explicit or the head of the default registry looks like one |
| ImageRef.PlainRegistryIsAddedAgain | ctrd/image/image.go:170-187 | For instance "a" with the default registry "reg" gets it twice |
| ImageRef.ShortFormsAgree | ctrd/image/image.go:170-187 | A bare name, the name in the default namespace and the name at the default registry normalise to the same reference |
| SliceUtils.StringSliceEqual | utils/utils.go:61-90 | Non-nil slices are equal exactly when they are the same multiset; a nil one only equals nil |
| SliceUtils.EqualWhenNoExcess | utils/utils.go:80-89 | Equal lengths and no negative count force every count to zero |
| SliceUtils.RemoveDuplicateElement | utils/utils.go:93-103 | Each element once, in order of first occurrence |
| SliceUtils.ListsOnceUnique | utils/utils.go:93-103 | There is only one such list |
| SliceUtils.DistinctIdempotent | utils/utils.go:93-103 | Removing duplicates twice is removing them once |
| SliceUtils.SliceTrimSpace | utils/utils.go:106-116 | Yields the trimmed non-empty items in order |
| SliceUtils.TrimAllConcat | utils/utils.go:106-116 | Trimming distributes over concatenation |
| SliceUtils.TrimAllOne | utils/utils.go:106-116 | One item gives its trimmed text, or nothing if that is empty |
| SliceUtils.TrimAllKeeps | utils/utils.go:106-116 | Clean lists are fixed points |
| SliceUtils.StringInSlice | utils/utils.go:45-57 | Finds exactly the members, except the empty string |
| ContainerEnv.ParseEnvironment | pouch/convertor/core.go:581-593 | The map in which the last entry with exactly one "=" decides each key |
| ContainerEnv.ParseExactly | pouch/convertor/core.go:581-593 | A key has a value exactly if some entry is the two around "=", neither with another one, and no later such entry has the key |
| ContainerEnv.LastEntryDecides | pouch/convertor/core.go:581-593 | A key's value comes from an entry that no later one overrides |
| ContainerEnv.RewriteRunMode | pouch/convertor/core.go:126-139 | In place, only the first entry with the old run mode becomes "vm" |
| ContainerEnv.RewriteIsLocal | pouch/convertor/core.go:126-139 | The length is kept; if a mode other than "vm" is set exactly one position changes, the first entry that is ali_run_mode with that mode, and it becomes ali_run_mode=vm; otherwise none |
| ContainerEnv.RewriteCommutesWithParsing | pouch/convertor/core.go:126-139 | Parsing the rewritten list is the old map with the key set to "vm" exactly when the mode was "vm" already or its entry occurs once; without the key nothing changes |
| ContainerEnv.RepeatedEntryDecides | pouch/convertor/core.go:126-139 | For instance two equal entries: the second one keeps the old mode |
| ContainerEnv.CompleteCapabilities | pouch/convertor/core.go:310-317 | The list followed by those of the six required capabilities it lacks, so that none is missing, and completing again adds nothing |
| ContainerEnv.MissingConcat | pouch/convertor/core.go:311-317 | What a list lacks of two lists is what it lacks of the one and then of the other |
| ContainerEnv.AddAllAppendsMissing | pouch/convertor/core.go:311-317 | Adding items in turn appends exactly those missing |
| ContainerEnv.AddAllIdempotent | pouch/convertor/core.go:311-317 | Adding the items again changes nothing |
| ContainerEnv.AddPreloadBind | pouch/convertor/core.go:161-170 | A non-empty LD_PRELOAD is bound read-only at its own path, once; otherwise binds are unchanged |

## Left out

- Clients of docker, containerd and pouch, package and service commands, sockets and boltdb: each is an event that succeeds or fails.
- The listing of containers, each container's inspection and conversion, its snapshot directory and the success of saving its record are inputs of `PreMigrate`; creating snapshots and setting quotas are part of the snapshot input.
- Counting volume references and collecting sandbox containers inside the loop of `PreMigrate`: modelled by themselves in `VolumeRefs` and `SandboxName`, not threaded through the run; storing them is one event each.
- The wrapper around the migrators (migrator/migrator.go:60-149): creating it, starting containerd and preparing pouch's configuration come before the listing and are the input `environmentOk` of `Run`; stopping containerd after Migrate always reports success, so it is no step of its own.
- The `PrepareImages` flag of `runCmd`, flag parsing, logging, version and build scripts.
- `mv` at a finer grain: name collisions, a missing destination directory (which a single moved entry would then become), half-copied entries, shell quoting and path cleaning. Entries move whole.
- JSON decoding, registry resolution, `images.Dispatch` and blob writing: external, able to fail. The encoded image configuration, its digests and labels and the image record are not modelled.
- `stripSignature` appends the tail over the buffer of the document; the model returns a new sequence, and the overwritten buffer is not used afterwards.
- `ToPouchContainerMeta` rewrites an environment slice that it shares with docker's configuration; that sharing is not modelled.
- Which texts are loopback IP addresses is an input of `UseProxy`; host and port are joined and split as in current Go, where a percent sign is an ordinary character. The cached environment lookup and credentials are left out.
- Lower-casing is that of ASCII letters; texts are sequences of characters, and only the manifest is a sequence of bytes.
- Field-by-field copies, time conversion, quota rules and plugins: true by reading one line.
- The live migrator: its reconciliation repeats the cold one and its revert does nothing.
- `utils.Contains` and `IfThenElse`: reflection, and a plain choice.
