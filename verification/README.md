# Verified models of DumbMonit

DumbMonit watches machines and devices: agents measure and push samples, a server
stores them, polls devices through integration packs, serves status pages, and can
ask an agent to update a container. This project models the parts of it where a
mistake is costly and hard to see, and proves what they promise.

| file | what it is about |
|---|---|
| `Docker.dfy`, `Replacement.dfy`, `ContainerUpdate.dfy`, `UpdateRuns.dfy` | the container-update protocol against a daemon in which any call may fail and the agent may be killed between any two calls; the last one shows where it falls short, one command or two |
| `Recreate.dfy` | turning an inspected container into the request that recreates it |
| `StatusCache.dfy` | the cache of status-page domains, any number of threads interleaved |
| `Exposition.dfy`, `Spelling.dfy`, `Families.dfy`, `PrintAndRead.dfy` | the parser and the printer of the exposition format, the grammar of its lines, the family of each sample, and the round trip |
| `Compile.dfy`, `Compiled.dfy`, `Extract.dfy`, `Produced.dfy`, `Coverage.dfy`, `Identity.dfy` | integration packs: what is accepted and what it compiles to, what is extracted and which samples that is, why the second stays within the first, and the labels the server adds |
| `Delivery.dfy` | the agent's bounded buffer and delivery loop |
| `Scheduler.dfy` | the server's probe scheduler |
| `Chunked.dfy` | HTTP responses of the Docker daemon, chunked bodies included |
| `Template.dfy` | placeholders in a pack and the encoding of values in a URL |
| `Versions.dfy` | version order, choice of a release, and the update checker |
| `LogFile.dfy` | the bounded log file |
| `CounterPath.dfy` | Windows counter paths |
| `Text.dfy`, `Lists.dfy`, `Wrappers.dfy` | strings as the Rust library treats them; lists that are filtered and mapped; shared types |

`dafny verify dfyconfig.toml` checks everything.

## How it is modelled

- What the source changes in place is a class or a method with the source's own
  loops; each such method is proved equal to a function of the old state, or its
  contract states the property outright. The theorems are about those functions, about
  whole traces, or about every reachable state. Beside each function that says how a
  result is computed stands a description that does not: which input elements are used
  and what each of them gives (`Lists.Yields`), a grammar, or the exact condition.
- The daemon, the server, the disk, the database and the threads are nondeterministic
  environments. A call may be refused, may get no answer, or may take effect without an
  answer; a write may be cut short; a tick may come at any time.
- Every call of the update command is one step of a ghost trace that records what the
  daemon held before and after. "Killed at any point" is then "for every cut of the
  trace".
- JSONPath, regular expressions, JSON and float parsing are function parameters. Of
  floats only this is used: a printed number is one word and reads back as itself.

Assumptions: the update command names the container by its own name; nobody but the
agent edits the daemon's containers, but processes may die and health may change between
any two calls; and the daemon lays an image's configuration under a request key by key:
missing variables, labels, ports and volumes come from the image, and so does a missing
or empty entry point, directory, user or command, the command only if the request has no
entry point either.

## Where a property fails, exactly

- Delivery: an agent that stops loses samples without counting them, except exactly when
  nothing is pending at the shutdown, or at most one batch is and the last send is
  acknowledged or refused (`Delivery.RunAddsUp`, `Delivery.Agent.Run`).
- Exported labels: renaming loses a label exactly when two names meet, as `target` and
  `__target` do (`Coverage.ExportLosesNothing`, `Coverage.ReservedNamesMeet`).
- Printed pages: the page depends on the order of the samples exactly when two samples
  of one name differ in kind (`PrintAndRead.PageIsCanonical`).
- Container updates: the rollback removes the new container before it starts the old one,
  and yet the two can run together: only once that removal was asked for and failed, and
  then, for every container that ran, some command does end so
  (`UpdateRuns.PairRunsTogetherOnlyThen`, `UpdateRuns.PairMayRunTogether`).
- Container updates: crash safety is that of one command. A command that is killed in a
  replacement or a rollback, or whose creation loses its answer while nobody is killed
  (`UpdateRuns.LostCreateLeavesThePair`), can leave the old container under the
  reserved name and a half-made one under its own. When nothing goes wrong in the next
  command and the half-made one may be updated, that command asks for the removal of the
  old one exactly when the half-made one has its reference and labels and is outdated in
  turn; otherwise it never does (`UpdateRuns.UpdateAgain`). So the service can end
  with neither container and one that was never started, although no call of that second
  command fails (`UpdateRuns.NextCommandLosesTheOld`).
- Recreation: a setting comes back on the same image under exact conditions
  (`Recreate.RecreationKeepsSettings`). A list does when it still holds every key of the
  image's (`Recreate.EntriesComeBack`, `Recreate.FieldsComeBack`). A command is lost when
  the user gave another entry point and the very command of the image
  (`Recreate.RepeatedCommandIsLost`). An entry point, or another setting, that was
  cleared returns (`Recreate.ClearedEntrypointReturns`).
- Versions: identifiers rank as Semantic Versioning says exactly when they are not
  numbers beyond 64 bits, and so do versions exactly when they hold no such identifier
  (`Versions.AgreesUnlessHuge`, `Versions.VersionAgreesUnlessHuge`).
- Counter paths: an accepted path survives being written out exactly when it does not
  start like one that names a machine (`CounterPath.ReparseIsStable`).
- Templates: when its placeholders are closed and known, a template is refused exactly
  when closing braces follow the last of them (`Template.RefusedExactlyWhen`).

## Model

| member | source | states |
|---|---|---|
| `Docker.EffectKeepsNamesUnique` | crates/agent/src/commands.rs:404-420 | no call of the daemon's interface gives one name to two containers |
| `Docker.Daemon.Perform` | crates/agent/src/commands.rs:507-532 | one call, with every outcome the daemon and the network allow: done, refused, not found, already so, or no answer with or without the effect |
| `Replacement.EveryCutKeepsTheOld` | crates/agent/src/commands.rs:379-399 | wherever the agent is killed, the old container is still there, or its replacement had been created and, if the old one ran, seen running and well, before its removal was asked for |
| `Replacement.RemovalHasAReason` | crates/agent/src/commands.rs:386-390 | a trace that justifies the removal contains the very call, made right after the replacement was seen well |
| `ContainerUpdate.PullAndCompare` | crates/agent/src/commands.rs:361-375 | the reference is pulled, and "nothing to do" is answered exactly when it names the image in use afterwards; otherwise a request for the same reference and the same networks; an error only if that very call failed or the inspection cannot be reproduced |
| `Replacement.Poll` | crates/agent/src/commands.rs:581-607 | one look at the container leaves the wait going exactly while it runs and is younger than ten seconds without a healthcheck, or than two minutes with one that has not passed; otherwise good means seen well and bad seen badly |
| `Replacement.LookSettles` | crates/agent/src/commands.rs:581-607 | a look that does not leave it undecided shows the container well or badly, never both, and badly exactly if it does not run, is unhealthy, or is not healthy in time |
| `Replacement.WaitUntilHealthy` | crates/agent/src/commands.rs:577-609 | ends within 61 polls whatever the daemon says, at the first look that settles it; Ok only if the container was just seen well, an error only if it was just seen badly or the call failed |
| `Replacement.SwitchOver` | crates/agent/src/commands.rs:428-434 | the old one is stopped before the new one is started; Ok only after the wait |
| `Replacement.ConnectNetworks` | crates/agent/src/commands.rs:421-427 | Ok means every further network is connected, in order, and nothing else changed |
| `Replacement.Replace` | crates/agent/src/commands.rs:404-440 | makes only calls a replacement is made of, and starts or stops nothing if the old one did not run; fails only at a call that failed or that saw the new container badly; Ok means created with the requested image, labels and every network, seen well if the old one ran, and the old one stopped |
| `Replacement.NothingIsStarted` | crates/agent/src/commands.rs:404-473 | as long as no container is started or stopped, whatever did not run when the command began does not run at any point of it, new or old |
| `Replacement.RollbackSwitchesNothing` | crates/agent/src/commands.rs:459-473 | undoing the replacement of a container that did not run starts and stops nothing |
| `Replacement.ReplaceIsSafe` | crates/agent/src/commands.rs:404-440 | every trace of such calls is crash safe and never starts one of the pair while the other runs |
| `Replacement.ReplaceKeeps` | crates/agent/src/commands.rs:404-440 | such calls leave the old container in place, unchanged but for its running state |
| `Replacement.RenameContainer` | crates/agent/src/commands.rs:378-381 | only the name may change, and only if the call worked or its answer was lost |
| `Replacement.RemoveContainer` | crates/agent/src/commands.rs:521-531 | only that container may go, and it is gone if the call worked or found none |
| `ContainerUpdate.Settle` | crates/agent/src/commands.rs:386-393 | exactly the removal of the old container and, if asked for, of its image; whatever comes of them the new one stays as it is |
| `Replacement.Rollback` | crates/agent/src/commands.rs:444-473 | exactly the calls that put the old container back, each made whatever the one before it answered; the old container stays, and if they work it has its name back, runs if and only if it ran, and the new one is gone |
| `ContainerUpdate.FindLeftover` | crates/agent/src/commands.rs:480-505 | a container bearing the reserved name is reported if and only if it is this one's own leftover; an error means that the call failed, or that a stranger bears it |
| `ContainerUpdate.RemoveStalePrevious` | crates/agent/src/commands.rs:480-498 | a recognised leftover has been asked to go, and only it can be missing; nothing was started, and the container to update was there all along; an error only for a stranger or a failed inspection |
| `ContainerUpdate.SetAside` | crates/agent/src/commands.rs:352-382 | up to the rename nothing is made, started or stopped, and nothing but a recognised leftover can be missing, whatever the outcome; "up to date" only after a pull that left the reference naming the image in use; every error is tied to what was met or to the call that failed, and leaves the other containers as they were, save for the name of the old one when the answer to its rename is lost |
| `ContainerUpdate.MoveAside` | crates/agent/src/commands.rs:377-382 | the rename: the old one waits under the reserved name, or the call failed and nothing changed, or its answer was lost |
| `ContainerUpdate.SwapOrUndo` | crates/agent/src/commands.rs:385-399 | after the rename: the calls of a replacement, and then either exactly the settling calls after it was seen well, or exactly the rollback calls after a cause |
| `ContainerUpdate.Conclude` | crates/agent/src/commands.rs:384-400 | from the rename on: the shape of the trace, the final state for each outcome, and the survival of every container but the old one after a success and the recognised leftover |
| `ContainerUpdate.Update` | crates/agent/src/commands.rs:352-400 | the whole command over every schedule of failures, in a trace that begins with what it found: crash safety of whichever container bore the name, the pair never started together but by a rollback whose removal failed, a container that was stopped stays stopped, for then no call of the command starts or stops any container and nothing runs that did not, no other container touched but a recognised leftover, the shape of the trace and the final state for each outcome, every failure tied to what was met or to its last call; and if nothing goes wrong, an acceptable container is updated if and only if its freshly pulled image differs, and the removal of a container under the reserved name is asked for if and only if it is then a recognised leftover |
| `Replacement.BystandersStay` | crates/agent/src/commands.rs:352-400 | a container that no call is out to change is, at the end of every trace, what it was when the command began |
| `UpdateRuns.PairRunsTogetherOnlyThen` | crates/agent/src/commands.rs:444-473 | wherever a command is cut, the pair runs together only if the removal of the new container had been asked for and had failed |
| `UpdateRuns.PairMayRunTogether` | crates/agent/src/commands.rs:444-473 | for every running container, a command on it that ends that way |
| `UpdateRuns.UpdateAgain` | crates/agent/src/commands.rs:475-505 | two commands in a row: with the pair left behind by the first one, the second one asks for the removal of the old container only if the new one has its reference and labels and is outdated, and then it does, unless something goes wrong or the new one may not be updated |
| `UpdateRuns.RollbackIsPair` | crates/agent/src/commands.rs:404-473 | a replacement with its rollback, cut anywhere, is made of the calls the first of the two commands may have made |
| `UpdateRuns.PairKeeps` | crates/agent/src/commands.rs:404-473 | after any such calls the old container is what it was but for its name, and the new one what it was made |
| `UpdateRuns.LostCreateLeavesThePair` | crates/agent/src/commands.rs:414-473 | for every running container, a command on it that leaves the pair behind although nobody is killed |
| `UpdateRuns.NextCommandLosesTheOld` | crates/agent/src/commands.rs:352-400 | for every such pair, a next command in which no call fails and which ends with neither container, and with one that was never started |
| `Recreate.SubtractImageDefaults` | crates/agent/src/commands.rs:771-796 | the loops compute, member by member, the configuration without what the image supplied |
| `Recreate.KeptIffChosen` | crates/agent/src/commands.rs:777-779 | a variable of the image is still set after the subtraction exactly when the user gave it another value |
| `Recreate.EntriesComeBack` | crates/agent/src/commands.rs:765-787 | on the old image the environment comes back, if and only if every variable of the image is still set |
| `Recreate.EntriesOnNewImage` | crates/agent/src/commands.rs:765-787 | on a new image the user's entries stay and all the others are the new image's, each variable set once |
| `Recreate.FieldsComeBack` | crates/agent/src/commands.rs:780-784 | the same for labels, ports and volumes: they come back if and only if the image's keys are all there |
| `Recreate.RecreationKeepsSettings` | crates/agent/src/commands.rs:771-796 | on the same image each setting is what it was, if and only if a condition on the container and the image holds: lists hold the keys of the image, nothing was cleared, and no command repeats the image's beside an entry point of the user's own |
| `Recreate.RepeatedCommandIsLost` | crates/agent/src/commands.rs:789-795 | every container with its own entry point and the command of its image comes back without a command |
| `Recreate.RecreationOnNewImage` | crates/agent/src/commands.rs:765-796 | on another image each of the eight settings keeps what the user chose and takes the rest from the new image: variable by variable, label by label, and as a whole where it is no list; no command is taken beside the user's own entry point |
| `Recreate.ClearedEntrypointReturns` | crates/agent/src/commands.rs:789-795 | a cleared entry point comes back as that of the image |
| `Recreate.TimesBound` | crates/agent/src/commands.rs:706-741 | how often each destination is bound after recreation: as before, plus once for each volume mounted where nothing was bound |
| `Recreate.BindTargetReads` | crates/agent/src/commands.rs:711-737 | the destination is read back from the bind that was written for a volume |
| `Recreate.VolumesAreBoundOnce` | crates/agent/src/commands.rs:706-741 | with one volume to a destination, each is reached by exactly one bind, which names that volume and has its mode, or by what already covered its destination |
| `Recreate.VolumesAreAdded` | crates/agent/src/commands.rs:724-738 | all earlier binds stay in order, and after them comes exactly one bind for each volume that nothing covers, in the order of the mounts, which reads as its name, its destination, and read-only if and only if the mount was not writable |
| `Recreate.HostKeepsItsVolumes` | crates/agent/src/commands.rs:706-741 | the same of the host configuration of the new container, a volume being covered exactly if a bind or a mount of the old one has its destination; nothing else in it changes |
| `Recreate.BoundIsCovered` | crates/agent/src/commands.rs:708-713 | a destination is covered by the binds exactly if one of them reads so |
| `Recreate.BindReads` | crates/agent/src/commands.rs:711-737 | a written bind is read back: source, destination, mode |
| `Recreate.AliasesAreDistinct` | crates/agent/src/commands.rs:802-814 | the aliases kept are the old ones, each once, without the one that repeats the identifier |
| `Recreate.CleanEndpoint` | crates/agent/src/commands.rs:800-825 | aliases and the three settings that can be asked for, and nothing else |
| `Recreate.EndpointKeeps` | crates/agent/src/commands.rs:800-825 | setting by setting: the three that can be asked for stay unless null, aliases stay but the old identifier, no empty list of them is written, and everything else goes |
| `Recreate.NetworksAreSplit` | crates/agent/src/commands.rs:743-758 | the container joins exactly the networks it was on, one at creation, the others after, none twice |
| `Recreate.FromInspect` | crates/agent/src/commands.rs:685-763 | fails exactly without a configuration or a host configuration; otherwise every other member passes through, except a host name that repeats the identifier; the host configuration is the one of `Recreate.HostKeepsItsVolumes`, the networks those of `Recreate.NetworksAreSplit` |
| `Recreate.OwnNameIsDropped` | crates/agent/src/commands.rs:697-704 | a host name is dropped exactly when it is the first twelve characters of the identifier |
| `StatusCache.StepKeepsInv` | crates/server/src/status_host.rs:142-169 | every atomic step of every thread keeps the invariant |
| `StatusCache.StepKeepsBumps` | crates/server/src/status_host.rs:142-167 | a loader that missed a write whose counter was bumped remembers an older counter |
| `StatusCache.StepKeepsHeldFresh` | crates/server/src/status_host.rs:164-167 | a list about to be inserted misses no acknowledged write, even when a bump lands between the check and the insertion |
| `StatusCache.CallRemembers` | crates/server/src/status_host.rs:148-169 | a write acknowledged before a call began is among those the call must reflect |
| `StatusCache.NoStaleAnswer` | crates/server/src/status_host.rs:142-169 | once an invalidation has returned, every call that begins later and whose own query does not fail ends with a list, read at or after that write and held by the database then |
| `StatusCache.NoListMeansFailure` | crates/server/src/status_host.rs:153-162 | over all runs, a call ends without a list if and only if its own query failed |
| `StatusCache.AnswersItsCall` | crates/server/src/status_host.rs:148-169 | a call answers for the key it was made with |
| `StatusCache.AnswerWasWritten` | crates/server/src/status_host.rs:148-169 | the list a call answers is the one that the last of the writes it has seen wrote for its key, and empty if there was none |
| `StatusCache.QuietCallFillsTheCache` | crates/server/src/status_host.rs:148-169 | a call with no invalidation under its way, whose query does not fail, leaves its key cached |
| `StatusCache.CachedNeedsNoQuery` | crates/server/src/status_host.rs:150-152 | until the next invalidation a cached key stays cached and every call for it answers from the cache |
| `StatusCache.CachedSinceClear` | crates/server/src/status_host.rs:142-145 | what is cached after an invalidation was inserted after it, by a loader of that key |
| `StatusCache.QuietCacheIsCurrent` | crates/server/src/status_host.rs:142-169 | with no invalidation under way, whatever is cached is the current list, even if a loader was caught between its check and its insertion |
| `StatusCache.MissedWriteIsNotInserted` | crates/server/src/status_host.rs:164-167 | a list that misses an acknowledged write is never inserted |
| `StatusCache.RunSettles` | crates/server/src/status_host.rs:142-169 | histories only grow and answers given stay given |
| `Exposition.Parse` | crates/pack/src/prom.rs:26-59 | the loop over lines gives what the line-by-line reading gives, errors with their line included |
| `Exposition.ParseLabels` | crates/pack/src/prom.rs:105-140 | the nested loops read labels and quoted values as specified |
| `Exposition.ParseSample` | crates/pack/src/prom.rs:74-95 | a sample line is its name, its labels and its value, or the error the source reports |
| `Exposition.ParsedIsWellRead` | crates/pack/src/prom.rs:26-70 | on every readable page, names and label names are valid and a family is the sample's name or that name minus one of the five suffixes |
| `Exposition.SuffixFamily` | crates/pack/src/prom.rs:61-70 | a family found by suffix is declared, and is the name without a suffix of the list |
| `Families.SamplesHaveTheirFamilies` | crates/pack/src/prom.rs:26-70 | on every page that can be read the samples are those of the sample lines, in order; the family of each is its name if an earlier line declares it, otherwise the name without the first suffix of the list that leaves a declared name, and none if and only if there is neither; its type is the last one declared before it |
| `Families.PageHasItsFamilies` | crates/pack/src/prom.rs:26-70 | the same of a whole page |
| `Families.FamilyFound` | crates/pack/src/prom.rs:61-70 | the family that is found is the one the earlier lines of the page declare, name first and suffixes in list order |
| `Families.PageIsReadExactlyWhenSaid` | crates/pack/src/prom.rs:26-59 | a page is read if and only if every sample line is one of the grammar; otherwise the error has the number of the first that is not |
| `Spelling.ReadExactlyWhatIsSaid` | crates/pack/src/prom.rs:74-140 | a line is read as a sample if and only if it is spelt by the grammar, and as what it means: a name, labels with any white space, any escapes and any commas, the later of two of one name counting, then the first word as the value and anything behind it ignored |
| `Spelling.LabelsMean` | crates/pack/src/prom.rs:105-140 | however labels are spelt, they are read as what they mean, and the rest of the line is left |
| `Spelling.LabelsAreSpelt` | crates/pack/src/prom.rs:105-140 | whatever is read as labels is a spelling of them |
| `Exposition.PushFiles` | crates/pack/src/fixture.rs:46-46 | one more sample keeps, for each name, its first kind and its lines in order |
| `Exposition.PrintLine` | crates/pack/src/fixture.rs:32-45 | one sample, one line |
| `Exposition.Render` | crates/pack/src/fixture.rs:30-62 | the map of line vectors, sorted and written out, is the page: one block a family, in order |
| `PrintAndRead.EscapeIsCharwise` | crates/pack/src/fixture.rs:64-66 | three passes of replacement come to one pass, character by character |
| `PrintAndRead.QuotedReads` | crates/pack/src/prom.rs:119-131 | whatever a value holds, quotes, backslashes and line ends included, it is read back |
| `PrintAndRead.LabelsRead` | crates/pack/src/prom.rs:105-140 | printed labels are read back, all of them, and the rest of the line is left |
| `PrintAndRead.SampleReads` | crates/pack/src/prom.rs:74-95 | a printed sample is read back with its name, labels and value |
| `PrintAndRead.LineIsClean` | crates/pack/src/fixture.rs:32-45 | a printed sample is one line, with nothing to trim, and no comment |
| `PrintAndRead.HeaderDeclares` | crates/pack/src/fixture.rs:55-55 | a printed header declares its family and kind |
| `PrintAndRead.FamilyReads` | crates/pack/src/prom.rs:26-59 | the lines of an announced family give its samples, each in that family |
| `PrintAndRead.GatherAll` | crates/pack/src/fixture.rs:31-46 | the families partition the samples |
| `Text.SortForgetsOrder` | crates/pack/src/fixture.rs:50-50 | sorting lines forgets their order and nothing else |
| `PrintAndRead.RoundTrip` | crates/pack/src/fixture.rs:30-62 | a printed page is always readable and gives a permutation of the samples, unchanged, each in its own family |
| `PrintAndRead.UniformPage` | crates/pack/src/fixture.rs:46-57 | two orders of samples whose kinds agree give one page |
| `PrintAndRead.MixedKindsShow` | crates/pack/src/fixture.rs:46-57 | samples of one name and two kinds have an order that gives another page |
| `PrintAndRead.PageIsCanonical` | crates/pack/src/fixture.rs:46-57 | the page depends only on which samples there are, if and only if samples of one name are of one kind |
| `Compile.Compile` | crates/pack/src/compile.rs:161-216 | accepts exactly the manifests that meet a declarative description, and then builds exactly the pack they describe, each metric in the source it names |
| `Compiled.SourceIsCompiled` | crates/pack/src/compile.rs:374-490 | an accepted manifest compiles to one source for each of its own, in order, with the format of its type, its kept families under their new names, its drop rules, and exactly the metrics and discovered rows that name it, in manifest order, each as `Compiled.MetricReads` and `Compiled.DiscoverReads` say |
| `Compiled.MetricReads` | crates/pack/src/compile.rs:702-771 | an accepted metric has the prefixed name, the kind, the scale, the values, the one extractor and the labels of the manifest, each label read from the place that goes with the extractor |
| `Compiled.DiscoverReads` | crates/pack/src/compile.rs:633-685 | discovered rows have the bound, the path, the labels and the metrics of the manifest |
| `Compile.Compiler.Claim` | crates/pack/src/compile.rs:570-593 | registers a name; malformed or repeated, it is an error |
| `Compile.Compiler.CompileSource` | crates/pack/src/compile.rs:374-490 | a source complains exactly when something in it does not suit its type, its kept names are not names, or its expressions do not compile |
| `Compile.Compiler.Labels` | crates/pack/src/compile.rs:718-724 | labels complain exactly when one is refused or cannot be read |
| `Compile.Compiler.CompileMetric` | crates/pack/src/compile.rs:702-771 | the complaints it makes are those of a metric that is not acceptable for its source |
| `Compile.Compiler.PlaceMetrics` | crates/pack/src/compile.rs:621-631 | each metric is pushed onto the first source of its name, or is an error |
| `Compile.Compiler.PlaceDiscovers` | crates/pack/src/compile.rs:633-685 | the same for discovered rows |
| `Compile.Compiler.CompileDiscover` | crates/pack/src/compile.rs:639-684 | discovered rows complain exactly when their source, their bound, their paths or their labels are not acceptable |
| `Compile.PushedMetric` | crates/pack/src/compile.rs:623-630 | pushing a metric onto the source it names gives the sources with that metric |
| `Compile.Compiler.KeepFamilies` | crates/pack/src/compile.rs:609-619 | kept families claim their new names, and their suffixed series are listed as variants |
| `Compile.Compiler.Sources` | crates/pack/src/compile.rs:342-490 | at most sixteen sources, distinct well-formed names, and only what suits their type |
| `Compile.Compiler.CheckLabel` | crates/pack/src/compile.rs:687-694 | a label is refused if malformed, reserved, or starting with `tag_` or two underscores |
| `Extract.ExtractPack` | crates/pack/src/collector.rs:151-164 | the sources answered, in order, at most 5000 samples; the first unreadable answer is the error |
| `Produced.PackIsExtracted` | crates/pack/src/collector.rs:151-164 | the result of `Extract.ExtractPack` is an error if and only if some answer is no document or no readable page, and otherwise the first 5000 of the samples that the answers give, source by source |
| `Produced.PackFailsExactlyWhen` | crates/pack/src/extract.rs:29-39 | the samples of a pack cannot be had if and only if an answer cannot be read |
| `Extract.ExtractSource` | crates/pack/src/extract.rs:42-66 | everything a source produces, from JSON, text or an exposition page, is appended: the samples that `Produced.SourceSamplesAreExtracted` describes |
| `Extract.JsonMetric` | crates/pack/src/extract.rs:189-204 | one sample for each of the first thousand nodes that read as a number |
| `Extract.DiscoverRows` | crates/pack/src/extract.rs:206-235 | one sample for each row and metric that reads, rows cut at the bound |
| `Extract.RegexMetric` | crates/pack/src/extract.rs:237-255 | one sample for each of the first thousand matches whose value reads |
| `Extract.KeepFamilies` | crates/pack/src/extract.rs:74-89 | the samples of kept families under their new names |
| `Extract.FindKeptName` | crates/pack/src/extract.rs:92-103 | the first family that keeps the sample decides its name; the slice never goes out of bounds on a sample the parser gave |
| `Extract.PromMetric` | crates/pack/src/extract.rs:257-284 | the samples of that name, their labels chosen or exported |
| `Extract.TruncateCutsLast` | crates/pack/src/extract.rs:133-142 | a long value keeps whole characters, as many as fit in 200 bytes |
| `Extract.Decode` | crates/pack/src/extract.rs:29-39 | a decoded page holds only well-read samples |
| `Produced.SourceSamplesAreExtracted` | crates/pack/src/extract.rs:42-66 | what a source produces, of its answer and its rules: first the samples of kept families, then those of each metric, and for JSON those of the discovered rows, each in order, each with its name, value, kind and labels, and nothing else |
| `Produced.PackSamplesAreExtracted` | crates/pack/src/collector.rs:151-164 | the same for the sources of a pack, one after the other, those that answered |
| `Produced.KeptSamples` | crates/pack/src/extract.rs:53-103 | one sample for each parsed sample that no drop rule matches and a kept family covers, in order, under the kept name, with its value, its kind and its exported labels, and nothing else |
| `Produced.KeptNameIs` | crates/pack/src/extract.rs:92-103 | the name is that of the first rule that covers the sample, and there is none exactly when no rule does |
| `Produced.MetricFromSamples` | crates/pack/src/extract.rs:257-284 | one sample for each parsed sample of the metric's name that no drop rule matches, its value times the scale |
| `Produced.MetricFromDocument` | crates/pack/src/extract.rs:189-204 | one sample for each of the first thousand nodes that count for a number, with that number times the scale |
| `Produced.SamplesFromRow` | crates/pack/src/extract.rs:206-235 | one sample for each metric of a discovered row that counts for a number there |
| `Produced.MetricFromText` | crates/pack/src/extract.rs:237-255 | one sample for each of the first thousand matches whose group counts for a number |
| `Produced.NodeNumber` | crates/pack/src/extract.rs:146-168 | which number a node gives, if and only if it gives one: its place in the enumeration, its own, or one and zero for booleans, times the scale |
| `Produced.ReadLabelsRead` | crates/pack/src/extract.rs:170-187 | the labels of a sample are those declared that can be read, with what is read there |
| `Produced.LabelsAreExported` | crates/pack/src/extract.rs:116-131 | each label of a parsed sample is exported under its renamed key, and nothing else is |
| `Coverage.KeptNameIsCovered` | crates/pack/src/extract.rs:92-103 | a kept sample is written under its family's new name with at most one known suffix |
| `Coverage.PackIsProper` | crates/pack/src/compile.rs:595-685 | in an accepted pack every metric, row and kept family is listed, suffixes included, and every declared label is allowed |
| `Coverage.SourceGivesProper` | crates/pack/src/extract.rs:42-66 | a source whose names are listed gives only samples under listed names with clean labels |
| `Coverage.NamesArePrintable` | crates/pack/src/compile.rs:570-593 | every listed name can be printed |
| `Coverage.AcceptedPacksStayInTheirNames` | crates/pack/src/compile.rs:570-685 | for every accepted pack and all answers, every sample is stored under a name the compiler listed, and carries no reserved or `tag_` label |
| `Coverage.ExportedKeyIsClean` | crates/pack/src/extract.rs:116-131 | a renamed label is never reserved and never starts with two underscores |
| `Coverage.ReplayReadsBack` | crates/pack/src/fixture.rs:96-126 | the reference file of an accepted pack is always readable and holds exactly what was extracted |
| `Coverage.ExportLosesNothing` | crates/pack/src/extract.rs:116-131 | renaming loses no label if and only if no two of them meet |
| `Coverage.ReservedNamesMeet` | crates/pack/src/extract.rs:116-131 | two labels that do meet |
| `Identity.BaseLabels` | crates/proto/src/target.rs:44-61 | the loop over tags builds the identity labels |
| `Identity.BaseIsComplete` | crates/proto/src/target.rs:44-61 | whatever the tags are called, the two identity labels are untouched and each tag shows under its cleaned-up name, the last of those that come to one name winning |
| `Identity.LastTagWins` | crates/proto/src/target.rs:48-58 | of tags that come to one name the last one shows |
| `Identity.BaseIsReserved` | crates/proto/src/target.rs:44-61 | every label the server adds is one a pack may not use, and a valid label name |
| `Identity.TagKeyCleans` | crates/proto/src/target.rs:48-58 | the name of a tag keeps its letters, digits and underscores, the rest become underscores, after a fixed beginning |
| `Identity.Overlay` | crates/collectors/src/lib.rs:304-310 | laid over every sample in place: name, value and kind stay, the labels are its own and the identity labels, and the identity labels win |
| `Identity.Probe` | crates/collectors/src/lib.rs:287-311 | the collected samples in order and the witness `up`, every one of them with the identifier and the name of its target whatever the collector said |
| `Identity.OverlayLosesNothing` | crates/collectors/src/lib.rs:304-310 | on labels free of reserved names the overlay is a disjoint union |
| `Identity.PackSamplesKeepTheirLabels` | crates/collectors/src/lib.rs:304-310 | every sample of every accepted pack is stored with all its own labels and all the target's |
| `Delivery.FailedSendIsInvisible` | crates/agent/src/buffer.rs:42-74 | taking a batch, any pushes, and putting it back equals the pushes alone, in contents and in counted losses, overflow included |
| `Delivery.PushedAllIsOnePush` | crates/agent/src/buffer.rs:42-45 | evicting on the way or at the end comes to the same |
| `Delivery.PendingBuffer.Restore` | crates/agent/src/buffer.rs:60-65 | the batch is back in front in its order, the oldest evicted if there is no room |
| `Delivery.PendingBuffer.Take` | crates/agent/src/buffer.rs:51-54 | the oldest samples, at most so many, in order |
| `Delivery.PendingBuffer.Push` | crates/agent/src/buffer.rs:42-45 | the new samples at the end, the oldest evicted and counted if there is no room |
| `Delivery.Agent.Collect` | crates/agent/src/run.rs:227-231 | the collected samples join the buffer, and exactly the excess is dropped, oldest first |
| `Delivery.Agent.Flush` | crates/agent/src/run.rs:278-322 | for each answer: acknowledged or refused as a whole batch, or put back with nothing changed |
| `Delivery.Agent.TakeTurn` | crates/agent/src/run.rs:219-253 | one turn of the loop, in all its fields; in a turn where a batch is due and acknowledged the oldest samples, up to a batch, are received and the next send is due at once; in a turn where a collection is due the samples join and the next collection is due one interval later |
| `Delivery.DueBatchIsDelivered` | crates/agent/src/run.rs:236-252 | with a send due, no collection due and something pending, an acknowledgement adds the oldest samples, up to a batch, to what the server holds; the next send is due at once, the retries are forgotten, interval and secret are adopted |
| `Delivery.RefusedBatchIsGivenUp` | crates/agent/src/run.rs:310-321 | a refused batch leaves the buffer and reaches nobody; the next send is due at once |
| `Delivery.FailedBatchWaits` | crates/agent/src/run.rs:288-309 | after any other failure the buffer is as it was and the next send is due after the delay; a forbidden one costs the secret |
| `Delivery.CollectionIsPeriodic` | crates/agent/src/run.rs:226-235 | the next collection is due one interval later, sending is not touched, and the newest samples that fit are kept |
| `Delivery.BacklogEmpties` | crates/agent/src/run.rs:236-252 | between two collections every acknowledged turn sends one batch more, oldest first, until nothing is pending |
| `Delivery.DelayIsRespected` | crates/agent/src/run.rs:232-252 | over any turns before the next send is due, nothing is sent, whatever is collected |
| `Delivery.Agent.FinalFlush` | crates/agent/src/run.rs:325-336 | one last send equals the step on values: nothing to send, settled, restored, or its batch lost when the answer does not come in time; `Delivery.LastBatchIsDelivered` says what an acknowledged one brings |
| `Delivery.LastBatchIsDelivered` | crates/agent/src/run.rs:325-336 | a last send that is acknowledged adds the oldest samples, up to a batch, to what the server holds |
| `Delivery.Agent.Run` | crates/agent/src/run.rs:207-265 | a run equals the turns, one after the other, the last send and the end of the agent; what it collected is what its collecting turns measured; acknowledged, refused, dropped and lost samples add up to it; and none is lost if and only if nothing was pending, or one batch at most and its answer settled it |
| `Delivery.TurnsAreSound` | crates/agent/src/run.rs:219-253 | after any turns the buffer is exactly the undecided suffix of all samples collected, within capacity, evictions are counted, and acknowledged samples were received in order |
| `Delivery.EveryFateHasItsTurn` | crates/agent/src/run.rs:219-322 | every sample with a fate got it in one turn: acknowledged and refused ones in a turn that sent and got that answer, dropped ones in a turn that collected more than there was room for |
| `Delivery.CollectedIsMeasured` | crates/agent/src/run.rs:219-231 | what a run adds to the samples is the samples of its collecting turns, in order |
| `Delivery.OutagesLoseNothing` | crates/agent/src/run.rs:278-322 | however often sending fails, without refusals and overflow the acknowledged samples and the pending ones are together exactly those measured, in order |
| `Delivery.RunAddsUp` | crates/agent/src/run.rs:207-336 | every sample of a run is acknowledged, refused, dropped or lost; how many are lost, and exactly when none is |
| `Scheduler.Scheduler.Wake` | crates/server/src/scheduler.rs:53-108 | one tick: the reload, then the pass over the targets; every 15 seconds each of the two lists is what the database answered, if it did, and at other times what it was |
| `Scheduler.ReloadedWhenDue` | crates/server/src/scheduler.rs:53-72 | a due reload takes each list that was answered, and makes the table forget the targets that are gone and no others |
| `Scheduler.LaunchHasItsTarget` | crates/server/src/scheduler.rs:81-105 | every launch is one of a target on the list, now, with its period, and goes to the relay that is assigned to it, if one is |
| `Scheduler.LaunchedExactlyWhenDue` | crates/server/src/scheduler.rs:81-105 | a loaded target is launched by a tick if and only if its time has come, and no target twice |
| `Scheduler.OffsetsSpread` | crates/server/src/scheduler.rs:81-86 | of as many consecutive targets as the period has seconds no two begin together |
| `Scheduler.PassMoves` | crates/server/src/scheduler.rs:81-91 | a known target is launched only if due, is never moved earlier, and not moved at all unless launched |
| `Scheduler.PassLeavesNothingDue` | crates/server/src/scheduler.rs:81-91 | after a pass nothing it went over is due |
| `Scheduler.LaunchSetsNext` | crates/server/src/scheduler.rs:88-91 | a launch makes the target due one period later |
| `Scheduler.NeverEarlier` | crates/server/src/scheduler.rs:57-91 | while a target stays loaded, no reload and no pass moves it to an earlier time |
| `Scheduler.OnlyLoadedAreScheduled` | crates/server/src/scheduler.rs:57-64 | after any run the table holds exactly the loaded targets |
| `Scheduler.NothingIsLeftDue` | crates/server/src/scheduler.rs:81-108 | when a tick ends no loaded target is still due at its time |
| `Scheduler.LaunchesAreSpaced` | crates/server/src/scheduler.rs:81-91 | two launches of a target that stays loaded are at least the first one's period apart |
| `Scheduler.NewTargetIsLaunched` | crates/server/src/scheduler.rs:81-91 | a new target is launched by the first tick one period, or one second if longer, after the tick that loaded it |
| `Chunked.Dechunk` | crates/agent/src/collect/docker.rs:296-324 | the loop computes what a chunked body holds |
| `Chunked.EncodedReads` | crates/agent/src/collect/docker.rs:296-324 | any chunks, line ends in their bytes included, under any announcing lines, are put together again; section 7.1 of RFC 9112 |
| `Chunked.StandardLineAnnounces` | crates/agent/src/collect/docker.rs:302-311 | a size in hexadecimal followed by any extension announces that size |
| `Chunked.SizeReads` | crates/agent/src/collect/docker.rs:308-311 | a size printed in hexadecimal is read back, spaces and extension ignored |
| `Chunked.CutBodyFails` | crates/agent/src/collect/docker.rs:296-324 | a chunked body cut anywhere before its end is an error, never a shorter answer |
| `Chunked.ParseResponse` | crates/agent/src/collect/docker.rs:268-293 | head, status and body, decoded if a header asks for it |
| `Chunked.HeadLines` | crates/agent/src/collect/docker.rs:269-277 | the head ends at the first blank line, and its lines are those that were sent |
| `Chunked.ResponseReads` | crates/agent/src/collect/docker.rs:268-293 | status and body are recovered from any status line, any headers and any body |
| `Chunked.AsksExactlyWhenSaid` | crates/agent/src/collect/docker.rs:278-288 | a body is decoded exactly when a header is named transfer-encoding and its value speaks of chunks, capitals aside |
| `Chunked.StatusReads` | crates/agent/src/collect/docker.rs:270-276 | three digits are the status they write |
| `Chunked.ChunkedResponseReads` | crates/agent/src/collect/docker.rs:268-324 | the same with a chunked body, whatever the chunks |
| `Template.Parse` | crates/pack/src/template.rs:61-81 | the loop reads a template as specified, with the error the source reports |
| `Template.ParsedIsWellFormed` | crates/pack/src/template.rs:61-81 | what every accepted template looks like |
| `Template.OpeningReads` | crates/pack/src/template.rs:64-73 | text, a placeholder and anything after it are read one after the other |
| `Template.PrintedReads` | crates/pack/src/template.rs:61-81 | a template written out is read back as itself |
| `Template.ReparseIsStable` | crates/pack/src/template.rs:61-81 | for every accepted string, writing its parts and reading them again gives the same template |
| `Template.RefusedExactlyWhen` | crates/pack/src/template.rs:61-81 | with all placeholders closed and known, a template is refused if and only if closing braces follow the last of them |
| `Template.RemainderEndsIt` | crates/pack/src/template.rs:61-81 | what follows the last placeholder is the end of the template, and opens nothing |
| `Template.EncodedReads` | crates/pack/src/template.rs:174-182 | an encoded value is unreserved characters and percent triplets, and decodes to itself; sections 2.1 and 2.3 of RFC 3986 |
| `Template.Render` | crates/pack/src/template.rs:115-138 | the loop appends each part, or stops at a missing credential |
| `Template.RenderedIsItsParts` | crates/pack/src/template.rs:115-138 | what is rendered is one text for each part, in order: literal text as it is, and for an option or a credential field what decodes to its value, or is its value outside a URL; an option that is not set stands for nothing |
| `Template.RenderFailsWhen` | crates/pack/src/template.rs:115-171 | rendering fails if and only if a cited credential field is missing, and tells the first that is |
| `Template.CredentialStaysOut` | crates/pack/src/template.rs:84-86 | a template that cites no credential renders alike whatever the credential |
| `Template.DelimitersAreTheTemplates` | crates/pack/src/template.rs:45-52 | every delimiter of a rendered URL was written by the template, none by a value |
| `Versions.VersionsAreOrdered` | crates/server/src/update.rs:49-125 | the order of versions is total and agrees with equality |
| `Versions.IdentsAreOrdered` | crates/server/src/update.rs:49-65 | identifiers are totally ordered, numbers below words |
| `Versions.Parse` | crates/server/src/update.rs:75-102 | the version a text gives, or none |
| `Versions.VersionsAgree` | crates/server/src/update.rs:109-119 | the order is that of section 11 of Semantic Versioning 2.0.0 on what is written, if no identifier is a number beyond 64 bits |
| `Versions.AgreesUnlessHuge` | crates/server/src/update.rs:90-100 | an identifier ranks as the standard says if and only if it is not such a number |
| `Versions.VersionAgreesUnlessHuge` | crates/server/src/update.rs:75-119 | a version ranks as the standard says against every version without such a number if and only if it has none itself |
| `Versions.NewestIsNewest` | crates/server/src/update.rs:144-156 | the release offered is admissible and exceeded by no admissible one; none exactly when there is none |
| `Versions.StrippingKeepsVersion` | crates/server/src/update.rs:144-156 | the version shown is the one that was compared |
| `Versions.Checker.Get` | crates/server/src/update.rs:251-291 | one request: what is fetched, what is kept, how long to wait; refused exactly when forced within a minute of the last attempt, and then nothing changes; otherwise what the cache holds |
| `Versions.FetchedExactlyWhenDue` | crates/server/src/update.rs:251-291 | over any run a request is fetched if and only if checks are enabled and the last fetch is a minute ago, if forced, or an hour after a failure and a day after a success |
| `Versions.CacheShowsLastGood` | crates/server/src/update.rs:273-289 | over any run the cache shows what the last successful fetch offered, whatever has failed since: the newest admissible release, its tag without the prefix, its address if on GitHub |
| `Versions.FetchesAreSpaced` | crates/server/src/update.rs:264-276 | over any run, fetches are a minute apart, unforced ones an hour after a failure and a day after a success |
| `Versions.FetchesAreFarApart` | crates/server/src/update.rs:264-276 | any two fetches of a run are as many minutes apart as there are fetches between them and one |
| `Versions.FetchesAreFew` | crates/server/src/update.rs:264-276 | a window of W seconds holds at most 1 + W/60 fetches |
| `Versions.FetchesAreEnabled` | crates/server/src/update.rs:264-266 | disabled requests never fetch |
| `Versions.CacheTellsLastFetch` | crates/server/src/update.rs:273-289 | the cache remembers the last attempt and whether it failed |
| `Versions.AnnouncedExactlyWhenNewer` | crates/server/src/update.rs:226-248 | an update is announced if and only if the newest admissible release exceeds the running version |
| `Versions.AnnouncedFromLastGood` | crates/server/src/update.rs:226-291 | at any point of any run an update is announced if and only if checks are enabled and the newest admissible release of the last successful fetch exceeds the running version |
| `LogFile.LogFile.Rotate` | crates/agent/src/logfile.rs:61-69 | the rename is tried first; the file is set aside and a new one begun, or emptied only because the rename failed, or nothing changes and the write fails |
| `LogFile.LogFile.constructor` | crates/agent/src/logfile.rs:44-48 | an opened log counts what the file already holds, which is what it was found with |
| `LogFile.LogFile.Write` | crates/agent/src/logfile.rs:73-80 | after any writes, partial and failed ones included: the length kept is the file's, the file is the end of the stream, and within the bound unless it is what the last successful write wrote or what was found at opening; after a good rotation the old file and this one are the end of the stream |
| `LogFile.RecentGrows` | crates/agent/src/logfile.rs:73-80 | appending what was written keeps both suffix properties |
| `CounterPath.ParsedIsWellFormed` | crates/agent/src/collect/perf_counters.rs:138-175 | what every accepted path looks like |
| `CounterPath.PrintedReads` | crates/agent/src/collect/perf_counters.rs:138-175 | a path written out reads back as itself, if and only if it does not start like one that names a machine |
| `CounterPath.PlainPathsComeBack` | crates/agent/src/collect/perf_counters.rs:138-175 | without a backslash in the object every path comes back, whatever its instance holds |
| `CounterPath.ReparseIsStable` | crates/agent/src/collect/perf_counters.rs:138-175 | the same for the path any accepted string gives |
| `CounterPath.SpacedObjectIsLost` | crates/agent/src/collect/perf_counters.rs:138-175 | a string that is accepted and whose path does not come back |

## Left out

- Container updates: the restart command, the log that is reported, names given as container ids, the decoding of the daemon's JSON and of the story of a pull, whose error counts as a refusal, and restart policies of the daemon itself.
- ContainerUpdate.PullAndCompare: which labels the request asks for is left open; `Recreate` models them.
- ContainerUpdate.Update: a rename whose answer is lost ends the command without putting the name back, as in the source.
- StatusCache: a wrap-around of the 64-bit counter, lock poisoning, host-name normalisation and routing.
- Exposition: NaN stands for any value that prints and reads back; timestamps are skipped as in the source.
- Compile.Compile: the checks of the header, options, credentials, templates, SNMP profiles and rules are one list of complaints found elsewhere, and the names SNMP profiles add are not counted as produced.
- Extract: JSON, JSONPath, regular expressions and number arithmetic are function parameters; the HTTP exchange is not modelled.
- Coverage: names of different packs may overlap, since one pack's prefix may begin another's; and a kept family's suffixed series may bear the name of a declared metric.
- Delivery: one turn takes no time; the growth of the retry delay, commands polled after a send and the relay are not part of it.
- Scheduler: probes themselves, the semaphore, expired relay jobs, and a relay that is still busy, which skips the probe it was handed.
- Chunked: white space in sizes and status lines is the ASCII one, where the source also trims the other Unicode spaces.
- Versions: release notes and the environment lock, and the HTTP request.
- LogFile: other processes writing to the same files, and flushing.
- CounterPath: opening and reading counters.
- Token caches, backoff, configuration merging, web pages, encryption, SNMP, the collectors other than packs, and everything that only talks to a library.
