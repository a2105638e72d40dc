# Buildah's build engine in Dafny

Buildah turns a Containerfile into an image. This project models the parts of it that
keep state across many steps, and proves what they keep: the concurrent stage scheduler,
the pruning of stages, the layer cache, the cache of VOLUME contents, the copier (rooted
resolution of symbolic links, archiving, extracting), the assembly of image manifests, and
the smaller loops for standard I/O, mounts, unmounting, digests and ID mappings.

`dafny verify dfyconfig.toml` checks everything.

| module | of the program | main results |
|---|---|---|
| `StagePruning` | recording what stages need, marking for the target | a stage is marked exactly when the target uses it, through other stages or not; which references are recorded, exactly |
| `StageScheduler`, `SchedulerSafety`, `SchedulerOutcome`, `SchedulerProgress`, `SchedulerFairness`, `BaseByPosition` | the spawner, the stage goroutines, the semaphore, the channel, the collector | an invariant of every interleaving: permits, one result each, no send after close, waits kept, hand-off of base images; the build reports an error exactly when a stage has failed, and nothing gets past a wait after that; no deadlock; every fair run comes to its end |
| `LayerCache`, `LayerRebuild`, `HistoryText`, `Strings` | `Execute` with the cache of intermediate images, and the history entries by which it finds them | the cached build ends like the plain one exactly when every image it took is sound, which a sound store guarantees; hits come first, and only on images that were made for the same content or command; building again takes every image from the cache; which entries read alike, exactly |
| `VolumeCache` | preserving VOLUME contents across RUN | every RUN leaves every volume as it was, and volumes are kept from the moment they are declared, over sequences of instructions |
| `Paths`, `PathText`, `SymlinkResolution` | cleaning paths, `resolvePath` | it ends, stays below the root, refines a chroot walk, and is idempotent; which links it follows as a chroot would, exactly |
| `FileTree`, `CopierPut`, `PutClosure`, `PutContents`, `PutArchive`, `PutOutcome`, `PutLinks`, `PutOptions`, `PutFailures` | extracting an archive | the last entry for a path decides what is there, and nothing else changes; where hard links lead, what the options do to modes, and when an archive can be extracted, exactly |
| `ModeSetting`, `PutModes`, `PutReading`, `PutFinalModes` | the modes that are set at the end, in any order, through symbolic links, with errors ignored | when directories and files end with the modes that they are to have, exactly; for the privileged, told from the archive alone |
| `CopierGet`, `CopierRoundTrip`, `PutExamples` | archiving a tree | archiving and extracting reproduces the tree; when it succeeds, when modes are lost and which links are kept, exactly |
| `ImageAssembly`, `CommitChain` | building the two manifests of an image, and chains of commits | what each commit counts, lists and stores on any base, and that each listed layer can be read back; when the check of history against layers fails along a chain, exactly |
| `StdioRelay` | relaying a container's standard I/O | conservation of bytes, how many turns are taken and what is read in them, and closing the container's input once and when, whatever the world does |
| `MountList` | sorting and merging mounts | the stable sort, the preferred mount per destination, outermost mounts first |
| `UnmountOrder` | unmounting a tree of mounts | exactly the mounts below, each once, children first; when the worklist ends |
| `ContentSummary` | the digest of added content | two additions have the same summary exactly when they are the same |
| `IdMapping` | user and group IDs, in 32 bits | the two translations undo each other exactly when host ranges are disjoint |

Some properties that one would expect do not hold of the program. For these there are
lemmas with an input, or a family of inputs, for which they fail, and the exact condition:

- A stage whose FROM names an earlier stage by its position is not handed that stage's
  image, because images are noted under names only (`SchedulerSafety.BaseHandOff`,
  `BaseByPosition.PositionIsNotHandedTheImage`).
- An image from elsewhere whose last layer is not what its last entry describes is taken
  from the cache all the same, and then the build ends differently
  (`LayerCache.UnsoundImageIsTaken`, `LayerCache.HitAgreesExactlyWhenSound`,
  `LayerCache.Execute`).
- A build argument with a space in its value reads like two arguments in the entry of a RUN.
  So an image that was made with other arguments is taken from the cache
  (`HistoryText.ArgumentsNotToldApart`, `HistoryText.RunHitsOtherArguments`,
  `HistoryText.RunWordsExactlyWhen`). A RUN without arguments can read like a COPY
  (`HistoryText.RunOrContentExactlyWhen`).
- Needs are recorded by position for COPY and ADD only. A stage that is only mounted by
  its position is skipped (`StagePruning.RecordedExactlyWhen`,
  `StagePruning.MountedByPositionIsSkipped`).
- A COPY to a volume's own path without a slash at its end, or to a directory above it,
  leaves the volume's cache stale (`VolumeCache.StaleAfterCopy`,
  `VolumeCache.CopyKeepsSyncExactlyWhen`).
- A relative link that climbs above the root and comes back by the root's name does not
  resolve as in a chroot (`SymlinkResolution.ClimbingLinkMissesTheWalk`,
  `SymlinkResolution.ClimbingLinkExactlyWhen`). Neither does a link in whose target ".."
  cancels a name that is itself a link (`SymlinkResolution.CancelledLinkMissesTheWalk`,
  `SymlinkResolution.CancelledLinkExactlyWhen`).
- Extracting sets a directory's mode at once as well as at the end, though a comment says
  otherwise. So an unprivileged extractor fails on what is in a read-only directory, other
  than regular files (`CopierRoundTrip.GetThenPut`, `CopierRoundTrip.ReadOnlyDirectoryFails`).
- Nor can it make devices (`CopierRoundTrip.DeviceFails`).
- At the end, an unprivileged extractor does not get to a directory below one that may not
  be searched. If the outer one's turn comes first, the inner one is left with mode 0700, and
  the extraction succeeds (`PutExamples.InnerModeIsLost`, `CopierRoundTrip.ReproducedExactlyWhen`,
  `PutModes.DeferredModes`).
- A file that replaces a directory of the same archive ends with the directory's mode, and so
  does a file that a symbolic link in place of the directory leads to. If the link leads to
  another directory, its mode depends on the order (`PutExamples.FileGetsModeOfDirectory`,
  `PutExamples.FileGetsModeThroughLink`, `PutExamples.DirectoryModeDependsOnOrder`,
  `PutFinalModes.FileModeExactlyWhen`, `PutFinalModes.DirectoryModeExactlyWhen`).
- Archiving knows hard links between regular files only. Two names of one symbolic link,
  pipe or device come back as two things (`PutExamples.PipeIsDoubled`,
  `CopierRoundTrip.LinksKeptExactlyWhen`).
- On top of an image that has layers but no history, the first commit passes the check of
  history against layers, and the second one fails it (`CommitChain.SecondCommitFails`,
  `CommitChain.MismatchExactlyWhen`, `CommitChain.OmittedHistoryFailsExactlyWhen`).
- With `ChmodDirs` of 01777, listed directories are sticky, and those that are made on the way
  are not (`PutOptions.StickyIsLostOnTheWay`, `PutOptions.DefaultModeIs`,
  `PutOptions.HeaderModeIs`).
- An entry that is a hard link to its own path removes what is there and then fails
  (`PutFailures.LinkToItselfRemoves`, `PutFailures.EntryExactlyWhen`).
- Hard links of an archive that is extracted into a subdirectory lead elsewhere when their
  target starts with the subdirectory's first name (`PutLinks.LinkLeadsElsewhere`,
  `PutLinks.LinkTargetExactlyWhen`).
- Two mounts on one path that is written in two ways are both kept
  (`MountList.TwoSpellingsAreBothKept`, `MountList.OneMountPerPathExactlyWhen`).
- The worklist that gathers a tree of mounts never ends if its top hangs off itself
  (`UnmountOrder.RootMountNeverEnds`, `UnmountOrder.CycleNeverEnds`).
- A range of IDs that ends with the last 32-bit number is never found
  (`IdMapping.LastRangeIsNeverFound`, `IdMapping.FoundExactlyWhen`).

## Model

| member | source | states |
|---|---|---|
| `StagePruning.MarkDependencies` | imagebuildah/executor.go:524-541 | the recursion ends, self-dependencies included; what it marks is reached from the stage, and the needs of all that is newly marked are marked |
| `StagePruning.MarkForTarget` | imagebuildah/executor.go:524-541 | for the target, exactly the stages that it reaches through needs are marked |
| `StagePruning.RecordNeeds` | imagebuildah/executor.go:674-784 | one stage's needs are those of its FROM, COPY and ADD, and mount references, in order, once for each reference |
| `StagePruning.RecordStage` | imagebuildah/executor.go:672-792 | adding a stage keeps the map of dependencies right for the stages so far |
| `StagePruning.RecordStages` | imagebuildah/executor.go:668-792 | all stages' needs together are the graph that the references define |
| `StagePruning.PlanStages` | imagebuildah/executor.go:668-792 | with nothing marked before, a stage is needed exactly when the last stage uses it, directly or through stages that it uses; references out of range are the only failure besides no stages |
| `StagePruning.NeedsOfBuiltStagesAreBuilt` | imagebuildah/executor.go:532-541 | every recorded need of a stage that is built is itself built, not skipped |
| `StagePruning.RecordedExactlyWhen` | imagebuildah/executor.go:674-784 | a reference to a stage is recorded exactly when it is not to scratch, not to an additional context, and either by the stage's name or by COPY or ADD |
| `StagePruning.NeedsAreUses` | imagebuildah/executor.go:674-784 | what is recorded for a stage is exactly the names of the stages, up to itself, to which one of its references leads: by name, or by position in a COPY or ADD, other than FROM scratch and other than additional contexts |
| `StagePruning.ReachesExactlyWhenUsed` | imagebuildah/executor.go:524-541 | recorded needs lead from a stage to another exactly when the one uses the other, directly or through others |
| `StagePruning.MountedByPositionIsSkipped` | imagebuildah/executor.go:748-780 | a stage that is mounted by position only is not built |
| `SchedulerSafety.StepKeepsInv` | imagebuildah/executor.go:802-912 | every step of the spawner, of any stage, of the closer and of the collector keeps the invariant of the shared state |
| `SchedulerSafety.RunKeepsInv` | imagebuildah/executor.go:802-912 | so does every schedule of steps |
| `SchedulerSafety.ReachableInv` | imagebuildah/executor.go:802-912 | it holds in all reachable states |
| `SchedulerSafety.PermitsAndResults` | imagebuildah/executor.go:802-881 | free and held permits add up to the capacity, the buffer never holds more than there are stages, a stage has sent exactly one result or none, and at the end all permits are back and each stage has sent |
| `SchedulerSafety.NoSendAfterClose` | imagebuildah/executor.go:878-881 | once the channel is closed nothing is sent |
| `SchedulerSafety.WaitsAreKept` | imagebuildah/executor.go:380-413 | a stage that got past a wait for an earlier stage did so after that stage's result was taken from the channel |
| `SchedulerSafety.BaseHandOff` | imagebuildah/executor.go:883-912 | a stage starts from the image that its base stage committed exactly when FROM uses the stage's name; by position it starts from the name as it stands |
| `BaseByPosition.PositionIsNotHandedTheImage` | imagebuildah/executor.go:883-912 | a build of two stages, and a state that it reaches: the first stage has succeeded with an image, and the second one, which names it by position and has waited for it, starts from the name as it stands |
| `SchedulerSafety.BaseStageCommits` | imagebuildah/stage_executor.go:1175-1191 | a stage that another one names in FROM is built and commits an image |
| `SchedulerSafety.NamedBaseIsHandedOff` | imagebuildah/stage_executor.go:898-918 | in every interleaving, a stage that names an earlier one in FROM starts from that one's image, if that one succeeded |
| `SchedulerOutcome.ErrorExactlyWhenFailed` | imagebuildah/executor.go:883-912 | in every interleaving, a build that has come to its end reports an error exactly when one of its stages has failed, which is then the result received last; if not, every stage that is to be built has ended with what it was to give |
| `SchedulerOutcome.ErrorStopsWaiting` | imagebuildah/executor.go:380-413 | once the error is set, in every continuation: a stage that has yet to check a reference to another stage never gets past it, does not settle on a base if it waits for that, and if it ends it fails |
| `SchedulerOutcome.CancelledExactlyWhenFailed` | imagebuildah/executor.go:849-881 | in every interleaving, the other stages are cancelled exactly when a stage has failed |
| `SchedulerOutcome.FailureCancelsTheRest` | imagebuildah/executor.go:849-881 | in every continuation after a failure, a stage that has not begun does not begin, and if it ends it fails without an image |
| `SchedulerOutcome.SuccessHasAnImage` | imagebuildah/executor.go:883-912 | a build without an error has an image of its last stage |
| `SchedulerOutcome.ImagesExactlyWhenUsed` | imagebuildah/executor.go:849-912 | in a layered build without an error, exactly the stages that the last one uses have images, or all if unused stages are not to be skipped |
| `SchedulerProgress.StepRank` | imagebuildah/executor.go:380-413 | every step but polling uses up a rank; polling leaves it |
| `SchedulerProgress.RunsOnlyPollForEver` | imagebuildah/executor.go:380-413 | in any run, the number of steps other than polling is bounded |
| `SchedulerProgress.WayToTheEnd` | imagebuildah/executor.go:380-413 | from every state of the invariant there is a schedule in which nobody fails and all finish |
| `SchedulerProgress.NeverStuck` | imagebuildah/executor.go:802-912 | no reachable state is a deadlock: the build can always finish, also after the collector has returned early |
| `SchedulerFairness.Settles` | imagebuildah/executor.go:802-912 | in every infinite run the work left stays the same from some point on |
| `SchedulerFairness.PermitsComeFree` | imagebuildah/executor.go:380-413 | from then on, in a fair run, a permit is free again and again, because who polls goes to sleep |
| `SchedulerFairness.PollersAreNotOver` | imagebuildah/executor.go:380-413 | who polls for ever in a fair run has seen neither an error nor the end of the stage it waits for |
| `SchedulerFairness.SettledIsFinished` | imagebuildah/executor.go:802-912 | when the work left in a fair run does not become less any more, there is none |
| `SchedulerFairness.FairRunsFinish` | imagebuildah/executor.go:802-912 | every run in which nobody who can step again and again is passed over for ever comes to the end of all stages, the spawner, the closer and the collector |
| `LayerCache.HistoryEntriesEqual` | imagebuildah/stage_executor.go:1465-1488 | two history entries are equal in everything, the time included |
| `LayerCache.HistoryAndDiffIDsMatch` | imagebuildah/stage_executor.go:1496-1536 | the loops accept exactly the images that extend the base's history and diff IDs by one entry made by this instruction |
| `LayerCache.IntermediateImageExists` | imagebuildah/stage_executor.go:1816-1887 | a hit is a candidate that extends the base by this instruction, the first in the store; a miss means that no candidate does; it fails only if the base can not be read or a layer is missing |
| `LayerCache.SearchExactlyWhen` | imagebuildah/stage_executor.go:1816-1887 | if the search can be carried out, it finds an image exactly when some image in the store is fresh, readable, on the right layer and extends the base by this entry |
| `LayerCache.SameArgsExactlyWhen` | imagebuildah/stage_executor.go:1575-1626 | two RUN instructions have the same arguments exactly when for every name the values are the same: the value of an allowed name is that in the environment, or else that of the argument, unless it is a proxy setting that no ARG has named |
| `LayerCache.SeenExactlyWhen` | imagebuildah/stage_executor.go:1575-1626 | the names that count as named are the words of the ARG instructions before |
| `LayerCache.ContentToldApart` | imagebuildah/stage_executor.go:1541-1572 | two ADD or COPY instructions are described alike exactly when keyword, content summary and destination are the same |
| `LayerCache.RunToldApart` | imagebuildah/stage_executor.go:1541-1572 | two RUN instructions are described alike exactly when command and arguments are the same |
| `LayerCache.KindsToldApart` | imagebuildah/stage_executor.go:1541-1572 | instructions of different kinds are not described alike |
| `HistoryText.SortedOnce` | imagebuildah/stage_executor.go:1575-1626 | arguments have one sorted order |
| `HistoryText.ContentWordsExactlyWhen` | imagebuildah/stage_executor.go:1541-1572 | as text too, what is said of ADD and COPY tells keyword, content and destination |
| `HistoryText.RunWordsExactlyWhen` | imagebuildah/stage_executor.go:1541-1626 | what is said of two RUN instructions is the same text exactly when their commands and the joined lists of their arguments are; if no argument has a space in it, exactly when the arguments are the same |
| `HistoryText.ArgumentsNotToldApart` | imagebuildah/stage_executor.go:1575-1626 | an argument A of "1 B=2" reads like A of "1" and B of "2" |
| `HistoryText.RunHitsOtherArguments` | imagebuildah/stage_executor.go:1575-1626 | so two configurations in which A has different values give a RUN the same entry |
| `HistoryText.RunOrContentExactlyWhen` | imagebuildah/stage_executor.go:1541-1572 | a RUN reads like an ADD or COPY exactly when it has no arguments and its command reads like that |
| `HistoryText.ContentLooksLike` | imagebuildah/stage_executor.go:1541-1572 | what the entry of a COPY looks like |
| `HistoryText.RunLooksLike` | imagebuildah/stage_executor.go:1541-1626 | what the entry of a RUN looks like, without and with an argument |
| `LayerCache.HitIsWhatRunningGives` | imagebuildah/stage_executor.go:1061-1462 | a hit on a sound image has the history and diff IDs that running the instruction would give |
| `LayerCache.HitAgreesExactlyWhenSound` | imagebuildah/stage_executor.go:1816-1887 | a candidate that extends the base has the history and the layer that running the instruction would give exactly when it is sound |
| `LayerCache.CommittedIsSound` | imagebuildah/stage_executor.go:1892-2047 | what is committed after an instruction ran is sound |
| `LayerCache.Commit` | imagebuildah/stage_executor.go:1892-2047 | a commit adds one entry, and one diff ID if there is a layer, puts the image and its layer in the store, and makes a sound image of a consistent base |
| `LayerCache.RunInstruction` | imagebuildah/stage_executor.go:1281-1300 | an instruction that is executed fails, changes the configuration or makes a layer, as in the plain build |
| `LayerCache.ExecuteStep` | imagebuildah/stage_executor.go:1195-1462 | without a hit a step agrees with the plain build's step; with a hit it does if the image is sound, and if not it can not come to the same any more; the last entry is what is said of this instruction; a hit is not too old and is readable; only a cached RUN is not executed; a sound store stays sound |
| `LayerCache.Execute` | imagebuildah/stage_executor.go:1061-1462 | for every list of instructions and every store, the cached build ends with the history and diff IDs of the plain one exactly when every image it took is sound; with a sound store that is so, it fails only when the plain one fails, and the store stays sound; the base's history is kept, and the entries are those of the instructions in their order; an image that was made for another instruction, other content, another destination or other arguments is never taken, if what is said of the two differs; hits form a prefix, and each instruction runs once unless it is a cached RUN |
| `LayerRebuild.RebuildTakesEverything` | imagebuildah/stage_executor.go:1061-1462 | for every list of instructions, and every base and store whose layers are there, whose histories account for them and in which nothing bears the time of the first build: building again on the store that a build with the cache left behind, before its images are too old, takes the image of every step from there, comes to the same image and leaves the store as it is |
| `LayerRebuild.BuildTwice` | imagebuildah/stage_executor.go:1061-1462 | so two builds one after the other, the second at any later time, if there is no limit to the age of images |
| `LayerCache.FailureStays` | imagebuildah/stage_executor.go:1061-1462 | after an instruction has failed, the plain build has failed |
| `LayerCache.StaysApart` | imagebuildah/stage_executor.go:1061-1462 | two builds that differ in an entry or in a layer differ after every further instruction |
| `LayerCache.UnsoundImageIsTaken` | imagebuildah/stage_executor.go:1816-1887 | an image whose only entry names the instruction, and whose layer is another one, is a candidate that extends the empty base, and the build that takes it ends differently |
| `VolumeCache.StageVolumes.constructor` | imagebuildah/executor.go:335-354 | a stage starts with no volume preserved |
| `VolumeCache.StageVolumes.Invalidate` | imagebuildah/stage_executor.go:184-202 | exactly the caches of volumes that the destination lies in are removed |
| `VolumeCache.InvalidatesIsPrefixTest` | imagebuildah/stage_executor.go:184-202 | the comparison of text is the question whether the destination lies in the volume |
| `VolumeCache.StageVolumes.Preserve` | imagebuildah/stage_executor.go:88-180 | the path is covered by a preserved volume afterwards, what was covered stays covered, and the invariant is kept |
| `VolumeCache.StageVolumes.NewVolume` | imagebuildah/stage_executor.go:103-147 | a new volume takes over those below it, so that no listed volume is below another, and gets a cache of its own |
| `VolumeCache.StageVolumes.Prune` | imagebuildah/stage_executor.go:148-179 | only volumes that are no longer listed lose their caches |
| `VolumeCache.StageVolumes.Save` | imagebuildah/stage_executor.go:206-255 | every volume has a cache file afterwards, which holds its present contents |
| `VolumeCache.StageVolumes.Restore` | imagebuildah/stage_executor.go:258-300 | every volume is as it was when it was saved, nested volumes included, and nothing outside the volumes changes but directories on the way to them |
| `VolumeCache.StageVolumes.Run` | imagebuildah/stage_executor.go:641-652 | whatever a RUN does, every cached volume is the same after it as before, and outside the volumes what the RUN did is there |
| `VolumeCache.StageVolumes.RunKeepsCovered` | imagebuildah/stage_executor.go:641-652 | and so is everything below a preserved volume, and only that |
| `VolumeCache.StageVolumes.Copy` | imagebuildah/stage_executor.go:347-357 | exactly the caches that the destination lies in are gone, and the books stay right whatever the destination; if it is safe, cache files equal the contents of their volumes |
| `VolumeCache.CopyKeepsSyncExactlyWhen` | imagebuildah/stage_executor.go:184-202 | every possible COPY to a destination keeps the caches right exactly when the destination is not above a cached volume, nor the volume itself without a slash |
| `VolumeCache.SafeCopyKeepsSync` | imagebuildah/stage_executor.go:184-202 | the one half: a safe COPY leaves no stale cache |
| `VolumeCache.StaleAfterCopy` | imagebuildah/stage_executor.go:184-202 | the other half: an unsafe destination has a COPY that leaves one |
| `VolumeCache.StageVolumes.ExecuteOne` | imagebuildah/stage_executor.go:88-300 | one instruction keeps the invariant, does what it says (a VOLUME is there and covered, a RUN has its effect outside the volumes, a COPY has its effect) and leaves alone the covered paths that it does not aim at |
| `VolumeCache.StageVolumes.ExecuteAll` | imagebuildah/stage_executor.go:88-300 | over every sequence of VOLUME, RUN and COPY or ADD whose destinations are safe for the volumes declared by then, and which do not change the attributes of a volume's own directory when they are aimed at it with a slash, each step does what it says, and a path that is covered after any step stays covered, and stays as it is, up to any later step between which no COPY aims at it |
| `Paths.RelSubdirectoryBelow` | copier/copier.go:454-469 | below the root, the relative path is the part below the root |
| `Paths.RelSubdirectoryDropsCommonPrefix` | copier/copier.go:443-469 | outside the root, it is the part below the deepest common directory |
| `Paths.RelativeIsSameExactlyWhen` | copier/copier.go:454-469 | a path relative to a directory is the path itself exactly when the two do not start with the same name |
| `Paths.JoinsAlikeExactlyWhen` | copier/copier.go:950-959 | joining a relative target to a directory below the root and taking the result relative to the root is the same as joining it inside a chroot exactly when the target does not climb above the root to something that starts with the name left off there |
| `SymlinkResolution.ResolvePath` | copier/copier.go:915-972 | the loop ends for every map of links, cycles included, computes the specified resolution, and any path it returns is the root or below it |
| `SymlinkResolution.LoopRefinesWalk` | copier/copier.go:915-972 | from any point of its run, the loop gives what the walk in a chroot gives |
| `SymlinkResolution.ResolveRefinesChrootWalk` | copier/copier.go:915-972 | with a link-free root and links that do not come back by the root's name nor cancel a link by "..", the result is that of a component-by-component walk in a chroot |
| `SymlinkResolution.ResolvedIsLinkFree` | copier/copier.go:915-972 | with final links evaluated, no link is left in the result |
| `SymlinkResolution.LinkFreeResolvesToItself` | copier/copier.go:915-972 | a path without links resolves to itself |
| `SymlinkResolution.ResolutionIsIdempotent` | copier/copier.go:915-972 | resolving a result again gives the same |
| `SymlinkResolution.ChainExactlyWhen` | copier/copier.go:915-972 | a chain of links is resolved to its end exactly when there are at most 64 |
| `SymlinkResolution.ExcludedExactlyWhen` | copier/copier.go:883-906 | what is excluded is what the patterns match, relative to the root, and never the root |
| `SymlinkResolution.ExcludedResolvesToItself` | copier/copier.go:915-972 | an excluded directory hides all links at and below it: paths through it resolve to themselves |
| `SymlinkResolution.ClimbingLinkMissesTheWalk` | copier/copier.go:950-959 | a link that climbs above the root and returns by the root's name does not resolve as in a chroot |
| `SymlinkResolution.ClimbingLinkExactlyWhen` | copier/copier.go:950-959 | a relative link with no link on the way of its target resolves as in a chroot exactly when its target, joined in the chroot, is what it is outside |
| `SymlinkResolution.CancelledLinkMissesTheWalk` | copier/copier.go:950-959 | below any root, a link to a/../b where a is a link resolves to b beside a, and not to b beside what a leads to |
| `SymlinkResolution.CancelledLinkExactlyWhen` | copier/copier.go:950-959 | a link in whose target ".." follows the name of a link resolves as in a chroot exactly when the directory that the cancelled link is in and the one that it leads into have the same directory as many levels up as the rest of the target climbs |
| `SymlinkResolution.DotsFirstIsTame` | copier/copier.go:950-959 | relative links whose dots come first and do not climb out are all of the kind that resolves as in a chroot |
| `CopierPut.EnsureDirectoryUnderRoot` | copier/copier.go:1544-1571 | the loop makes the directories from the root down and stops at the first that can not be made |
| `CopierPut.SetModes` | copier/copier.go:1653-1657 | the noted modes are set one after the other, in some order of all noted paths, each on what the path leads to then through symbolic links, if the extractor gets there, and errors are ignored |
| `CopierPut.Put` | copier/copier.go:1623-1912 | entries are extracted one after the other up to one that fails, and the noted modes are set in any case, in some order |
| `ModeSetting.SetKeepsShape` | copier/copier.go:1653-1657 | whatever the order, nothing but modes changes |
| `ModeSetting.FindExactlyWhen` | copier/copier.go:1653-1657 | a chain of links is followed to its end when a mode is set exactly when there are at most 40, which is the kernel's limit |
| `ModeSetting.EndsWithSome` | copier/copier.go:1653-1657 | whoever sets them: a directory or object has the mode that it had, or one that is noted for a path which leads to it |
| `ModeSetting.PlaceExactlyWhen` | copier/copier.go:1653-1657 | for the privileged: a directory or object has mode m in whatever order exactly when all modes noted for paths which lead to it are m, or there are none and it had it before |
| `ModeSetting.ReachIsBetween` | copier/copier.go:1653-1657 | such paths are among those that lead to the object, and include those within reach as things stand; for the privileged they are all that lead there |
| `ModeSetting.ReachedMayBeLast` | copier/copier.go:1653-1657 | each noted path through which an extractor can come to an object in some order is, in some order, the one that decides its mode |
| `ModeSetting.ObjectKeepsExactlyWhen` | copier/copier.go:1653-1657 | for any extractor: an object keeps its mode in whatever order exactly when that is the mode noted for all these paths |
| `ModeSetting.DirectorySetExactlyWhen` | copier/copier.go:1653-1657 | where only directories are noted: one of them gets its mode in whatever order exactly when the extractor is privileged, or it has its mode already, or all directories above it may be searched, both as they stand and as they are noted |
| `ModeSetting.SetExactlyWhen` | copier/copier.go:1653-1657 | all of them get their modes in whatever order exactly when this is so for each |
| `PutClosure.EntriesClose` | copier/copier.go:1640-1912 | along all entries, failed ones included, everything is in a directory, up to the root |
| `PutContents.PutEntryTouches` | copier/copier.go:1662-1906 | one entry changes only its own path, what is below it if it is not a directory, and missing directories above it; all objects stay, whatever their modes |
| `PutContents.EntrySetsMode` | copier/copier.go:1850-1906 | an entry sets the mode of the object that is at its path then, and changes no other object |
| `PutContents.EntryShows` | copier/copier.go:1724-1846 | a file, symbolic link, device or pipe replaces whatever was at its path, with its content, its mode and an inode of its own |
| `PutContents.HardLinkShows` | copier/copier.go:1732-1754 | after a hard link's entry, its path and the resolved path of its target are names of one object |
| `PutContents.MadeIsReached` | copier/copier.go:1850-1906 | what an entry has put at its path is within the extractor's reach, so setting its mode there does not fail |
| `PutArchive.IgnoredExactlyWhen` | copier/copier.go:1659-1790 | seen from the archive alone, exactly which entries are ignored: those without a name, devices if devices are to be ignored, and hard links to the name of an ignored entry |
| `PutArchive.NodeStays` | copier/copier.go:1640-1912 | what is at a path stays there along all entries that do not touch it |
| `PutArchive.ObjectStays` | copier/copier.go:1640-1912 | the object that the last entry for a path put there is there at the end of the archive, in an inode that was new then |
| `PutArchive.HardLinkStays` | copier/copier.go:1732-1754 | at the end of the archive, a hard link's path and its target are names of one object, unless a later entry touched the target |
| `PutArchive.LastModeDecides` | copier/copier.go:1850-1906 | the mode of an object is that of the last entry that was put at one of its names |
| `PutModes.EnsureDirectoryKeeps` | copier/copier.go:1544-1571 | directories that are made on the way are to have the default mode, and no other directory's mode is affected |
| `PutModes.MakeIsQuiet` | copier/copier.go:1720-1847 | putting something that is not a directory removes directories only at its path and below, and changes nothing about the modes that the others are going to have |
| `PutModes.PutEntryKeeps` | copier/copier.go:1662-1906 | every entry keeps the invariant: each directory is going to have the expected mode |
| `PutModes.DeferredModes` | copier/copier.go:1543-1585 | for every archive in which no path is both a directory and something else, duplicates allowed: only directories are noted, all that are listed are there, and in whatever order modes are set, each listed directory ends with its last header's mode and each other one with the mode it had before or else the default, exactly when the extractor is privileged or each noted directory has its mode already or has only directories above it that may be searched, as they stand and as noted |
| `PutModes.DeferredModesAfterFailure` | copier/copier.go:1653-1657 | after an entry that failed, every directory that the entry's own path does not lead to ends with the mode expected from the entries before it, or, for the unprivileged only, with the mode that it has then |
| `PutReading.ReadingIsRight` | copier/copier.go:1623-1912 | for every archive that a privileged extractor extracts: what is at each path after each number of entries is what is read off the archive and the tree before, hard links resolved through the symbolic links that there are then |
| `PutReading.NotesAreRight` | copier/copier.go:1543-1585 | and so are the modes that are noted for each path |
| `PutReading.NotedExactlyWhen` | copier/copier.go:1543-1585 | if no path is both a directory and something else, these are exactly listed directories with their last header's mode, and directories that are called for and were not there, with the default |
| `PutFinalModes.OutlineIsRead` | copier/copier.go:1653-1657 | where paths lead at the end, through symbolic links, is told from the archive |
| `PutFinalModes.ContentsAsRead` | copier/copier.go:1623-1912 | at the end, modes set, everything that is not a directory is what its entry or the tree before says, but for its mode |
| `PutFinalModes.FileModeExactlyWhen` | copier/copier.go:1653-1657 | for every archive that a privileged extractor extracts, hard links and symbolic links in place of directories included, and each file, device or pipe at its end: it has mode m in whatever order exactly when, told from the archive, m is noted for all paths which lead to it, or there are none and m is what the last entry for one of its names gave it |
| `PutFinalModes.FileKeepsItsModeExactlyWhen` | copier/copier.go:1653-1657 | so for the header's own mode of an entry that is the last word about its path |
| `PutFinalModes.DirectoryModeExactlyWhen` | copier/copier.go:1653-1657 | the same for directories: m is noted for all paths which lead there, or there are none and it is one that was there before with mode m |
| `PutOutcome.ListedDirectoryExactlyWhen` | copier/copier.go:1653-1657 | a directory of such an archive ends with the mode of the last header for it, in whatever order, exactly when the extractor is privileged, or it has that mode already, or all directories above it may be searched, as they stand and as noted |
| `PutOutcome.LastEntryHolds` | copier/copier.go:1640-1912 | at the end, modes set, whoever extracts: a directory is there, with its last header's mode if that can be set; a file, link, device or pipe is what its last entry says, with the mode that was decided last for its inode, which is its own if no hard link comes after it; a hard link shares the object of its target |
| `PutOutcome.OthersStay` | copier/copier.go:1640-1912 | what no entry touches stays, and what comes is listed or on the way to something listed |
| `PutOutcome.ExtractedContents` | copier/copier.go:1623-1912 | for every archive in which no path is both a directory and something else, these together for all listed paths and all others |
| `PutOutcome.FileMode` | copier/copier.go:1653-1657 | for every archive and every extractor, a file, device or pipe that nothing touches after its entry is there as its entry says, and ends with the mode decided last for its inode, which is its own if no hard link comes after it, or with a mode that is noted for a path through which the extractor can come to it in some order |
| `PutOutcome.DecidedModeStaysExactlyWhen` | copier/copier.go:1653-1657 | for every archive and every extractor: in whatever order noted modes are set, it ends with the mode decided last for its inode exactly when all modes noted for paths through which the extractor can come to it in some order are that one |
| `PutExamples.FileGetsModeOfDirectory` | copier/copier.go:1653-1657 | a directory and then a file of the same name: the extraction succeeds, and the file ends with the directory's mode |
| `PutExamples.FileGetsModeThroughLink` | copier/copier.go:1653-1657 | a directory, a file, and then a symbolic link to the file in place of the directory: the extraction succeeds, and the file ends with the directory's mode |
| `PutExamples.DirectoryModeDependsOnOrder` | copier/copier.go:1653-1657 | two directories, and then a symbolic link to the second in place of the first: the second one ends with either mode, in one order or the other |
| `PutExamples.InnerModeIsLost` | copier/copier.go:1653-1657 | an unprivileged extractor of a directory of mode 0600 with a file and a directory of mode 0555 with a file in it may succeed and leave the inner one with mode 0700 |
| `PutExamples.PipeIsDoubled` | copier/copier.go:1429-1441 | a pipe with two names comes back as two pipes |
| `PutLinks.LinkTargetExactlyWhen` | copier/copier.go:1742-1744 | a hard link's target is the path where the entry of that name was put exactly when its name and the target directory do not start with the same name |
| `PutLinks.LinkLeadsElsewhere` | copier/copier.go:1742-1744 | extracted into /a, the file a/f is at /a/a/f, and a hard link to a/f leads to /a/f |
| `PutOptions.DefaultModeIs` | copier/copier.go:1511-1521 | directories made on the way get 0755, or the permissions, without the special bits, that one of two options gives, of which `DefaultDirMode` has precedence |
| `PutOptions.HeaderModeIs` | copier/copier.go:1696-1719 | the mode of an entry: the option for directories or that for others, with special bits; without an option the header's own mode, less the special bits that are to be stripped, each by its own option |
| `PutOptions.StickyIsLostOnTheWay` | copier/copier.go:1511-1521 | with 01777 for directories, listed ones are sticky and those made on the way are not |
| `PutOptions.ReplacedExactlyWhen` | copier/copier.go:1720-1847 | for the privileged: something that is not a directory replaces whatever is there, unless it is a directory and the options forbid that |
| `PutOptions.DirectoryPutExactlyWhen` | copier/copier.go:1801-1833 | a directory goes where there is one or nothing, or in place of something else unless the options forbid that |
| `PutOptions.EntryStaysBelow` | copier/copier.go:1691 | an entry goes below the target, whatever its name |
| `PutOptions.EntryGoesTo` | copier/copier.go:1691 | to the path of its name from the target on, if there are no dots in it |
| `PutFailures.EnsureExactlyWhen` | copier/copier.go:1544-1571 | directories can be made exactly when nothing but directories is in their way |
| `PutFailures.EntryExactlyWhen` | copier/copier.go:1662-1906 | for the privileged, exactly which entries can be extracted |
| `PutFailures.BeginExactlyWhen` | copier/copier.go:1623-1639 | the target can be used exactly when it is a directory, or is missing below directories |
| `PutFailures.ExtractedExactlyWhen` | copier/copier.go:1623-1912 | for every archive and every tree, told from these alone: a privileged extractor extracts the first n entries exactly when the target can be used and each entry finds its way clear, something that it may replace, and its target if it is a hard link |
| `PutFailures.LinkToItselfRemoves` | copier/copier.go:1732-1754 | a hard link to its own path fails, and what was there is gone |
| `CopierGet.HardlinkChecker.Check` | util/util_unix.go:20-27 | the name is found exactly for files with several names that were added |
| `CopierGet.HardlinkChecker.Add` | util/util_unix.go:28-32 | only files with several names are added |
| `CopierGet.CheckerFits` | util/util_unix.go:20-32 | the checker knows every regular file with several names that was archived, under an earlier name of the same inode |
| `CopierGet.Get` | copier/copier.go:1187-1292 | the walk archives each thing once, as a header for its own type or as a hard link to the first of its names |
| `CopierRoundTrip.EntryAdds` | copier/copier.go:1662-1906 | each entry adds the thing that it was made for, with its content, target and links, and it fails exactly when it is not a regular file and its directory may not be written to, or is a device and the extractor is not privileged; which directories are made writable for it |
| `CopierRoundTrip.GetThenPut` | copier/copier.go:1141-1912 | archiving a tree and extracting it into an empty directory succeeds exactly when everything but regular files goes into directories that may be written to by then, and the unprivileged meet no devices; it then reproduces names, types, contents, link targets and the modes of all but directories, two names are those of one thing exactly when they were before and it is a regular file, the directory itself keeps its mode, and the others have theirs if these can be set in every order |
| `CopierRoundTrip.ReproducedExactlyWhen` | copier/copier.go:1653-1657 | whatever the order, the modes of directories are reproduced exactly when, told from the tree, each directory that has to be made writable is below directories that are to be searchable |
| `CopierRoundTrip.OpenedMayStay` | copier/copier.go:1653-1657 | one that is not may stay with mode 0700 |
| `CopierRoundTrip.LinksKeptExactlyWhen` | copier/copier.go:1429-1441 | of a tree that was archived and extracted, all links are kept exactly when nothing but regular files had two names |
| `CopierRoundTrip.PrivilegedExtracts` | copier/copier.go:1640-1912 | a privileged extractor never fails, and its directory modes can be set in every order |
| `CopierRoundTrip.ReadOnlyDirectoryFails` | copier/copier.go:1856-1886 | an unprivileged extractor fails on a directory in a read-only directory, unless a file came before it |
| `CopierRoundTrip.DeviceFails` | copier/copier.go:1771-1800 | an unprivileged extractor fails on every tree with a device in it |
| `ImageAssembly.Chain` | image.go:287-307 | the chain of a layer's parents ends with the layer, and all others are older |
| `ImageAssembly.WalkLayers` | image.go:287-307 | the walk up the parents gives the chain from base to top, or the top layer alone if squashing |
| `ImageAssembly.ExpectedOCIDiffIDs` | image.go:111-119 | the number of history entries with a layer |
| `ImageAssembly.ExpectedDockerDiffIDs` | image.go:121-129 | the same, in the other format |
| `ImageAssembly.AppendHistory` | image.go:515-542 | the extra entries are appended to both histories, all without a layer |
| `ImageAssembly.DescribeLayers` | image.go:334-512 | both manifests describe the same layers, in order: known ones as plain archives under their digest and size, others with the digest of what is read as diff ID, and as blobs the media type of the compression, with digest and size of what is written; for each there is a layer or a file of that digest to read it from; it gives up exactly when a layer that has to be read is to be compressed in a way that has no media type |
| `ImageAssembly.HistoryCount` | image.go:515-593 | a commit adds exactly one entry with a layer, or none for an empty layer, to either history, whatever empty entries go with it |
| `ImageAssembly.HistoryIsParallel` | image.go:515-593 | the two histories stay parallel, and name the same authors exactly when they did and the two configurations have the same author, or history is omitted |
| `ImageAssembly.NewImageSource` | image.go:279-593 | what it returns describes the chain in both formats, with both histories extended, and has a blob for each layer; exactly when it refuses, for each of the four reasons |
| `ImageAssembly.GetBlob` | image.go:725-777 | a blob is served exactly when a layer of the store is known by the digest, or there is a file of that name in one of the two directories; the first of these is served, with its size |
| `ImageAssembly.GetLayer` | image.go:725-777 | every listed layer is served, has the digest that it is listed under, and is made as its media type says of something that has the diff ID as its digest |
| `CommitChain.CountsOfCommit` | image.go:544-592 | how long the new history is, how many of its entries have a layer and how many layers there are, and that the check fails exactly when the base's own history is not empty and does not account for its layers |
| `CommitChain.CannotReadIsUnreadable` | image.go:333-384 | a media type is missing exactly when the commit has a layer of its own or the base a layer whose digest is not known |
| `CommitChain.DiffIDsOfCommit` | image.go:333-512 | the diff IDs are those of the base's layers, known or computed, followed by that of the container's own layer; that one alone if squashing |
| `CommitChain.BlobsOfCommit` | image.go:333-512 | a layer of the base whose digest is known is listed as a plain archive under that digest and size; every other one under digest and size of what is written, which is compressed, and of the compressed media type, exactly when the options say so |
| `CommitChain.CompressedIsListedApart` | image.go:414-512 | where compressing changes what is read, the listed digest differs from the diff ID exactly for layers that are compressed |
| `CommitChain.HistoryOfCommitO` | image.go:515-577 | entry by entry: the base's history unless squashed, the entries before, the entry of the commit with its author, comment, time and whether it has a layer, and the entries after; none if history is omitted |
| `CommitChain.HistoryOfCommitD` | image.go:515-577 | the same in the other format, where a missing time is the zero time |
| `CommitChain.ContentsHaveDigests` | image.go:333-512 | what is in each listed layer has its diff ID as digest |
| `CommitChain.ReadLayer` | image.go:725-777 | every layer of a committed image can be read, has the digest that it is listed under, and is what was committed, compressed if so listed |
| `CommitChain.PutLayers` | commit.go:346-352 | layers of the base that the store knows by digest are used again and the others are added with their contents, so that the chain of the image has the listed digests in order; a store that knows layers by the right digests still does |
| `CommitChain.StoreImage` | commit.go:346-352 | the stored image has the histories and diff IDs of both formats, with equal layer lists, and layers that hold what they are to hold |
| `CommitChain.Commit` | image.go:279-593 | one commit on top of any image, with an empty layer, a new layer, squashed or without history: exactly when and why it is refused, and otherwise all of this |
| `CommitChain.CommitAll` | image.go:279-593 | any number of commits on any image, with any options: it goes on up to the first that is refused, and which one that is and why; the counts are those that the options lead to, the layers are those of the diff ID list, and a store that knows layers by the right digests still does |
| `CommitChain.PlainCommitsKeepTheGap` | image.go:544-592 | commits that neither squash nor omit history change nothing about how far history and layers are apart |
| `CommitChain.MismatchExactlyWhen` | image.go:579-592 | along such commits the check fails exactly when the first base's history does not account for its layers; at once if there is a history, and at the second commit if there is none |
| `CommitChain.FitsUntilOmitted` | image.go:579-592 | from a base whose history accounts for its layers, and from any squashed commit on, the check never fails unless history is omitted |
| `CommitChain.OmittedHistoryFailsExactlyWhen` | image.go:544-592 | after a commit without history, plain commits fail the check exactly from the second one on, if there is any layer |
| `CommitChain.SecondCommitFails` | image.go:579-592 | on a base with a layer and no history, the first of two plain commits passes the check and the second one fails it |
| `StdioRelay.Relay.Pipes` | run_common.go:810-824 | the relay of our input to the container's pipe and of its two outputs |
| `StdioRelay.Relay.Terminal` | run_common.go:779-795 | the relay between our input and output and the container's terminal |
| `StdioRelay.Relay.ReadOn` | run_common.go:911-928 | when no more will come, all there is is buffered |
| `StdioRelay.Relay.ReadFrom` | run_common.go:872-931 | what one descriptor had is buffered for its output, and exactly when it is not read from again or the relay stops |
| `StdioRelay.Relay.ReadAll` | run_common.go:871-931 | what all descriptors had is buffered, in order, up to one that can not be read, which is the only way to fail |
| `StdioRelay.Relay.WriteTo` | run_common.go:936-949 | exactly what the other side took is gone from the buffer, and the container's input is closed if that was the last of it |
| `StdioRelay.Relay.Drain` | run_common.go:932-953 | this for each buffer that holds something; it fails exactly when one of them meets a broken pipe |
| `StdioRelay.Relay.CloseInput` | run_common.go:944-948 | the pipe is closed only after our input ended and with nothing left for it |
| `StdioRelay.Relay.Remove` | run_common.go:955-965 | a descriptor has ended and is not read from again; if it is our input and nothing is left for it, the pipe is closed |
| `StdioRelay.Relay.Turn` | run_common.go:856-972 | a turn is the last exactly when polling fails, something relayed can not be read, something buffered can not be written, or the finish descriptor has an event; the effect of a turn on every buffer and on the descriptors, and what is read in any case; between turns, input that ended and was passed on is closed |
| `StdioRelay.Relay.Loop` | run_common.go:855-972 | turns are taken exactly up to the first that is the last, or until there is nothing left to relay |
| `StdioRelay.Relay.Run` | run_common.go:759-974 | for every sequence of polls, reads and writes: how many turns are taken, exactly; the bytes read for each output are what the descriptors had for it in these turns, in order; they are the bytes written to it followed by its buffer; the container's input is closed exactly once and not written to afterwards, and the loop closes it exactly if our input has ended and all that was read for it was written |
| `StdioRelay.TakenIs` | run_common.go:872-928 | from a descriptor that is ready one chunk is read, and all there is if the other end has hung up; from any other one nothing |
| `StdioRelay.OverExactlyWhen` | run_common.go:872-931 | a descriptor is not read from again exactly when the other end has hung up, it is not open, or it is our input at its end |
| `StdioRelay.NothingIsLeft` | run_common.go:932-953 | if every write takes all there is, nothing is left in any buffer after any number of turns |
| `MountList.LessTransitive` | util/util.go:443-452 | the comparison is transitive |
| `MountList.LessIsStrict` | util/util.go:443-452 | and does not order destinations that clean to the same path |
| `MountList.LessIsTotal` | util/util.go:443-452 | and orders all others one way or the other |
| `MountList.SortIsSorted` | util/util.go:462-465 | sorting sorts |
| `MountList.SortIsStable` | util/util.go:462-465 | mounts on one path keep their order |
| `MountList.AnyStableSort` | util/util.go:462-465 | there is only one list that is sorted and stable, so any stable sort gives it |
| `MountList.HaveMount` | run_common.go:1276-1284 | whether a mount has that destination, as it is written |
| `MountList.MergeMounts` | run_common.go:1363-1375 | the loop keeps the first mount of each destination of the sorted list |
| `MountList.AboveIsLess` | util/util.go:443-460 | a mount on a directory above sorts first, "/" too, though it has as many slashes as "/a" |
| `MountList.MergedMounts` | run_common.go:1363-1375 | one mount per destination, the one of the preferred source, in sorted order, and every mount after the mounts on directories above it |
| `MountList.OneMountPerPathExactlyWhen` | run_common.go:1276-1284 | no path is mounted on twice exactly when every path is written in one way |
| `MountList.TwoSpellingsAreBothKept` | run_common.go:1276-1284 | mounts on "/a" and on "/a/" are both kept |
| `UnmountOrder.GetChildren` | bind/mount.go:216-224 | exactly the mounts that hang directly off a mount, each once |
| `UnmountOrder.GetTree` | bind/mount.go:227-236 | if the top does not hang off itself, the worklist ends with exactly the mounts that hang off it, each once and after its parent |
| `UnmountOrder.CycleNeverEnds` | bind/mount.go:227-236 | if it does, the worklist never runs out |
| `UnmountOrder.RootMountNeverEnds` | bind/mount.go:227-236 | so for a single mount that is its own parent |
| `UnmountOrder.GetMountByID` | bind/mount.go:238-245 | the first with that ID is found exactly if there is one |
| `UnmountOrder.GetMountByPoint` | bind/mount.go:247-254 | the first on that mountpoint is found exactly if there is one |
| `UnmountOrder.UnmountTree` | bind/mount.go:264-302 | the turn of a mount comes only after that of every mount that hangs off it, also if the walk stops early, which it does only at a mount that can not be unmounted; if it does not stop, every mount has its turn |
| `UnmountOrder.UnmountMountpoints` | bind/mount.go:209-304 | the same for a mountpoint, where nothing is done if nothing is mounted on it |
| `ContentSummary.CompositeDigester.constructor` | digester.go:200-203 | nothing has been added |
| `ContentSummary.CompositeDigester.CloseAt` | digester.go:191-197 | closing waits for all that was written to be digested, and closing again changes nothing |
| `ContentSummary.CompositeDigester.CloseOpenDigester` | digester.go:206-211 | no digester is left open |
| `ContentSummary.CompositeDigester.Restart` | digester.go:214-217 | nothing has been added |
| `ContentSummary.CompositeDigester.Start` | digester.go:222-234 | a new item, the ones before it being closed |
| `ContentSummary.CompositeDigester.Write` | digester.go:187-189 | what is written is added to its item, unless that is a closed archive |
| `ContentSummary.CompositeDigester.Digest` | digester.go:247-269 | all digesters are closed before they are asked, so the digest is that of everything that was written |
| `ContentSummary.Join` | digester.go:255-267 | the loop writes types and digests as specified |
| `ContentSummary.TextIsUnique` | digester.go:255-267 | a list of types and digests can be told from its text |
| `ContentSummary.SummaryTellsHowMany` | imagebuildah/stage_executor.go:877-888 | no item, one item and several items have different summaries |
| `ContentSummary.SameSummaryExactlyWhenSameContent` | imagebuildah/stage_executor.go:877-888 | with no collision among the digests in question, two additions have the same summary exactly when the same items were added in the same order: the same type, and the same bytes, or the same archive but for the times |
| `IdMapping.First` | util/util.go:257-264 | the first range that holds the ID |
| `IdMapping.Translate` | util/util.go:256-268 | one loop translates by the first range that holds the ID, in 32 bits; with no ranges, the ID stays |
| `IdMapping.GetHostIDs` | util/util.go:285-311 | both IDs are translated, or there is an error exactly if one of them is not mapped |
| `IdMapping.GetContainerIDs` | util/util.go:255-281 | the same in the other direction |
| `IdMapping.HostIDExactlyWhen` | util/util.go:285-311 | an ID has a given ID on the host exactly when, in the first range that holds it in the container, it is as far from the start as the other is on the host, in 32 bits; or there are no ranges and it stays |
| `IdMapping.ContainerIDExactlyWhen` | util/util.go:255-281 | the same in the other direction |
| `IdMapping.DisjointRoundTrips` | util/util.go:255-311 | an ID translated to the host and back is the same, if host ranges do not wrap and do not meet |
| `IdMapping.RoundTripsExactlyWhenDisjoint` | util/util.go:255-311 | exactly then, for container ranges that neither wrap nor meet |
| `IdMapping.FoundExactlyWhen` | util/util.go:255-311 | a range translates exactly the IDs in it, and none if its end can not be written in 32 bits |
| `IdMapping.LastRangeIsNeverFound` | util/util.go:255-311 | a range whose end wraps holds no ID |

## Left out

- Real I/O, system calls, ownership, extended attributes and timestamps: only their effect on names, contents, links and modes is modelled. An unprivileged extractor owns all that it deals with, so of permissions the owner's matter.
- Following symbolic links while entries are extracted: a path through a symbolic link fails in `FileTree`, where the kernel would follow it. The results about extraction are for trees without links above the paths in question. When modes are set at the end links are followed, as the kernel does inside a chroot, up to 40 of them.
- What is left of a directory when removing it fails half way: `FileTree.RemoveAll` removes all or nothing.
- Excludes, renaming (`handleRename`), expanding archives and reading through symbolic links in `copierHandlerGet`: they would add members without making the round trip harder.
- Sockets, which `copierHandlerGet` skips: a tree holds directories, files, symbolic links, pipes and devices.
- Pattern matching of excludes in `resolvePath` is a parameter of the model; what an excluded path does is stated, and the refinement of the chroot walk is for resolution without excludes. A link whose target leads through further links is covered if none of them is cancelled by ".."; for a cancelled one there is the exact condition with no further links on the way.
- Squashing in a layered build, pulling from and pushing to remote caches, and tagging existing images in `Execute`.
- Instructions whose result is not determined by base, history and instruction, which caching supposes; and what a build does once the store can not be read. That nothing else in the store bears the time of the first build is supposed of building again, since entries are told apart by their times.
- VolumeCache.StageVolumes.ExecuteAll: is for sequences in which no COPY aims at a directory above a volume that is cached by then, nor at the volume itself without a slash. After such a COPY the cache may be stale, as `VolumeCache.CopyKeepsSyncExactlyWhen` says. A COPY at the volume itself with a slash has to leave the attributes of the volume's directory as they are: these are recorded when the volume is declared, and the next RUN puts them back.
- Overlay volumes (`volumeCacheSaveOverlay`): nothing is copied there, so nothing has to be restored.
- VOLUME "/" and volumes reached through symbolic links: volume paths are clean and below the root.
- Cancelling the build's context, semaphores shared between builds, and races on plain fields: a step of the scheduler model is atomic, and reading or setting `lastError` or `cancel` is a step or part of one. That the semaphore and the Go scheduler are fair is the assumption of `SchedulerFairness`.
- Stage names that look like numbers other than their own positions: the scheduler is modelled without them.
- Compression and the bytes of layers in `ImageAssembly`: a codec gives the compressed content, digest and size. The blob of the configuration, which `GetBlob` serves from memory. How the storage library finds layers again is a loop over their digests in `CommitChain`.
- The order in which Go iterates over maps is arbitrary in the model too; the order of the archive's walk is any in which directories come before their contents.
- Bytes that are still buffered when the relay stops are lost, as in the program: `StdioRelay` says which they are.
- Relative mount destinations: destinations are absolute.
- The device check before unmounting is part of each mount's fate in `UnmountOrder`, which is given.
- The format of archives and the filter that clears their times are a function in `ContentSummary`; the assumption about collisions is only about the digests that are compared.
- `MergeEnv`, configuration setters, networking, name resolution, registries and the command line: easy members, or code of other projects.
