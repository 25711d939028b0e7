# Verification of the virtual Git repository

A Dafny 4.11 model of the Qore Git module in virtual mode, with proofs about it. It covers

- the repository object: a flat working map over a content-addressed object store and a reference
  map, its operations, and the merge that releases its lock while resolver callbacks run;
- the two in-memory backends it runs on;
- the configuration manager and the configuration watcher on top of it;
- two parsers that stand alone: the one for remote addresses and the one for AOT metadata notes in
  ELF images.

`dafny verify dfyconfig.toml` checks everything.

## How it is modelled

Code that updates objects in place is a class whose methods do the same steps on fields:
`VirtualRepository.Repository`, `MemoryOdb.MemoryOdb`, `MemoryRefDb.MemoryRefDb` with its
`RefIterator`, `ConfigManager.GitConfigManager`, `ConfigWatcher.GitConfigWatcher`. Each method is
proved against a function or relation on the value of the object (`Operations`, `ManagerCalls`), and
`OperationLaws`, `Runs`, `Migration` and `ManagerCalls` prove what these promise, over one call and
over whole runs. `Effects`, `MergeOutcomes`, `PullOutcomes` and `ElfImages` tell the same operations apart
from the functions that specify them: by what can be read afterwards, by full reference names, by the
stages of each conflict, by headers laid out field by field. Loops that the code has are loops here.

libgit2 is a small model of its own rather than a list of assumptions. The id of an object is the
object itself, so ids are injective and a commit names only older objects. A tree builder is a map
that refuses an unacceptable name and replaces an entry of the same name. A merge is up to date or a
fast-forward by ancestry over the commit graph. Creating a commit fails when the reference it is to
move has a tip that is not its first parent. Adding a path to an index removes the entries that
collide with it as file and directory.

What comes from outside is a parameter: the index a three-way merge produces, with its conflicts;
the verdict on a reference name; the answers of a resolver; what a fetch or push changes, which may be
anything but HEAD, the branches and the working map; which steps of a migration fail for reasons of
their own; and what others have made of the repository while its lock was released, of which only is
known that it is valid, has all objects it had, and that a HEAD once born stays born (`Lasts`), which
`Runs` proves of every operation.

A repository in a directory keeps each reference in the file of its name, so it refuses a name when a
directory of it, or a name below it, is taken (`PathFree`): while it is filled by a migration and, ever
after, for new branches, tags and the branch of a first commit (`RefFree`). The in-memory reference
database refuses only a name that is taken itself.

A text given as a commit is a `Rev`: the text, and the stored object whose id it spells in full or
abbreviates, if any. It resolves as libgit2 does it: a full id first, then references by its name in
their fixed order, then an abbreviated id.

## Results that differ from what one might expect

Each comes with its exact condition and with a run that reaches it.

- `commit` leaves HEAD and the working map in step if and only if no path of the map is a directory of
  another path in it (`CommitLaw`). If one is, the deeper file wins and the other is missing from the
  commit (`CoveredFile`).
- `checkout` resolves a text by the general rules but moves HEAD by the branch of that name. HEAD and
  the working map are in step afterwards if and only if that branch, where there is one, has the tree
  that was checked out (`CheckoutLaw`); a tag of the same name breaks it (`ShadowingTag`).
- A fast-forward takes place whatever `no_commit` says (`BeginMergeLaw`, `ForwardDespiteNoCommit`).
- A first commit succeeds only if the directory the repository has moved to can take the branch main
  (`CommitLaw`): with a branch `main/x` made from a fetched commit it never does (`RefusedFirstCommit`).
- A proposal is built on the files of whatever its branch name reads as, and applying it fast-forwards to
  it if and only if the name given reads as it (`ProposeExact`, `ProposalAppliesIff`). With a tag of that
  name, the commit brings back what the tag has and the branch no longer does, and applying it merges the
  tag instead (`HiddenByTag`, `HiddenProposal`).
- A migration in which nothing else fails keeps every reference if and only if none of their names is a
  directory of another; otherwise it succeeds all the same, and exactly the references below another
  one are lost (`KeepsAllRefsIff`), such as the branch `a/b` next to a branch `a` (`LostBranch`).
- The manager's remembered HEAD is the repository's HEAD after every call that returns, except after
  creating the environment for which an unborn HEAD waits and until a call looks at HEAD again
  (`RunInStep`, `UnnoticedBirth`). The report of a sync is right if and only if that has not happened
  since or HEAD moved (`SyncReportsMoves`).
- The watcher reports conflicts only together with a move of HEAD (`ConflictEventIff`). A pull that
  leaves conflicts moves nothing, so unless somebody else moves HEAD they are never reported
  (`ConflictsUnreported`, `UnreportedConflict`).
- In `userHistory`, a negative limit lets one entry through (`NegativeLimit`).
- In an scp-like address the host is cut at its first colon, so that a bracketed literal is not found
  (`ScpBracketed`, `CutLiteral`); without a user, an `@` in the path is taken for the end of the user
  (`ScpHostFromPath`, `WrongHost`).

## Model

| member | source | states |
|---|---|---|
| Paths.ValidateRepoPath | src/QoreGitRepository.cpp:66-91 | the walk from slash to slash accepts exactly the non-empty relative paths that have no `..` among their components |
| Paths.ValidPathText | src/QoreGitRepository.cpp:66-91 | told from the characters: a path is valid if and only if it is not empty, does not begin with a slash, and has no two dots between slashes or ends |
| TreeBuilding.FlattenTreeOf | src/QoreGitRepository.cpp:1351-1462 | building the nested tree of a map of storable paths and flattening it gives exactly the map without the paths that are a directory of another path |
| TreeBuilding.RoundTripIffPrefixFree | src/QoreGitRepository.cpp:1351-1462 | the whole map comes back if and only if none of its paths is a directory of another |
| TreeBuilding.TreeOfFlatten | src/QoreGitRepository.cpp:1351-1462 | building from the flattening of any tree of plain blobs and non-empty subtrees gives that tree back |
| TreeBuilding.FillShape | src/QoreGitRepository.cpp:1364-1402 | the directories filled from a map have only names a tree builder accepts if and only if every component of every path is such a name |
| Effects.EntryNames | src/QoreGitRepository.cpp:1393-1402 | which entry names are refused: the empty one, dots, names with a slash, and the spellings of `.git` and `git~1` that stand for them on Windows |
| Objects.FlattenInjective | src/QoreGitRepository.cpp:1432-1462 | two well-formed trees with the same flat map are the same tree |
| VirtualRepository.Repository.FillDirs | src/QoreGitRepository.cpp:1356-1382 | the loop over the working map groups it into directories, later paths after earlier ones in key order |
| VirtualRepository.Repository.InsertBlobs | src/QoreGitRepository.cpp:1393-1402 | the builder gets all blobs of a directory, or the build fails just when one of their names is unacceptable |
| VirtualRepository.Repository.AddSubtree | src/QoreGitRepository.cpp:1404-1418 | one turn of the loop over subdirectories: what writing the subtree leaves is in the store, and the subtree in the builder; it fails just when a name is unacceptable |
| VirtualRepository.Repository.AddSubtrees | src/QoreGitRepository.cpp:1404-1418 | the loop itself, which stops at the first subdirectory that fails and leaves exactly what was written until then |
| TreeStoring.StoredOk | src/QoreGitRepository.cpp:1384-1427 | a directory that can be written leaves exactly its tree and the trees below it |
| TreeStoring.StoredExact | src/QoreGitRepository.cpp:1384-1427 | writing a directory, also when it fails, leaves exactly the trees of the directories before which everything in order was acceptable and whose own names are |
| TreeStoring.StoredClosed | src/QoreGitRepository.cpp:1384-1427 | whatever writing a directory leaves, also when it fails, are trees with all their parts stored |
| VirtualRepository.Repository.BuildTree | src/QoreGitRepository.cpp:1384-1427 | the bottom-up build fails just when some name is unacceptable; the store grows by exactly the trees written before the first such name |
| VirtualRepository.Repository.PopulateFromTree | src/QoreGitRepository.cpp:1432-1462 | every file of the tree is added to the working map under its full path; entries under other paths stay |
| VirtualRepository.Repository.ReplaceWork | src/QoreGitRepository.cpp:1571-1572 | clearing and filling makes the working map the flattening of the tree |
| VirtualRepository.Repository.WriteFile | src/QoreGitRepository.cpp:784-802 | a valid path is bound to the new blob and nothing else changes; an invalid one changes nothing |
| VirtualRepository.Repository.DeleteFile | src/QoreGitRepository.cpp:874-886 | only the working entry goes |
| VirtualRepository.Repository.ReadFile | src/QoreGitRepository.cpp:693-771 | the working map first, then the tree of HEAD; content, nothing, or an error |
| OperationLaws.ReadsOverlay | src/QoreGitRepository.cpp:693-771 | a path reads as content if and only if it is in HEAD's files overlaid with the working map, and then as that blob |
| OperationLaws.ReadsWorkInSync | src/QoreGitRepository.cpp:693-771 | when HEAD and the working map are in step, reading sees exactly the working map |
| Effects.ReadOutcome | src/QoreGitRepository.cpp:693-771 | every outcome of a read: content, nothing, an error for an invalid path, and an error for a path that is a directory of HEAD, with or without a slash at its end |
| Effects.WriteThenRead | src/QoreGitRepository.cpp:784-802 | after a write the path reads as the content written and every other path as before |
| Effects.DeleteThenRead | src/QoreGitRepository.cpp:874-886 | after a deletion the path reads as HEAD has it, if it does, and every other path as before |
| VirtualRepository.Repository.WalkTree | src/QoreGitRepository.cpp:982-1010 | the walk finds each file of the tree that the working map does not have, once |
| VirtualRepository.Repository.ListFiles | src/QoreGitRepository.cpp:955-1020 | the list has no duplicates and contains exactly the paths that read as content, the working map's first in key order |
| VirtualRepository.Repository.Commit | src/QoreGitRepository.cpp:1024-1129 | it does exactly what the specification says, on failure too: which trees are stored, the commit, the reference moved, HEAD made symbolic for the first commit |
| Operations.CommitCreateKeeps | src/QoreGitRepository.cpp:1095-1114 | creating a commit succeeds if and only if the reference's tip is its first parent or, for a new reference, its name can be taken; otherwise no reference moves |
| OperationLaws.CommitLaw | src/QoreGitRepository.cpp:1024-1129 | when a commit succeeds, exactly; HEAD becomes a commit on the old HEAD with the pruned working map; it is in step with the working map if and only if the map is prefix-free; a failure moves no reference and stores only trees and, when the branch main is refused, the commit |
| Effects.CommitStores | src/QoreGitRepository.cpp:1024-1129 | a commit adds exactly the trees of its files and itself to the store |
| Effects.CommitFails | src/QoreGitRepository.cpp:1384-1427 | a commit with a name that cannot be stored fails and leaves exactly the trees written before that name |
| Witnesses.RefusedFirstCommit | src/QoreGitRepository.cpp:1024-1129 | reached from a new repository by migration, fetch and creating the branch `main/x`: every first commit fails |
| Witnesses.CoveredFile | src/QoreGitRepository.cpp:1024-1129 | writing `a` and `a/b` and committing succeeds without `a` in the commit, out of step |
| VirtualRepository.Repository.CreateBranch | src/QoreGitRepository.cpp:1466-1511 | a new branch at the given commit or HEAD; an existing one is never changed |
| OperationLaws.CreateBranchKeeps | src/QoreGitRepository.cpp:1466-1511 | HEAD moves if and only if the branch is the one an unborn HEAD waits for |
| Effects.BranchStarts | src/QoreGitRepository.cpp:1466-1511 | a branch is created if and only if its name is free and the text, or HEAD, refers to a commit; it is put there and nothing else changes |
| Effects.BranchThenCheckout | src/QoreGitRepository.cpp:1466-1597 | checking out a new branch that nothing shadows gives the files of the commit it was started from |
| VirtualRepository.Repository.DeleteBranch | src/QoreGitRepository.cpp:1513-1531 | the branch goes, or it is refused because it is missing or HEAD is on it |
| OperationLaws.DeleteBranchLaw | src/QoreGitRepository.cpp:1513-1531 | only that branch goes; HEAD stays where it is |
| Effects.BranchThenDelete | src/QoreGitRepository.cpp:1466-1531 | creating a branch and deleting it again changes nothing |
| VirtualRepository.Repository.CreateTag | src/QoreGitRepository.cpp:1697-1756 | a new tag, annotated when a message is given; existing ones and all other references stay |
| OperationLaws.CreateTagKeeps | src/QoreGitRepository.cpp:1697-1756 | a tag never moves HEAD or a branch |
| Effects.TagStarts | src/QoreGitRepository.cpp:1697-1756 | when a tag is created, and the object it is put at, with and without a message |
| VirtualRepository.Repository.Checkout | src/QoreGitRepository.cpp:1533-1597 | the working map becomes the files of the commit, HEAD the branch of that name or the commit itself |
| OperationLaws.CheckoutLaw | src/QoreGitRepository.cpp:1533-1597 | it succeeds if and only if the text peels to a commit; HEAD and the working map are then in step if and only if a branch of that name has the same tree at its tip |
| OperationLaws.CheckoutBranch | src/QoreGitRepository.cpp:1533-1597 | with nothing shadowing a branch, checkout succeeds, leaves HEAD on it, in step, and no other reference moved |
| Effects.CheckoutEffect | src/QoreGitRepository.cpp:1541-1594 | a text that refers to a commit, through any number of tags, checks out its files, with HEAD on the branch of that name or detached at it |
| Effects.RefersTo | src/QoreGitRepository.cpp:1541 | what a text refers to: a full id, then the references in their fixed order, then an abbreviated id |
| Effects.PeelsIff | src/QoreGitRepository.cpp:1548 | peeling finds exactly the commit a chain of tags leads to |
| Effects.WhereHeadIs | src/QoreGitRepository.cpp:1061-1094 | the current branch, the reference a commit moves and the commit HEAD is at, told from the references |
| Witnesses.ShadowingTag | src/QoreGitRepository.cpp:1541-1594 | from a new repository: a tag at one commit, a branch of its name at another; checking it out succeeds on the branch with the files of the tag |
| VirtualRepository.Repository.PopulateFromIndex | src/QoreGitRepository.cpp:2863-2877 | the working map becomes the stage 0 entries of the index |
| VirtualRepository.Repository.CreateMergeCommit | src/QoreGitRepository.cpp:2879-2951 | the index is written, committed on top of both heads and made the working map, or nothing but the store changes |
| OperationLaws.CreateMergeCommitKeeps | src/QoreGitRepository.cpp:2879-2951 | it succeeds if and only if no conflict is left and HEAD is still `ours` or, unborn, can be born; the commit has both parents |
| VirtualRepository.Repository.ApplyResolvedContent | src/QoreGitRepository.cpp:2834-2861 | the content is stored and at stage 0 of its path, with no conflict entry left for it |
| VirtualRepository.Repository.ResolveWithSide | src/QoreGitRepository.cpp:3272-3301 | the loop settles every conflict with the chosen side and lists every conflicted path |
| MergeResolution.SettleMeaning | src/QoreGitRepository.cpp:3272-3301 | settling conflicts one by one ends exactly these conflicts and overlays the chosen contents on the entries |
| MergeResolution.TakeSideMeaning | src/QoreGitRepository.cpp:3272-3301 | no conflict is left; the entries are the old ones with the chosen side's blobs over them, and nothing for paths that side deleted, if and only if no path collides with another as file and directory |
| MergeResolution.OverlayExact | src/QoreGitRepository.cpp:2834-2861 | the entries are exactly the old ones with the new ones over them if and only if no path collides with another as file and directory |
| MergeOutcomes.OursFiles | src/QoreGitRepository.cpp:3272-3301 | a merge with strategy `ours` commits a blob at a path if and only if it is our blob of the conflict there and no other of ours lies below it, or a merged entry none of ours collides with |
| MergeOutcomes.TheirsFiles | src/QoreGitRepository.cpp:3272-3301 | the same with their blobs for strategy `theirs` |
| MergeResolution.CollectAnswers | src/QoreGitRepository.cpp:3396-3452 | the resolver loop: contents by path and the conflicts it declined, in order |
| MergeResolution.AnswersPartition | src/QoreGitRepository.cpp:3396-3452 | over distinct conflict paths, the resolved paths and the unresolved conflicts partition the conflicts |
| MergeResolution.ResolutionContent | src/QoreGitRepository.cpp:3424-3445 | what is kept for an answered conflict is the content of its answer |
| MergeResolution.AnswersOfIndex | src/QoreGitRepository.cpp:3238-3269 | the same for the conflicts of an index: each is either resolved or still open |
| MergeResolution.ApplyAnswersMeaning | src/QoreGitRepository.cpp:3454-3476 | exactly the resolved paths lose their conflict; the entries are the old ones with the callback's contents over them if and only if no path collides with another as file and directory |
| VirtualRepository.Repository.ApplyResolutions | src/QoreGitRepository.cpp:3461-3467 | the loop over the resolutions applies all of them, in path order, and lists their paths |
| VirtualRepository.Repository.BeginMerge | src/QoreGitRepository.cpp:3042-3382 | the locked first phase does what its specification says, branch by branch |
| VirtualRepository.Repository.FastForwardTo | src/QoreGitRepository.cpp:3114-3162 | the working map and the reference behind HEAD become theirs |
| VirtualRepository.Repository.MergeWithIndex | src/QoreGitRepository.cpp:3177-3382 | clean, settled by side, only detected, or waiting for the resolver |
| Effects.AncestorIff | src/QoreGitRepository.cpp:3092-3114 | ancestry, by which a merge is up to date or a fast-forward, is a chain of parents between the commits |
| OperationLaws.FastForwardLaw | src/QoreGitRepository.cpp:3114-3162 | HEAD becomes their commit, in step, and the tip only advances |
| OperationLaws.MergeIndexedLaw | src/QoreGitRepository.cpp:3177-3354 | a merge commits if and only if committing was not disabled and there were no conflicts or a side was chosen; the commit has both heads as parents and exactly the merged entries, with the chosen side's blobs over them, as files |
| OperationLaws.BeginMergeLaw | src/QoreGitRepository.cpp:3042-3354 | up to date, fast-forward or merge by ancestry, and what the commit of a merge contains; a first phase that commits leaves HEAD in step, one that does not leaves references and working map alone |
| MergeOutcomes.BeginFails | src/QoreGitRepository.cpp:2983-3100 | when a first phase fails and with which code; it then changes nothing |
| MergeOutcomes.BeginAncestry | src/QoreGitRepository.cpp:3102-3175 | every flag and list of the result when it is up to date, and then nothing changes, or a fast-forward, and then exactly HEAD's branch and the files |
| MergeOutcomes.CleanOutcome | src/QoreGitRepository.cpp:3192-3223 | without conflicts: every flag and list of the result; the commit has both parents, the message and exactly the merged entries |
| MergeOutcomes.SideOutcome | src/QoreGitRepository.cpp:3272-3326 | settled by side: every flag of the result, and exactly the conflicted paths as resolved |
| MergeOutcomes.OpenOutcome | src/QoreGitRepository.cpp:3328-3382 | only detected: every flag, and all conflicts with their stages in path order; with a resolver: what it is asked; no reference and no file moves |
| VirtualRepository.Repository.FinishMerge | src/QoreGitRepository.cpp:3454-3486 | the locked last phase applies the answers and commits if nothing is open, on whatever state it finds |
| OperationLaws.FinishMergeLaw | src/QoreGitRepository.cpp:3454-3486 | it commits if and only if nothing is open, committing was not disabled and HEAD is still at `ours` or, unborn, can be born; the files of the commit are the merged entries with the answered contents over them; it fails if and only if only the last condition is missing; then no reference and no file changes; the result lists the settled paths and the declined conflicts |
| MergeOutcomes.FinishOutcome | src/QoreGitRepository.cpp:3396-3486 | a path is listed as resolved if and only if an answer gave content for the conflict there; the conflict list holds exactly the declined conflicts; both in path order, together all conflicts; every flag |
| MergeOutcomes.AnsweredContents | src/QoreGitRepository.cpp:3454-3476 | a last phase commits a blob at a path if and only if the answer to the conflict there is this content and no conflict lies below it, or it is a merged entry no conflict collides with |
| MergeOutcomes.FinishLeaves | src/QoreGitRepository.cpp:3461-3476 | the commit of a last phase has both parents and the message, is where HEAD was, and its files are checked out; without one nothing moves |
| MergeOutcomes.ResolvedMerge | src/QoreGitRepository.cpp:2955-3486 | a whole merge whose resolver settles everything commits if and only if HEAD is where it was when the resolver returns |
| MergeOutcomes.UnansweredMerge | src/QoreGitRepository.cpp:3396-3452 | a resolver that fails leaves what others have made of the repository |
| VirtualRepository.Repository.Merge | src/QoreGitRepository.cpp:2955-3487 | the whole call, for any state others leave behind while the resolver runs |
| Runs.MergeLasts | src/QoreGitRepository.cpp:2955-3487 | the whole call keeps the repository valid, its objects and a born HEAD, and each of its locked phases leaves every branch at a descendant of its tip |
| Runs.StepKeeps | src/QoreGitRepository.cpp:1024-1129 | write, delete, commit, branch, tag, checkout, fetch and both phases of a merge keep the repository valid and only advance branch tips |
| Effects.StepShows | src/QoreGitRepository.cpp:784-3486 | what is seen of each step of a run: the content written, the commit made, the reference made or gone, the files checked out, the merge that waits or has ended |
| Runs.StepStaysBorn | src/QoreGitRepository.cpp:1513-1597 | no operation, the deletion of a branch included, makes a born HEAD unborn |
| Runs.RunValid | src/QoreGitRepository.cpp:3383-3456 | at every moment of every interleaving the repository is valid and each waiting merge can still end |
| Runs.RunTipsAdvance | src/QoreGitRepository.cpp:2911-2931 | between any two moments of any interleaved run, the tip of a branch that was not deleted in between only moved to a descendant of itself |
| Runs.RunLasts | src/QoreGitRepository.cpp:3383-3456 | between any two moments of any run, objects stay and HEAD stays born |
| Runs.MergeAcrossRun | src/QoreGitRepository.cpp:3383-3476 | a merge whose resolver ran during a run commits the answered files on the tip of that moment, which is the one it started from, or moves nothing |
| Runs.MemoryRunBorn | src/QoreGitRepository.cpp:286-345 | in every run from a new repository without a remote, HEAD is born or nothing has been committed and there is no branch |
| VirtualRepository.Repository.Pull | src/QoreGitRepository.cpp:3489-3544 | a fetch, and a merge of the tracking reference of the current branch or of FETCH_HEAD, whatever others do whenever its lock is released |
| PullOutcomes.PullFails | src/QoreGitRepository.cpp:3489-3543 | when a pull fails before it merges, with which code, and which state it merges in otherwise |
| PullOutcomes.PullForwards | src/QoreGitRepository.cpp:3504-3543 | by itself, on a branch: when the fetched commit of that remote's branch, origin's by default, or FETCH_HEAD, is above HEAD, the pull makes it HEAD, in step; when it is below, nothing moves |
| PullOutcomes.PullCommits | src/QoreGitRepository.cpp:3504-3543 | when it has parted from HEAD and merges cleanly, the pull commits exactly the merged entries on top of both |
| VirtualRepository.Repository.CopyObjects | src/QoreGitRepository.cpp:422-453 | all objects are copied, or it stops at the first that cannot be read or written or at a cancellation that is noticed; every step adds to the directory |
| VirtualRepository.Repository.CopyRefs | src/QoreGitRepository.cpp:455-481 | the listed references the destination accepts are created, in order; only a noticed cancellation stops it; every direct one names a copied object at each step |
| VirtualRepository.Repository.MigrateToDisk | src/QoreGitRepository.cpp:354-523 | it succeeds exactly when no step fails that is not ignored; on failure the repository and the file system are as before; on success the new directory is the repository |
| Migration.CopiedExact | src/QoreGitRepository.cpp:455-498 | without other faults exactly the references whose name no other name is a directory of arrive, and only a missing HEAD is replaced by the initial one |
| Migration.KeepsAllRefsIff | src/QoreGitRepository.cpp:455-498 | every reference is kept if and only if no name is a directory of another, and which are lost |
| Migration.SucceedsIff | src/QoreGitRepository.cpp:354-470 | the success condition spelled out, with the hundredth objects and references at which a cancellation is looked for |
| Migration.ArrivesIff | src/QoreGitRepository.cpp:455-498 | whatever lookups and creations fail: a reference arrives if and only if its own work and nothing that arrives is a directory of it, and which HEAD there is |
| Migration.MigrationRefines | src/QoreGitRepository.cpp:354-523 | objects and files are the same, the references that survive exactly; HEAD and all reads are the same if and only if the reference HEAD stands for survives |
| Migration.MemoryMigration | src/QoreGitRepository.cpp:354-523 | at every moment of every in-memory run, when no name is a directory of another and nothing else fails, migration keeps all references, HEAD, objects and reads |
| Witnesses.LostBranch | src/QoreGitRepository.cpp:458-479 | branches `a` and `a/b` are both created in memory, and a migration that succeeds loses the second |
| MemoryOdb.MemoryOdb.Read | src/QoreGitMemoryODB.cpp:38-59 | the object of an id, if it is stored |
| MemoryOdb.MemoryOdb.ReadPrefix | src/QoreGitMemoryODB.cpp:61-97 | found, ambiguous or not found according to whether one, several or no ids start with the prefix, early exit included |
| MemoryOdb.MemoryOdb.ExistsPrefix | src/QoreGitMemoryODB.cpp:134-157 | the same answer without reading |
| MemoryOdb.MemoryOdb.Write | src/QoreGitMemoryODB.cpp:114-126 | the id is bound to the content, everything else stays |
| MemoryOdb.MemoryOdb.Foreach | src/QoreGitMemoryODB.cpp:159-171 | ids in order up to the first that the callback refuses |
| MemoryOdb.LookupsAgree | src/QoreGitMemoryODB.cpp:61-157 | reading and completing a prefix always agree |
| MemoryOdb.LookupExact | src/QoreGitMemoryODB.cpp:61-157 | found if and only if exactly one id starts with the prefix, ambiguous if and only if two do |
| MemoryOdb.LongerPrefix | src/QoreGitMemoryODB.cpp:61-157 | lengthening a unique prefix along its id finds the same object |
| MemoryOdb.FullLengthIsExact | src/QoreGitMemoryODB.cpp:38-97 | at full length a prefix lookup is an exact read |
| MemoryOdb.WritesKeepReads | src/QoreGitMemoryODB.cpp:114-126 | over any writes of objects under their ids, no two of these and the stored ones sharing an id, every id reads as before, every written object reads back and nothing else appears |
| MemoryOdb.WritesKeepPrefixes | src/QoreGitMemoryODB.cpp:61-126 | such writes can make a prefix ambiguous but never make it mean another object |
| MemoryOdb.TwoObjects | src/QoreGitMemoryODB.cpp:114-126 | such writes exist: two objects, with an id function that takes them apart, written into an empty store |
| MemoryRefDb.MemoryRefDb.Write | src/QoreGitMemoryRefDB.cpp:156-180 | the reference is set, or refused when it exists and force is not given |
| MemoryRefDb.MemoryRefDb.Rename | src/QoreGitMemoryRefDB.cpp:182-208 | the entry moves to the new name; refused when the old name is missing or the new one exists |
| MemoryRefDb.MemoryRefDb.Delete | src/QoreGitMemoryRefDB.cpp:210-221 | only the named reference goes |
| MemoryRefDb.MemoryRefDb.Iterate | src/QoreGitMemoryRefDB.cpp:135-154 | a new iterator has the references of that moment before it and changes nothing |
| MemoryRefDb.RefIterator.Next | src/QoreGitMemoryRefDB.cpp:82-109 | yields the first entry that remains and passes the glob, and nothing once none does |
| MemoryRefDb.RefIterator.NextName | src/QoreGitMemoryRefDB.cpp:111-128 | the same by name, on the same position |
| MemoryRefDb.SnapshotExact | src/QoreGitMemoryRefDB.cpp:135-154 | what an iterator has to yield is exactly the matching references of the moment it was opened, each once, in name order |
| MemoryRefDb.RunCalls | src/QoreGitMemoryRefDB.cpp:82-221 | any mix of both next calls with writes, renames and deletions yields the entries of the snapshot, names or references as asked, and then stays finished |
| MemoryRefDb.YieldedInOrder | src/QoreGitMemoryRefDB.cpp:82-128 | the i-th entry yielded is the i-th of the snapshot, whichever of the two calls yields it |
| MemoryRefDb.RenameBack | src/QoreGitMemoryRefDB.cpp:182-208 | renaming to a free name and back changes nothing |
| ConfigManager.GitConfigManager.constructor | qlib/GitConfigManager/GitConfigManager.qc:56-59 | it starts with the repository's HEAD |
| ConfigManager.GitConfigManager.Sync | qlib/GitConfigManager/GitConfigManager.qc:122-143 | pull on a branch, fetch otherwise, then compare and remember HEAD |
| ManagerCalls.SyncLaw | qlib/GitConfigManager/GitConfigManager.qc:122-143 | a sync that returns remembers HEAD and reports a change if and only if HEAD is not the one remembered; on a branch it is a pull and hands on its answer; without one it is a fetch, and neither HEAD nor a branch moves |
| PullOutcomes.SyncForwards | qlib/GitConfigManager/GitConfigManager.qc:122-143 | by itself, on a branch: a sync brings HEAD to the fetched commit above it, in step, and reports the change and the merge; with nothing new it reports none |
| ConfigManager.GitConfigManager.Publish | qlib/GitConfigManager/GitConfigManager.qc:149-163 | commit, remember, push; a failed push of the usual kind is ignored |
| ManagerCalls.PublishLaw | qlib/GitConfigManager/GitConfigManager.qc:149-163 | once the commit is made, the remembered HEAD is the commit and is the repository's HEAD, whatever the push does; a failed push of the usual kind is not told, any other is |
| ConfigManager.GitConfigManager.SwitchEnvironment | qlib/GitConfigManager/GitConfigManager.qc:170-173 | a checkout, and HEAD remembered when it succeeds |
| ConfigManager.GitConfigManager.RestoreTag | qlib/GitConfigManager/GitConfigManager.qc:248-251 | the same for a tag |
| ConfigManager.GitConfigManager.CreateEnvironment | qlib/GitConfigManager/GitConfigManager.qc:179-181 | a new branch; the remembered HEAD is not looked at |
| ConfigManager.GitConfigManager.SavePending | qlib/GitConfigManager/GitConfigManager.qc:271-279 | the non-empty contents of the working map, by path |
| ConfigManager.GitConfigManager.ProposeChanges | qlib/GitConfigManager/GitConfigManager.qc:265-315 | branch, checkout, rewrite, commit, checkout of the base, push: the state and the result, also where a step fails |
| ConfigManager.GitConfigManager.ApplyProposal | qlib/GitConfigManager/GitConfigManager.qc:320-327 | a merge, and HEAD remembered when it returns |
| ManagerCalls.ProposeExact | qlib/GitConfigManager/GitConfigManager.qc:265-302 | whatever the two names read as, on a branch or detached: it succeeds if and only if the branch can be made, both names read as commits and there are files, all storable; the commit has the old HEAD as only parent and the files of the commit the new name reads as with the saved ones over them; HEAD is back at its old tip with the files of the commit the base name reads as, in step if and only if these are its own; a detached HEAD ends on the proposal |
| ManagerCalls.ProposedContent | qlib/GitConfigManager/GitConfigManager.qc:271-296 | a proposal commits a blob at a path if and only if it is pending there and not empty, or the new branch's name reads as having it and nothing non-empty is pending, and the path is no directory |
| ManagerCalls.HiddenByTag | qlib/GitConfigManager/GitConfigManager.qc:281-302 | with a tag of the proposal's name, the commit holds the tag's files with the saved ones over them, and the name still reads as the tag |
| ManagerCalls.AppliesIff | qlib/GitConfigManager/GitConfigManager.qc:320-327 | a merge fast-forwards to a commit made on top of HEAD if and only if the text given reads as that commit |
| ManagerCalls.ProposalAppliesIff | qlib/GitConfigManager/GitConfigManager.qc:265-327 | after any proposal made on a branch HEAD is where it was, and applying fast-forwards to the proposal if and only if the text given reads as it |
| ManagerCalls.ProposeOnBranch | qlib/GitConfigManager/GitConfigManager.qc:265-302 | with plain branch names it succeeds if and only if the branch can be made and the saved files stored, and then leaves the base branch and its files as they were, with one commit on the new branch |
| ManagerCalls.ProposeThenApply | qlib/GitConfigManager/GitConfigManager.qc:265-327 | proposing then applying: the proposal commit has the base tip as only parent and the base tree overlaid with the non-empty pending contents; in between the base is untouched; applying is a fast-forward to it |
| Witnesses.AppliedProposal | qlib/GitConfigManager/GitConfigManager.qc:265-327 | such a proposal and its application with default options exist, from a new repository |
| Witnesses.ForwardDespiteNoCommit | src/QoreGitRepository.cpp:3114-3175 | merging that proposal with `no_commit` given moves HEAD to it |
| Witnesses.HiddenProposal | qlib/GitConfigManager/GitConfigManager.qc:265-327 | from a new repository: a proposal under the name of a tag commits a file that HEAD no longer has, and applying it is up to date and moves nothing |
| ManagerCalls.CallInStep | qlib/GitConfigManager/GitConfigManager.qc:56-327 | each call that returns leaves the remembered HEAD in step, except, exactly, the one that gives birth to HEAD; then it is unseen until a call looks |
| Witnesses.UnnoticedBirth | qlib/GitConfigManager/GitConfigManager.qc:179-181 | such a call is reached: a new repository gets a remote, fetches, and the environment main is created from the fetched branch |
| ManagerCalls.RunInStep | qlib/GitConfigManager/GitConfigManager.qc:56-327 | in every run of calls that return, the remembered HEAD is the repository's HEAD at exactly the moments since which HEAD was not born unnoticed |
| ManagerCalls.SyncReportsMoves | qlib/GitConfigManager/GitConfigManager.qc:122-143 | in every run a sync reports a change if and only if HEAD moved during that sync or had been born unnoticed before it |
| ManagerCalls.FailedCalls | qlib/GitConfigManager/GitConfigManager.qc:170-327 | a switch or merge that fails leaves the remembered HEAD alone |
| PullOutcomes.CallShows | qlib/GitConfigManager/GitConfigManager.qc:56-327 | what is seen of each call that returns: the content written, the branch or tag made, the files switched to, the commit made |
| ConfigWatcher.GitConfigWatcher.constructor | qlib/GitConfigManager/GitConfigWatcher.qc:70-77 | the watcher starts with the repository's HEAD and no events |
| ConfigWatcher.GitConfigWatcher.PollOnce | qlib/GitConfigManager/GitConfigWatcher.qc:85-132 | one poll: events and remembered HEAD for every outcome of the pull, whatever others do before HEAD is read |
| ConfigWatcher.PollTells | qlib/GitConfigManager/GitConfigWatcher.qc:85-132 | exactly what observers are told of a poll: both heads, the diff when there is one between two commits, the merge, and then its conflicts |
| ConfigWatcher.RunGapFree | qlib/GitConfigManager/GitConfigWatcher.qc:70-124 | over any run of polls the change events form a gap-free chain from the HEAD at construction to the remembered HEAD, each one a real change |
| ConfigWatcher.RemembersLastSeen | qlib/GitConfigManager/GitConfigWatcher.qc:85-116 | the remembered HEAD is the one seen by the last poll whose pull succeeded |
| ConfigWatcher.ConflictEventIff | qlib/GitConfigManager/GitConfigWatcher.qc:99-131 | a conflict event is sent if and only if the pull left conflicts and HEAD has moved |
| ConfigWatcher.ConflictsUnreported | qlib/GitConfigManager/GitConfigWatcher.qc:99-131 | a pull that leaves conflicts, with nobody else moving HEAD, tells the observers nothing |
| Witnesses.UnreportedConflict | qlib/GitConfigManager/GitConfigWatcher.qc:85-131 | two commits that both add `f`: the poll pulls, the merge detects the conflict, no event is sent |
| History.Log | src/QoreGitRepository.cpp:1996-2112 | of the walked commits that are not filtered out, the first so many, without those that cannot be looked up |
| History.LogIsFirstTouching | src/QoreGitRepository.cpp:1996-2112 | when all can be looked up, the log is the first so many of the commits that touch the path |
| History.LogExactIff | src/QoreGitRepository.cpp:1996-2112 | for any commits, the log is the first so many of the unfiltered ones that can be looked up if and only if none that cannot takes a place one behind the limit could have had |
| History.LogOfHead | src/QoreGitRepository.cpp:1996-2112 | for a walk over commits HEAD descends from, in a valid repository, the log is exactly the first so many that touch the path |
| History.LogMeaning | src/QoreGitRepository.cpp:1996-2112 | below HEAD of a valid repository the log of a path is exactly, in order, the walked commits without a parent or with a file, at the path or below it, that is not the same in the first parent's tree; with a limit the first so many |
| History.UserHistory | qlib/GitConfigManager/GitConfigManager.qc:345-357 | the entries of one author, in order, up to the limit |
| History.HistoryPlaces | qlib/GitConfigManager/GitConfigManager.qc:345-357 | without a limit, for which 0 stands, too, it is exactly the entries with that address, in order |
| History.HistoryIsPrefix | qlib/GitConfigManager/GitConfigManager.qc:345-357 | with a positive limit the history is the prefix of that length of the one without |
| History.NegativeLimit | qlib/GitConfigManager/GitConfigManager.qc:345-357 | with a negative limit it is the first entry |
| RemoteAddress.ParseRemoteHostPort | src/QoreGitRepository.cpp:123-198 | the parser finds what its specification says for every text, or nothing |
| RemoteAddress.UrlRoundTrip | src/QoreGitRepository.cpp:135-198 | parsing a printed URL gives back its host, plain or bracketed, and its port, up to 65535, or the scheme's default |
| RemoteAddress.ScpRoundTrip | src/QoreGitRepository.cpp:150-163 | parsing a printed scp-like address with a user, or without an `@` in its path, gives the host up to its first colon, so the host itself if and only if it has none |
| RemoteAddress.ScpBracketed | src/QoreGitRepository.cpp:150-163 | a bracketed literal is cut inside its brackets |
| Witnesses.CutLiteral | src/QoreGitRepository.cpp:150-163 | the host of `[::1]:path` and the like comes out as `[` |
| RemoteAddress.ScpHostFromPath | src/QoreGitRepository.cpp:150-163 | otherwise the host is right if and only if what follows the first `@` begins like it |
| Witnesses.WrongHost | src/QoreGitRepository.cpp:150-163 | the host of `host:a@b` comes out as `b` |
| RemoteAddress.AtoiUndoesDecimal | src/QoreGitRepository.cpp:180-190 | reading a printed number gives it back |
| RemoteAddress.AtoiStops | src/QoreGitRepository.cpp:181-190 | a sign is taken, and reading stops at the first character that is no digit |
| RemoteAddress.AuthorityReads | src/QoreGitRepository.cpp:135-198 | what stands between the slashes of a URL, behind the user, is read as host and port with the scheme's default |
| RemoteAddress.OddHosts | src/QoreGitRepository.cpp:175-197 | several colons without brackets are part of the host; an unclosed bracket or no host gives no answer |
| RemoteAddress.OddPorts | src/QoreGitRepository.cpp:185-195 | text that is no number, zero and negative numbers stand for the default port behind a plain host |
| RemoteAddress.BracketedPorts | src/QoreGitRepository.cpp:175-183 | behind a bracketed host the port is taken as it is read, even when it is negative |
| RemoteAddress.LocalHasNone | src/QoreGitRepository.cpp:126-133 | local paths and file URLs have no host |
| AotNotes.AlignIsLeast | debian/preserve-aot-metadata.py:26-27 | aligning gives the least multiple that is not below the value |
| AotNotes.ReadNotes | debian/preserve-aot-metadata.py:66-80 | the note loop returns the records of the segment; the position grows by at least a note header |
| AotNotes.LoopUndoesEncoder | debian/preserve-aot-metadata.py:66-80 | for every list of notes laid out at 4 or 8 bytes the loop returns exactly the descriptions with the wanted owner and type, in order, even when the last padding is cut |
| AotNotes.ReadTable | debian/preserve-aot-metadata.py:52-83 | the loop over the program headers, every read in bounds: the one record, none, or an error for a cut-off segment or a second record |
| AotNotes.ReadModuleInfo | debian/preserve-aot-metadata.py:30-83 | for every byte string the parser ends with a record, empty bytes or a ValueError, and every fixed-size read is in bounds for both classes |
| ElfImages.ParsesLaid | debian/preserve-aot-metadata.py:30-83 | for every image of either class whose headers and notes are laid out field by field as the gABI has them, with the extended count where there are many program headers, the parser returns the one record that is sought, empty bytes for none, and an error for several |
| ElfImages.NoHeader | debian/preserve-aot-metadata.py:36-41 | anything but a little-endian ELF file of one of the classes has no record; a cut-off header is an error |
| ElfImages.CutTable | debian/preserve-aot-metadata.py:42-54 | no program headers, no record; entries too small, a table that is cut off and a first section header that is needed and cut off are errors |
| ElfImages.CutSegment | debian/preserve-aot-metadata.py:64-65 | a note segment that is cut off is an error, whatever the others hold |
| AotNotes.TailIgnored | debian/preserve-aot-metadata.py:70-76 | what is cut off behind the last note of a segment is ignored |
| AotNotes.Preserve | debian/preserve-aot-metadata.py:86-117 | no error if and only if the command succeeded and every module that had a record is still a regular file with the same one; a module that cannot be parsed at the start stops everything |

## Left out

- Disk mode: working directory writes, the index on disk, stash, sandbox checks.
- Network transport: fetch, push, cloning, DNS and connection checks. A fetch or push is the change of references and objects it leaves behind.
- libgit2 internals: three-way content merge, diff, blame, rename detection, SHA-1, revision suffixes such as `~1`, reference name rules. The merge index is an input, with resolved entries that do not collide as file and directory.
- Signatures, timestamps, messages and encodings: a commit carries one opaque text for them.
- File modes other than plain blob and tree, and submodules.
- Entry names: besides the spellings of `.git` and `git~1` that libgit2 refuses by default, those it refuses only where HFS protection is on, and the repository's own short names on Windows.
- `deleteTag`, `fileExists`, the diff calls and the getters: they would only add easy members. `status`, which in virtual mode is the list of the working map's paths, is used in `SavePending`.
- Cooperative cancellation, except in migration and, as fewer answers than conflicts, in a merge callback. The paths of checkout and fast-forward that fail half-way are not modelled.
- ManagerCalls.Returns: a manager call is one step of a run; other threads between the repository calls it makes are not modelled.
- Failures of libgit2 on a repository that satisfies its invariant, such as an object that cannot be read back.
- Migrating while a merge waits for its resolver: runs do not contain migrations.
- Copying the configuration during migration: nothing is proved about configuration values.
- `old_id` and `old_target` of the reference backend, which the code ignores, and the reflog stubs.
- Directory entries while a tree is built are values; the code walks pointers into nested maps.
- The order in which libgit2 walks commits, and the error of `log` without a HEAD: the walked commits are an input.
- Overflow in `atoi`, and of the commit counter in `log`.
- Path filters with wildcards in `log`: a path selects itself and the files below it.
- Which files match `*.qmod` below the root directory: they are an input of `Preserve`.
- REST, registration, metadata providers, translation catalogues and packaging.
