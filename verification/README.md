# Verification of the nipa core

This project models the algorithms at the heart of nipa, a version-control
server, and proves what they promise. One module stands for one component:

- text: `EditScript` (the greedy O(ND) line diff), `ChangeLists`, `MergeText`,
  `MergeAlgebra`, `Clusters`, `DisjointMerge`, `Conflicts`, `TextLines` and `MergeFiles`
  (the three-way text merge), `Hunks`;
- content-addressed trees: `TreeHash`, `Trees`, `StoredTrees`, `Prefix`, `PathFilter`,
  `Manifest`, `EntryMaps`, `TreeWalk`, `TreeDiff`, `ChunkCollection`, and
  `PushPaths`, `PushTree`, `PushPlaces`, `TreeBuilder`, `Push`, `PushRows`, `StoredRows`
  for pushes;
- history: `CommitGraph`, `CommitWalk`, `CommitOrder`, `MergeBase`, `ThreeWay`,
  `Landing`, `Rebase`;
- state machines: `FileLocks`, `PermissionCache`;
- chunking and alignment: `Chunker`, `ContentCuts`, `LongestRun`, `TableAlign`,
  `TableRows`, `TableDiffs`, `LineMatches`, `Rename`;
- `Order` (byte-wise string order and sorting) and `Basics`.

`dafny verify dfyconfig.toml` checks the whole project.

How the system is rendered:

- A tree is a value with stored hashes; what it means is the relation `Holds`
  between relative paths and files. Fast forms (skipping by hash, rebuilding only
  touched directories, pruning by permission, memoised collection) are proved to
  agree with that relation.
- The digest is a parameter. Nothing is assumed about it except, where two trees
  are compared by hash, that it does not collide on the streams those trees
  consist of; an injective 32-byte digest does not exist.
- Bytes of names, messages and hashes are characters; permission masks are sets of bits.
- Randomly ordered map iteration is nondeterministic choice; sorts of distinct
  keys are insertion sorts, whose result is the same.
- Readers deliver bytes in portions of their own choosing; loaded contents, saved
  texts, expired entries and repository rows are parameters.

Where the code does not do what one would expect, the project says so and gives
the exact condition:

- the commit walk marks commits when pushing them, so a merge whose second parent
  is behind its first is listed parent first (`CommitOrder.OrderIffNoShortcut`);
- pruning by directory is sound only for single-bit permissions
  (`PathFilter.PruningSoundIffSingleBit`);
- a fast-forward is decided by the merge base that is met first, so in histories with
  merges it can be refused although the target is an ancestor (`MergeBase.AncestorRefused`,
  `MergeBase.TieRefused`); `MergeBase.FastForwardTo` says exactly when it happens;
- a request lock can overlap another user's lock strictly below its path
  (`FileLocks.RequestLockExact`);
- the hash-skipping comparison leaves out mode changes (`TreeDiff.FastDiffRefines`);
- a pushed or removed path such as "/a/b" passes validation and is then dropped without
  a word, while "/a" is filed as "a" and can override it (`PushPlaces.LandsIff`,
  `PushPlaces.RemovesIff`);
- rows of a table are compared by joined cells, so a separator inside a cell can make
  different rows equal (`TableDiffs.SeparatorsConfuse`).

## Model

| member | source | states |
|---|---|---|
| EditScript.LinesWith | internal/diff/lines.go:22-107 | For every a, b and line relation the search ends within |a|+|b| rounds without leaving the array, and the result is the canonical script, a valid script from a to b with the fewest non-kept operations |
| EditScript.Search | internal/diff/lines.go:43-70 | The rounds stop at the first round that reaches the end point; every saved row holds the furthest points of its round |
| EditScript.Round | internal/diff/lines.go:48-65 | One pass over the diagonals turns the row of round d-1 into the row of round d, and reports a hit exactly when round d reaches the end |
| EditScript.Diagonal | internal/diff/lines.go:49-59 | The cell computed for a diagonal is the furthest point reachable with that many removals and additions |
| EditScript.Backtrack | internal/diff/lines.go:72-102 | Walking the saved rows back yields the canonical script, last operation first |
| EditScript.BackOneRound | internal/diff/lines.go:74-97 | One round back emits the kept lines and the one edit that led to the furthest point |
| EditScript.Predecessor | internal/diff/lines.go:75-84 | The predecessor diagonal read from the saved row is the one the forward search came from |
| EditScript.Reverse | internal/diff/lines.go:103-105 | The swap loop reverses the list of operations |
| EditScript.Grid.FarCovers | internal/diff/lines.go:43-70 | No script of any shape gets further on a diagonal than the furthest point of its edit counts |
| EditScript.Grid.Clamped | internal/diff/lines.go:43-70 | A point that stepped off the grid is covered by a point inside it with fewer edits, so stepping off never displaces the optimal path |
| EditScript.Grid.FirstHitIsTheEnd | internal/diff/lines.go:43-70 | The first point at or beyond the end that the search meets is the end point itself |
| EditScript.Grid.AlwaysSolved | internal/diff/lines.go:43-70 | The end is reached by round |a|+|b| for every input |
| EditScript.Grid.DiffIsMinimal | internal/diff/lines.go:22-107 | The canonical script is valid, and every valid script for the same input costs at least as much |
| EditScript.Grid.DiffLeads | internal/diff/lines.go:43-105 | In every run of edits the removed lines come before the added ones |
| EditScript.Grid.OldSide | internal/diff/lines.go:4-22 | Kept and removed lines of any valid script spell a, in order |
| EditScript.Grid.NewSide | internal/diff/lines.go:4-22 | Kept and added lines of any valid script spell b, in order, kept lines up to the line relation |
| ChangeLists.ChangeRanges | internal/merge/diff.go:213-241 | The ranges read off the script are the change list of the diff |
| ChangeLists.ReadRun | internal/merge/diff.go:225-233 | A run of edits is read up to the next kept line with its removal and addition counts |
| ChangeLists.RangesAligned | internal/merge/diff.go:213-241 | Outside its ranges a side equals the base line by line, at the positions the ranges give |
| ChangeLists.ScriptOf | internal/merge/diff.go:213-241 | Every aligned change list is a script of the same cost, so the ranges of a minimal diff are a least change list |
| ChangeLists.ChangeListIsChanges | internal/merge/diff.go:213-241 | The change list of a diff is aligned, separated, tight and of one side |
| ChangeLists.TouchedMeansChanged | internal/merge/diff.go:213-241 | A stretch a side's change list touches really differs from the base text |
| MergeText.MergeLines | internal/merge/diff.go:44-132 | The output is the diff3 rule applied region by region to consecutive regions of base, ours and theirs, and the flag says whether some region conflicts |
| MergeText.MergeRegions | internal/merge/diff.go:44-132 | The regions of a merge are consecutive and cover base, ours and theirs from start to end |
| MergeText.RegionsTile | internal/merge/diff.go:75-131 | The clusters and the gaps between them follow one another without hole or overlap on all three sides |
| MergeText.RegionsCover | internal/merge/diff.go:75-131 | Put back together, the regions are the three inputs: no line is lost or used twice |
| MergeText.ClusterStep | internal/merge/diff.go:79-126 | A gap reads the same on all sides; in a cluster a side differs from the base exactly when the cluster holds one of its changes |
| MergeText.NextCluster | internal/merge/diff.go:85-96 | A cluster takes every range that meets it by base overlap and no other |
| MergeText.SortInterleaves | internal/merge/diff.go:58-73 | Sorting both change lists by base position interleaves them and keeps each list's order |
| Clusters.MeetIff | internal/merge/diff.go:140-151 | Two ranges intersect exactly when they replace a base line in common, one inserts in the middle of the other, or both insert at one point |
| Clusters.TogetherIffLinked | internal/merge/diff.go:75-97 | Two changes are put in one cluster exactly when a chain of such meetings links them |
| Clusters.TouchingApart | internal/merge/diff.go:140-151 | Changes that only touch, such as adjacent replacements, do not meet |
| Conflicts.ConflictsMeet | internal/merge/diff.go:98-122 | A region conflicts only where a change of ours meets a change of theirs inside it |
| Conflicts.MarkedReadsBack | internal/merge/diff.go:182-209 | For sides without marker lines, ours and theirs of a conflict are read back from between its markers, each up to one final newline, and every marker starts a line |
| Conflicts.ConflictShown | internal/merge/diff.go:44-132 | The output of a merge holds, for every conflicting region, a block from which both sides of the region are read back |
| MergeText.SideView | internal/merge/diff.go:157-180 | A side's view of the cluster span is exactly that side's lines for the span |
| MergeText.MergeCluster | internal/merge/diff.go:98-122 | One cluster yields theirs, ours, the common text or one marked conflict, by the diff3 rule |
| MergeText.EmptyBase | internal/merge/diff.go:45-56 | With an empty base the whole of both sides is one region |
| MergeAlgebra.OursUnchanged | internal/merge/diff.go:44-132 | Merging with ours equal to base gives theirs, clean |
| MergeAlgebra.TheirsUnchanged | internal/merge/diff.go:44-132 | Merging with theirs equal to base gives ours, clean |
| MergeAlgebra.SameChange | internal/merge/diff.go:44-132 | The same change on both sides is taken once, clean |
| MergeAlgebra.RegionsFlip | internal/merge/diff.go:58-131 | Exchanging the sides exchanges the regions, although the sort puts ours before theirs |
| MergeAlgebra.SidesInterchangeable | internal/merge/diff.go:44-132 | Exchanging the sides keeps the conflict flag and a clean text |
| DisjointMerge.DisjointRegions | internal/merge/diff.go:75-131 | Where no range of ours meets one of theirs, every cluster is one range, and the regions merge to the base with both sides' replacements |
| DisjointMerge.DisjointChanges | internal/merge/diff.go:16-20 | Where no change of ours meets one of theirs in the base, adjacent replacements included, there is no conflict and the result is the base with the replacements of both change lists |
| TextLines.JoinSplitAfter | internal/merge/diff.go:30-35 | Splitting after newlines and joining gives the text back |
| TextLines.JoinSplitLines | internal/merge/diff.go:30-35 | The same without the empty last piece |
| TextLines.LinesAreLines | internal/diff/patch.go:201-210 | Every line but the last ends in its only newline |
| MergeFiles.MergeContents | internal/merge/diff.go:21-28 | Whole contents are split, merged and joined |
| MergeFiles.MergeIdentities | internal/merge/diff.go:21-28 | MergeText(b,b,t)=(t,clean), MergeText(b,o,b)=(o,clean), MergeText(b,x,x)=(x,clean) on whole contents |
| MergeFiles.MergeSymmetric | internal/merge/diff.go:21-28 | Swapping ours and theirs changes neither the conflict flag nor a clean result |
| MergeFiles.MergeDisjoint | internal/merge/diff.go:16-28 | On whole contents, changes in different parts of the base give the spliced text without conflict |
| Hunks.HunkRanges | internal/diff/patch.go:169-191 | The ranges hold exactly the operations within the context of a change, in order, separated by an unchanged line |
| Hunks.Cut | internal/diff/hunks.go:113-159 | The hunks are the shown stretches of the script with line numbers and counts of both sides |
| Hunks.MakeLine | internal/diff/hunks.go:144-155 | A hunk line carries a number on exactly the sides it is on, and is marked when a changed line lacks its newline |
| Hunks.CutOne | internal/diff/hunks.go:133-157 | Start and count of a hunk follow the POSIX rule for empty ranges: a side without lines starts one line earlier |
| Hunks.Prefixes | internal/diff/hunks.go:120-130 | The prefix arrays count the lines of each side before every operation |
| Hunks.HunkReads | internal/diff/hunks.go:133-157 | A hunk's lines read as the old and the new text of its stretch, as long as its counts say |
| Hunks.HunksApplyBack | internal/diff/hunks.go:113-159 | Under exact equality, splicing the hunks into old gives new, with every old stretch and line number checked on the way |
| Hunks.HunkLineAt | internal/diff/hunks.go:94-109 | The search finds a line that carries the number on that side whenever there is one, and reports none otherwise |
| Hunks.AnswerIsTheLine | internal/diff/hunks.go:94-109 | For any line relation, a hunk line found for number n of a side is line n of that file, up to the relation on the new side |
| Hunks.ShownLineAnswers | internal/diff/hunks.go:94-109 | Every line of a file that lies in a hunk is found under its number |
| Hunks.AnsweredIffNear | internal/diff/hunks.go:94-159 | The hunks answer for line n of a side exactly when that line lies within the context of a change |
| Hunks.FindLine | internal/diff/hunks.go:94-159 | Cutting two versions into hunks and looking up line n finds it exactly when it lies within the context of a change, and what is found is that line of that file |
| CommitWalk.WalkCommitsRange | internal/usecase/commit.go:46-98 | A listing is given if and only if every commit in range is stored and what the walk comes across fits the node limit; before the cut it holds each commit reachable from start around stop exactly once; children come before parents in an acyclic graph without shortcuts; the cut keeps the first ones |
| CommitWalk.PushParents | internal/usecase/commit.go:79-90 | Unseen parents are pushed last parent first and marked at once; the node limit is kept |
| CommitWalk.Newest | internal/usecase/commit.go:93-97 | The last listed commits come out newest first, at most the limit |
| CommitWalk.ExpandKeepsOrder | internal/usecase/commit.go:73-90 | Every frame on the stack keeps saying what is still to be listed above it |
| CommitWalk.EmitHasParents | internal/usecase/commit.go:66-69 | When a commit is listed its parents in the range already are, if no second parent is behind the first |
| CommitWalk.ShortcutBreaksOrder | internal/usecase/commit.go:46-98 | A concrete history of three commits that is listed parent first |
| CommitOrder.AfterGood | internal/usecase/commit.go:46-98 | The invariants of the walk hold in every state of every walk |
| CommitOrder.FindEnd | internal/usecase/commit.go:63-91 | Every walk over stored commits comes to an end |
| CommitOrder.ShortcutDisorders | internal/usecase/commit.go:46-98 | A walk from any merge whose second parent is behind its first lists a commit after its parent |
| CommitOrder.OrderIffNoShortcut | internal/usecase/commit.go:46-98 | All walks of a graph list children first if and only if no commit in range has its second parent behind its first |
| MergeBase.FindMergeBase | internal/usecase/merge.go:253-305 | The result is the commit the rounds meet first, in scan order; it is an ancestor-or-self of both commits and no other common ancestor has a smaller larger distance; none is reported only when there is none, and in single-parent histories it is the nearest on both sides |
| MergeBase.Advance | internal/usecase/merge.go:267-302 | One round looks at every parent of the queue, stops at the first the other side has seen, and otherwise adds exactly the new ones |
| MergeBase.AdvanceOne | internal/usecase/merge.go:273-282 | The parents of one commit are looked at in order up to the first the other side has seen; otherwise exactly the new ones are queued, in order |
| MergeBase.HitIsNearest | internal/usecase/merge.go:253-305 | Where commits have one parent the first meeting point is nearer than every other common ancestor |
| MergeBase.BallIsWithin | internal/usecase/merge.go:266-303 | After k rounds a side has seen exactly the commits within k steps |
| MergeBase.FastForwardTo | internal/usecase/merge.go:162-168 | A fast-forward happens if and only if nothing within m steps of the target is nearer to the source, m being the distance from the source to the target, and among commits as near the target is scanned first; without such ties the distances alone decide, and in acyclic single-parent histories ancestry does |
| MergeBase.TieRefused | internal/usecase/merge.go:162-168 | A concrete history in which another common ancestor is as far by the larger distance and nearer to the source: refused whatever the order of parents |
| MergeBase.AncestorRefused | internal/usecase/merge.go:162-168 | A concrete history in which the target is an ancestor of the source and another common ancestor is met first, so the fast-forward is refused |
| Prefix.Covers | internal/domain/prefix.go:77-87 | A set covers a path when it is empty or one prefix does |
| Prefix.CanDescend | internal/domain/prefix.go:89-99 | A set lets a directory be entered when it is empty or one prefix does |
| Prefix.CoversClean | internal/domain/prefix.go:28-40 | On a path without outer slashes a prefix covers itself and what is inside it |
| Prefix.CoversComparable | internal/domain/prefix.go:28-40 | Two prefixes that cover one path cover one another |
| Prefix.CoversDescends | internal/domain/prefix.go:42-54 | A prefix that covers a path lets every directory above the path be entered |
| Prefix.SetCoversDescends | internal/domain/prefix.go:89-99 | The same for a set of prefixes |
| FileLocks.LockTable.Grant | internal/usecase/file_lock.go:126-163 | A lock is added exactly when no lock of another user in the scope overlaps the path and no lock of the caller covers it; the table is otherwise unchanged |
| FileLocks.LockTable.ReleaseLanded | internal/usecase/file_lock.go:250-278 | Exactly the caller's unlinked locks on landed paths go |
| FileLocks.LockTable.Drop | internal/usecase/file_lock.go:337-343 | Releasing for a request or a branch removes exactly the rows it names |
| FileLocks.KeepMeans | internal/usecase/file_lock.go:337-343 | A release by row leaves every other path and scope, one by request every lock not linked to it, one by branch every other scope |
| FileLocks.LockTable.EnsureMergeRequestLocks | internal/usecase/file_lock.go:293-336 | Only locks of the holder linked to the request are added, on paths that no lock covered; it succeeds exactly when the first lock covering each path is linked to the request or held by the holder or the author; the table stays exclusive when nobody else holds a lock strictly below one of the paths |
| FileLocks.DecideMeans | internal/usecase/file_lock.go:126-163 | The decision is free, own or taken according to which locks overlap and who holds them |
| FileLocks.EnsureLocks | internal/usecase/file_lock.go:221-248 | The gate passes exactly when every required path is covered by the caller's lock and no checked path by another's |
| FileLocks.CoveringIsRepresentative | internal/usecase/file_lock.go:411-418 | In an exclusive table the first covering lock has the holder of every covering lock |
| FileLocks.OneUserPasses | internal/usecase/file_lock.go:221-248 | Two users never both pass the gate for a required path in one lock state |
| FileLocks.AddExclusive | internal/usecase/file_lock.go:126-163 | Adding a lock keeps exclusion if and only if every overlapping lock of the scope has the same holder |
| FileLocks.RequestLockExact | internal/usecase/file_lock.go:293-328 | Adding a request lock keeps exclusion if and only if no other user holds a lock strictly below its path |
| FileLocks.StepKeepsInv | internal/usecase/file_lock.go:126-343 | Every step of acquire, release, landed release, request and branch deletion keeps overlapping locks of a scope with one holder |
| FileLocks.RunsAreExclusive | internal/usecase/file_lock.go:126-343 | Exclusion in every state of every run |
| FileLocks.GrantIsSteps | internal/usecase/file_lock.go:126-163 | What the granting method does to the table is a run of the machine: its reading step followed by its writing step |
| FileLocks.ReleaseIsStep | internal/usecase/file_lock.go:250-343 | What every releasing method does to the table is one removing step of the machine |
| FileLocks.RequestIsSteps | internal/usecase/file_lock.go:293-328 | What ensuring the locks of a request does to the table is a run of the machine, path by path |
| FileLocks.RequestCanOverlap | internal/usecase/file_lock.go:293-328 | Without that side condition a run from the empty table ends with overlapping locks of two users, for any two paths one below the other |
| PermissionCache.Cache.Lookup | internal/usecase/permission.go:426-440 | A hit needs an entry of the current version; otherwise the version to fetch under is returned and registered |
| PermissionCache.Cache.Store | internal/usecase/permission.go:465-474 | A fetched set is kept only if the version is unchanged |
| PermissionCache.Cache.InvalidateAll | internal/usecase/permission.go:477-484 | Every version is raised and the entries are dropped |
| PermissionCache.StepKeepsInv | internal/usecase/permission.go:426-484 | Every interleaved step of loads, rule changes and invalidations keeps every cached entry at the current version and fetched after the last invalidation |
| PermissionCache.RunsKeepInv | internal/usecase/permission.go:426-484 | The same in every state of every run |
| PermissionCache.HitsAreFresh | internal/usecase/permission.go:426-484 | A hit after a change and its invalidation serves what the database holds, never rules read before |
| PathFilter.UnionOfRules | internal/usecase/permission.go:511-515 | The mask is the union of the rules that cover the path |
| PathFilter.DeepestDefault | internal/usecase/permission.go:517-525 | The first of the longest covering defaults is chosen, or none when none covers |
| PathFilter.Effective | internal/usecase/permission.go:506-530 | The mask is the union of covering rules and the deepest default, or everything for an owner |
| PathFilter.EffectiveUnique | internal/usecase/permission.go:506-530 | A path has one effective mask |
| PathFilter.RuleMaskBit | internal/usecase/permission.go:511-515 | A bit of the union comes from a covering rule that has it, and conversely |
| PathFilter.Allow | internal/usecase/permission.go:218-227 | A path is allowed exactly when its effective mask has every bit asked for |
| PathFilter.Enter | internal/usecase/permission.go:229-250 | A directory is entered exactly when a rule or default with the permission can reach below it |
| PathFilter.SingleBitPrunes | internal/usecase/permission.go:218-250 | For a single-bit permission no allowed path lies below a directory that is not entered |
| PathFilter.OtherMasksLosePaths | internal/usecase/permission.go:218-250 | For an empty or several-bit mask a rule set allows a file below a directory that is not entered |
| PathFilter.PruningSoundIffSingleBit | internal/usecase/permission.go:218-250 | Pruning is sound for all rule sets if and only if exactly one bit is asked for |
| Manifest.LoadFiles | internal/usecase/branch.go:649-659 | The kept files are exactly the visible ones |
| Manifest.IgnoreFileAtRoot | internal/usecase/branch.go:696-702 | The kept ignore file is the one at the root path and no other |
| Manifest.VisibleEnters | internal/usecase/branch.go:669-673 | No directory above a visible file is pruned |
| Manifest.LoadTreeManifest | internal/usecase/branch.go:644-683 | The recursive manifest holds exactly the files that are allowed and covered or the root ignore file, and no directory without files; the flat one only the files of the directory itself |
| Manifest.LoadChild | internal/usecase/branch.go:669-681 | What is loaded for a child directory is its filtered tree, or nothing where the walk prunes it or nothing below is visible |
| Manifest.FindTreeNode | internal/usecase/branch.go:629-642 | Walking the segments of a trimmed path down the tree ends at the directory of that path, or nowhere |
| Manifest.FoundHolds | internal/usecase/branch.go:629-642 | The directory found holds exactly the files that the tree holds below the path |
| Manifest.VerifySparsePaths | internal/usecase/branch.go:611-627 | The first sparse path without a visible directory is reported, and none when all have one |
| Manifest.NoEmptyDirsMeans | internal/usecase/branch.go:677-679 | Every directory that is kept leads to a file |
| Manifest.RehashTree | internal/usecase/branch.go:760-771 | Rehashing keeps every file and makes every stored hash the digest of what it covers |
| Manifest.GetManifest | internal/usecase/branch.go:586-609 | The reply is the cut-down, rehashed tree, or not-modified when the client names its hash, or names the stored hash where nothing is cut; a sparse path is refused exactly when it names no directory that may be seen |
| Manifest.AllVisible | internal/usecase/branch.go:595-597 | Where nothing is cut, the stored tree holds exactly the visible files, so naming its hash may be answered without a walk |
| Manifest.NotModifiedMeansSame | internal/usecase/branch.go:586-609 | A client answered not-modified holds exactly the visible files with the same content |
| TreeHash.Hasher.WriteChildren | internal/treehash/treehash.go:89-117 | The children are appended as kind, length, name and hash, in a name-ordered permutation of the input |
| TreeHash.HashTree | internal/treehash/treehash.go:46-54 | The hash is the digest of the files, listed by name, followed by the directories, listed by name |
| TreeHash.SortedSorts | internal/treehash/treehash.go:89-92 | Sorting puts the children in name order and keeps each as often as it was |
| Order.LessIff | internal/treehash/treehash.go:92 | Names are ordered by the first character that differs, and a prefix comes first |
| TreeHash.TreeStreamOrder | internal/treehash/treehash.go:46-54 | With distinct names the stream, and so the hash, does not depend on the order of files and directories |
| TreeHash.HashCommit | internal/treehash/treehash.go:56-71 | The commit hash is the digest of tree hash, number of parents, parent hashes and message |
| TreeHash.SerialLayout | internal/treehash/treehash.go:89-117 | A child is written as its kind, four bytes that spell the length of its name most significant first, its name and its hash |
| TreeHash.CommitLayout | internal/treehash/treehash.go:56-71 | A commit is written as its tree, the number of its parents, each parent at its place, the length of its message and the message |
| TreeHash.StreamInjective | internal/treehash/treehash.go:89-117 | The byte stream determines kinds, names and hashes |
| TreeHash.TreeStreamInjective | internal/treehash/treehash.go:46-54 | The stream of a directory determines its files and its directories by name and hash |
| TreeHash.ConcatInjective | internal/treehash/treehash.go:16-26 | The stream of a file determines its chunk list |
| TreeHash.CommitStreamInjective | internal/treehash/treehash.go:56-71 | The stream of a commit determines tree, parents in order and message |
| TreeHash.LongNamesCollide | internal/treehash/treehash.go:89-117 | A name of 2^32 bytes collides with two shorter children, so the length bound is needed |
| Trees.HashDecides | internal/treehash/treehash.go:46-117 | Equal stored hashes mean the same files with the same chunks at the same paths, all the way down |
| StoredTrees.ContentsDecide | internal/treehash/treehash.go:46-54 | Two well-hashed trees with the same names and contents in every directory have the same stored hash, whatever the order of their listings |
| StoredTrees.HashIffContents | internal/treehash/treehash.go:46-54 | Where the digest does not collide on the two trees, equal hashes and equal contents are the same thing |
| StoredTrees.RelistedHolds | db/queries/sqlite/tree.sql:73-102 | A tree listed in another order holds the same files |
| StoredTrees.RelistedHashed | db/queries/sqlite/tree.sql:73-102 | A tree listed in another order is still well hashed |
| Trees.HoldsUnique | internal/diff/model.go:83-102 | A path leads to at most one file of a tree |
| Trees.JoinTreePathIsJoin | internal/usecase/branch.go:685-694 | For names without slashes the walks' path joining is plain joining |
| EntryMaps.Compare | internal/diff/model.go:61-80 | The result lists exactly the added, deleted and modified paths with both entries, in strict path order |
| TreeWalk.CollectDirectory | internal/usecase/tree_walk.go:68-93 | The map gains exactly the allowed files of the directory, and the children come back by name |
| TreeWalk.AddFileEntries | internal/diff/model.go:104-127 | The map gains one entry per file under its path, whether or not the directory is written with a slash in front |
| TreeWalk.WalkChangedTrees | internal/usecase/tree_walk.go:27-64 | Each map gains exactly the allowed files of its side outside directories that carry one hash on both sides |
| TreeWalk.WalkChild | internal/usecase/tree_walk.go:55-61 | A child is walked on both sides when the filter enters it, and otherwise shows nothing |
| TreeWalk.SkippedAlike | internal/usecase/tree_walk.go:27-33 | A skipped path has the same content on both sides |
| TreeDiff.FlattenTree | internal/diff/model.go:89-100 | The map gains every file of the tree under its path |
| TreeDiff.FromTree | internal/diff/model.go:83-87 | The map lists the tree's files, one entry each |
| TreeDiff.FullEntries | internal/usecase/branch.go:644-683 | Cutting a tree down to the allowed files and flattening it lists exactly its allowed files |
| TreeDiff.ChangedPaths | internal/usecase/tree_walk.go:18-25 | The fast comparison lists, by path, exactly the changes of the full comparison that lie outside directories of equal hash |
| TreeDiff.FastDiffRefines | internal/usecase/tree_walk.go:18-64 | Every change of the fast comparison is in the full one, and every change left out is of the mode alone and in a skipped directory |
| TreeDiff.SkippedChangesModeOnly | internal/usecase/tree_walk.go:27-33 | In a skipped directory the full comparison can only find mode changes |
| TreeDiff.ModeChangeLeftOut | internal/treehash/treehash.go:28-54 | A mode change leaves the stored hash as it is, so such a change is left out |
| ChunkCollection.CollectVisibleChunks | internal/usecase/tree_walk.go:105-145 | With or without a memo hit exactly the chunks of visible files are added, and every recorded visit is complete or still open further up |
| ChunkCollection.CollectChild | internal/usecase/tree_walk.go:135-143 | A child that is not entered has no visible chunk, and otherwise exactly its visible chunks are added |
| ChunkCollection.SameHashSameChunks | internal/usecase/tree_walk.go:97-112 | Directories of one hash at one path show the same chunks |
| ChunkCollection.VisibleChunks | internal/usecase/branch.go:716-758 | With one memo over all commits the result is exactly the union of the visible files' chunks, sorted and without repeats |
| PushPaths.AddAncestors | internal/usecase/push.go:635-644 | Exactly the directory and everything above it is recorded |
| PushPaths.DirectoriesOf | internal/usecase/push.go:635-658 | For every path, with or without slash in front, the recorded directories are the root and what is above the path |
| PushPaths.ImmediateSubdirs | internal/usecase/push.go:816-837 | The names are exactly the recorded directories right below, in order |
| PushPaths.PlaceIsPath | internal/usecase/push.go:786-800 | Without a slash in front, directory and base name determine the path |
| PushTree.FilePushed | internal/usecase/push.go:692-704 | The last pushed file of every name is filed |
| PushTree.FileOld | internal/usecase/push.go:705-726 | Old files stay unless removed or overridden |
| PushTree.NodeHolds | internal/usecase/push.go:677-759 | A rebuilt directory with its kept and rebuilt children holds the overlay |
| PushTree.UntouchedBelow | internal/usecase/push.go:748-757 | Below a directory that is not recorded the overlay changes nothing |
| TreeBuilder.Builder.BuildFiles | internal/usecase/push.go:692-730 | A rebuilt directory has exactly the pushed files and the old files that stay, in name order |
| TreeBuilder.Builder.KeepDirs | internal/usecase/push.go:748-757 | Exactly the base's directories that are not recorded are kept, with their hash and new ids |
| TreeBuilder.Builder.Build | internal/usecase/push.go:677-759 | The built node, with kept directories expanded, holds the overlay below its path; its ids are the next ones, each once |
| TreeBuilder.Finalize | internal/usecase/push.go:770-784 | Every hash is written from the children's hashes, kept directories first |
| TreeBuilder.Finalized | internal/usecase/push.go:770-784 | Over a well-hashed base the finalized tree is well hashed |
| Push.IndexFiles | internal/usecase/push.go:645-649 | Files are indexed by directory in order, and their directories recorded |
| Push.IndexRemoved | internal/usecase/push.go:650-658 | Removed names are indexed by directory, and their directories recorded |
| Push.BuildNewTree | internal/usecase/push.go:620-666 | The expanded new tree is the base overridden by the pushed files minus the removed ones, well formed and well hashed, with ids from 1 up, each once |
| Push.PlainOverlay | internal/usecase/push.go:620-666 | For paths without a slash in front this is the map overlay: the pushed file, or the old one that is neither pushed nor removed |
| Push.StoredByHash | internal/usecase/push.go:620-666 | Any well-hashed tree stored under the root's hash has the overlay's content |
| PushPlaces.NamedOverlay | internal/usecase/push.go:620-666 | For every request of validated paths, slashes in front or not: a place holds the last file filed there, else the old file unless a removal is filed there |
| PushPlaces.LandsIff | internal/usecase/push.go:534-597 | In every request a file lands, whatever it contains, if and only if its path is not a directory path with a slash in front and no later file is filed as the same path |
| PushPlaces.TwoSpellings | internal/usecase/push.go:534-560 | Validation accepts `a` and `/a` in one request, and the first of the two files does not land |
| PushPlaces.EmptiedIff | internal/usecase/push.go:563-597 | After a push nothing is at a place, whatever was there, if and only if a removal and no file is filed there |
| PushPlaces.RemovesIff | internal/usecase/push.go:563-597 | A removal empties its path, among the files of its request, if and only if the path is not a directory path with a slash in front and no file is filed as the same path |
| PushPlaces.PlaceOf | internal/usecase/push.go:786-800 | A path is filed where q is exactly when it is q, or q with a slash in front and no directory |
| PushPlaces.LostHasNoEffect | internal/usecase/push.go:620-666 | Leaving every directory path with a slash in front out of the files and removals of a request changes nothing at all |
| Push.TreeByPaths | internal/usecase/push.go:620-666 | The tree of a push holds, path by path, the last file filed there or the old file that is not removed, for slashed paths as well |
| PushTree.ValidIsGood | internal/usecase/push.go:583-597 | A validated path has no empty segment once one slash in front is taken off |
| PushTree.ValidIff | internal/usecase/push.go:583-597 | A path is accepted exactly when, without one slash in front, it has no backslash and no segment that is empty, one dot or two dots |
| PushTree.BuiltCorrect | internal/usecase/push.go:677-759 | Every node put together the way the builder does, with the files of its own directory and one child per recorded or kept directory, holds the overlay all the way down |
| Push.BuildsPushes | internal/usecase/push.go:620-666 | Every tree the builder can return for an intact base and an acceptable request is the overlay, well formed and well hashed |
| Push.BuiltIsStep | internal/usecase/push.go:620-666 | Every tree the builder returns is a step of a run, whether read back as it was listed or in another order |
| Push.StepPushes | internal/usecase/push.go:620-666 | A push stores the built tree in any listing order; from an intact tree the stored one is intact and is the overlay |
| Push.RunIntact | internal/usecase/push.go:620-666 | By induction over any sequence of pushes: if the first tree is intact, so is every later one, although each is only known to be built from the one before and read back in any order |
| Push.RunLastTouch | internal/usecase/push.go:620-666 | Over any stretch of a run that starts from an intact tree a place that is not touched keeps its file |
| Push.RunAtTouch | internal/usecase/push.go:620-666 | After any run from an intact tree a place holds what the last push that touched it put there: the last file pushed for it, or nothing |
| PushRows.ListRows | internal/usecase/push.go:477-516 | The rows are those of the tree with kept directories, each once, with every node after its parent |
| PushRows.BuildApplyRequest | internal/usecase/push.go:466-518 | The request carries the commit fields, the digest of the commit stream over the root hash, and the rows of the tree, each once and after its parent |
| PushRows.CommitHashDecides | internal/usecase/push.go:466-518 | Where the digest does not collide, equal commit hashes mean equal tree hash, parents and message |
| PushRows.RowsHaveUniqueIds | internal/usecase/push.go:466-518 | No id is written twice |
| StoredRows.RowsReadBack | internal/usecase/push.go:477-516 | Read from the one row without a parent, directories by their parent's id and files by their directory's, the rows lead to a file at a path exactly when the built tree has it there, and to exactly its built and kept directories with their ids, hashes and modes |
| ThreeWay.PlanPath | internal/merge/merge.go:117-173 | At one path the plan keeps, takes, deletes, merges or refuses as the three-way rule wants |
| ThreeWay.MergeFollowsRule | internal/merge/merge.go:117-173 | What the case table wants is the rule at every path: a side that agrees with base in hash and mode yields to the other, sides that agree stay, and a path changed differently on both sides is merged exactly when all three are there, neither side is binary and the texts merge without conflict |
| ThreeWay.ClashKind | internal/merge/merge.go:132-160 | The kind of a conflict says which of the three sides have the file |
| ThreeWay.PlanMerge | internal/merge/merge.go:100-176 | The plan is right at every path |
| ThreeWay.ConflictsMean | internal/merge/merge.go:100-193 | The plan has no conflict exactly when no path clashes |
| ThreeWay.Materialize | internal/usecase/merge_strategies.go:244-283 | The file set is what the plan makes of every path; a conflicting text refuses the merge |
| ThreeWay.MergeOnto | internal/usecase/merge_strategies.go:218-238 | A merge is refused exactly when some path was changed differently on both sides and its files or texts clash, naming exactly the paths whose files clash, or else one whose texts do; otherwise every path follows the rule, the saved text of the merge where both changed it; if one side equals base, or the sides are equal, the result is the other side |
| ThreeWay.MergeIsLawful | internal/usecase/merge_strategies.go:218-283 | Every outcome that follows the rule at every path obeys the three laws of a merge |
| ThreeWay.MaterializeEntry | internal/usecase/merge_strategies.go:250-278 | One planned entry is taken, merged or refused, and no other path changes |
| ThreeWay.OursKeptBase | internal/usecase/merge_strategies.go:218-283 | If ours equals base the merge is clean and gives theirs, up to hash and mode |
| ThreeWay.TheirsKeptBase | internal/usecase/merge_strategies.go:218-283 | If theirs equals base the merge is clean and gives ours, up to hash and mode |
| ThreeWay.SidesAgree | internal/usecase/merge_strategies.go:218-283 | If both sides are equal the merge is clean and gives them, up to hash and mode |
| Landing.MergeTree | internal/usecase/merge_strategies.go:326-340 | A commit's unfiltered tree as a file set lists every file once |
| Landing.MergeDelta | internal/usecase/merge_strategies.go:409-433 | The delta pushes exactly the files that differ in hash or mode and removes exactly the paths that are gone |
| Landing.DeltaReadsBack | internal/usecase/merge_strategies.go:409-433 | The tree built from the delta on the target reads back as the merged set, up to hash and mode |
| Landing.PushRoundTrip | internal/usecase/merge_strategies.go:409-433 | A file that is listed and pushed again at its path is the same file |
| Landing.BuildMerged | internal/usecase/merge_strategies.go:131-132 | The tree built on the target for a file set is well hashed and reads back as the set |
| Landing.LandMerge | internal/usecase/merge_strategies.go:118-149 | The tree of a merge commit is well hashed and reads back as a file set that follows the three-way rule at every path; it is refused exactly when some path clashes, naming the paths as the merge does |
| Rebase.ReachableFrom | internal/usecase/merge_strategies.go:380-405 | The set is exactly the ancestors of start, itself included |
| Rebase.RebaseCommits | internal/usecase/merge_strategies.go:346-376 | The commits are the first-parent chain from just after what the base contains to head, oldest first; over stored acyclic histories it is found whenever it has at most the limit, too many is reported only where it is longer, a cycle only where there is one |
| Rebase.ReplayCommit | internal/usecase/merge_strategies.go:161-185 | One commit's change is merged into the current set and its tree reads back; if the set equals the commit's parent the result equals the commit |
| Rebase.ReplayAll | internal/usecase/merge_strategies.go:150-199 | Replaying a chain onto a target equal to the tree it started from never conflicts and reproduces the source head's tree |
| Rebase.LandRebase | internal/usecase/merge_strategies.go:150-199 | The chain found for head and base is replayed commit by commit; on a target equal to the tree of the commit it stops at, the rebase never conflicts and ends with the tree of head |
| Chunker.Sanitized | internal/chunker/chunker.go:29-50 | Missing sizes are completed and unusable ones refused |
| Chunker.CompletedMeans | internal/chunker/chunker.go:29-38 | Given sizes are kept, a missing average means the defaults, and a missing bound is a quarter of the average or four times it |
| Chunker.Cut | internal/chunker/chunker.go:179-213 | The cut is at the end of a short buffer, else at the first boundary past the minimum, at the latest at the maximum |
| Chunker.CutUnique | internal/chunker/chunker.go:179-213 | There is one such cut |
| ContentCuts.FingerprintIsSum | internal/chunker/chunker.go:198-211 | The fingerprint is the sum of the bytes' gear words, each doubled once for every byte that follows, modulo 2^64 |
| ContentCuts.BoundaryIsLocal | internal/chunker/chunker.go:195-211 | Whether a position is a boundary depends on as many bytes before it as avg has bits: the weighted sum of their gear words is divisible by avg, or by half of it past avg |
| ContentCuts.SameTailSameCut | internal/chunker/chunker.go:195-211 | With the same bytes before two positions on the same side of avg, both are boundaries or neither is |
| ContentCuts.ChunksByContent | internal/chunker/chunker.go:179-213 | Every chunk ends at the first position past the minimum that is such a boundary, at the latest at the maximum |
| Chunker.Splitter.Fill | internal/chunker/chunker.go:158-177 | Reading fills the buffer or exhausts the reader and loses no byte |
| Chunker.Splitter.Next | internal/chunker/chunker.go:140-156 | The next chunk is the first chunk of the pending bytes for every way the reader portions them; the end reports how the reader ended |
| Chunker.Scan | internal/chunker/chunker.go:98-115 | The chunks of a reader depend on its bytes alone |
| Chunker.ChunksAreLossless | internal/chunker/chunker.go:140-213 | The chunks joined are the input |
| Chunker.ChunkSizes | internal/chunker/chunker.go:140-213 | All chunks but the last are longer than the minimum, and none is empty or longer than the maximum |
| Chunker.AppendKeepsChunks | internal/chunker/chunker.go:140-213 | Appending bytes changes no chunk but the last |
| LongestRun.Search | internal/preview/table.go:198 | The first tail whose value is not below the new one |
| LongestRun.Tails | internal/preview/table.go:193-210 | Each tail ends a rising sequence of its length with the least value possible |
| LongestRun.LongestIncreasing | internal/preview/table.go:193-220 | The result is a strictly increasing subsequence, and none is longer |
| TableAlign.MatchKeys | internal/preview/table.go:145-157 | Every new key is matched with the old position of the same key, if any |
| TableAlign.StableMatches | internal/preview/table.go:158-161 | The stable matches ascend on both sides and no common subsequence is longer |
| TableAlign.Emit | internal/preview/table.go:168-190 | Every position is emitted once, with unmatched old ones before the next stable match |
| TableAlign.AlignUnique | internal/preview/table.go:144-191 | On unique keys each old and each new position appears exactly once, new ones in order; equal keys and only they are matched; the matches that did not move form a longest common subsequence |
| TableAlign.AlignedIffEqual | internal/preview/table.go:144-191 | In an alignment two positions are shown as one if and only if their keys are equal |
| TableRows.NumberedInjective | internal/preview/table.go:344-352 | Key and occurrence number can be read back from a numbered key |
| TableRows.Occurrences | internal/preview/table.go:344-352 | Numbering the occurrences makes any keys unique |
| TableRows.Similar | internal/preview/table.go:354-365 | Rows are similar with at most two shared columns or at least half of them equal |
| TableRows.SimilarMeans | internal/preview/table.go:354-365 | Similarity counts the shared columns in which the rows agree |
| TableRows.FindSimilar | internal/preview/table.go:389-394 | The first similar removed row within the window is found |
| TableRows.PairGroup | internal/preview/table.go:386-408 | Joining similar rows of a group keeps every position exactly once |
| TableRows.PairChanged | internal/preview/table.go:369-412 | The cover is preserved, matched rows stay, and newly joined rows are similar |
| TableRows.UniqueNonEmpty | internal/preview/table.go:222-231 | Keys are usable when non-empty and unique |
| TableRows.AlignRows | internal/preview/table.go:321-337 | Rows are matched by key exactly when a shared column is usable on both sides; either way the rows cover both tables and are an alignment of the keys, whose unmoved rows are a longest common subsequence |
| TableRows.EqualKeysPaired | internal/preview/table.go:326-334 | Matched by key, two rows are shown as one if and only if their keys are equal |
| TableRows.EqualContentPaired | internal/preview/table.go:331-337 | Matched by content, rows of equal content and occurrence are shown as one |
| TableRows.TableDiff.Append | internal/preview/table.go:414-455 | The row shows new values, or old ones where only those exist, lists exactly the changed columns, and is counted once |
| TableRows.AlignByContent | internal/preview/table.go:331-337 | The numbered contents are aligned, every match of that alignment is kept, and only similar rows are joined besides |
| TableRows.RowReadsBack | internal/preview/table.go:414-455 | Both the old and the new value of every cell can be read back from the row shown |
| TableRows.DiffRows | internal/preview/table.go:338-341 | Every pair is described by its row; removed, changed and same rows add up to the old table, added, changed and same rows to the new one |
| TableDiffs.AlignHeaders | internal/preview/table.go:258-271 | Each column of usable headers appears once, equal names and only they are shown as one column, and a match is reported exactly when a name is in both |
| TableDiffs.AlignColumns | internal/preview/table.go:255-288 | Every old and new column appears once; two are shown as one exactly when their names are equal, where both headers are usable, as wide as their tables and share a name, and otherwise exactly when their positions are |
| TableDiffs.ColumnTotals | internal/preview/table.go:297-307 | Shared and removed columns are all the old columns, shared and added ones all the new columns |
| TableDiffs.Project | internal/preview/table.go:308-318 | The key of a row is made of its own cells in the chosen columns, in order |
| TableDiffs.KeyIsCells | internal/preview/table.go:308-318 | Where no cell contains the unit separator, two keys are equal if and only if all their cells are |
| TableDiffs.SeparatorsConfuse | internal/preview/table.go:315 | A separator inside a cell makes rows with different cells equal by key |
| TableDiffs.MatchRows | internal/preview/table.go:321-337 | Where the first shared column is usable on both sides, rows are shown as one exactly when it agrees; else rows of equal joined cells and occurrence are, and similar ones may be; every row appears once and the unmoved rows are a longest common subsequence of the keys |
| TableDiffs.DiffTables | internal/preview/table.go:293-342 | From two whole tables: columns and rows appear once each, matched as above in both directions and described by their cells, with unmoved rows longest, and the totals account for every column and row of both tables |
| Rename.SimilarityAtMost | internal/diff/rename.go:93-151 | No similarity exceeds 100 |
| LineMatches.CommonIsMost | internal/diff/rename.go:106-123 | The common multiset of two lists of lines is as large as the largest one-to-one matching of equal lines |
| Rename.SimilarityIsScore | internal/diff/rename.go:93-151 | The score is 100 for one hash, else the percentage of lines that can be matched one to one in the longer text, else the percentage of new chunks that occur among the old ones |
| Rename.ScoreExtremes | internal/diff/rename.go:106-123 | The same lines in any order score 100 and nothing in common scores 0 |
| Rename.Candidates | internal/diff/rename.go:38-47 | Exactly the pairs of a deletion and an addition at or above the threshold are tried |
| Rename.EligibleIffScore | internal/diff/rename.go:38-47 | Being tried is having such a score at or above the threshold |
| Rename.SortCandidates | internal/diff/rename.go:48-56 | Candidates are tried by score, then old path, then new path |
| Rename.Choose | internal/diff/rename.go:58-76 | No deletion or addition is used twice, and a candidate is taken unless one of its files is in a chosen pair of higher score, or of equal score and smaller old or new path |
| Rename.Rewrite | internal/diff/rename.go:78-88 | Every change that is not used up comes out once, as itself or as its rename |
| Rename.DetectRenames | internal/diff/rename.go:25-91 | The result is the changes left alone and one rename per chosen pair, by path, each with the score of its files; a deletion and an addition whose score reaches the threshold have one of them in a rename at least as good |
| Rename.ScoresInRange | internal/diff/rename.go:25-91 | The score of a rename lies between the threshold and 100 |
| Rename.RenamesConserve | internal/diff/rename.go:25-91 | Applied to any map, the rewritten changes give what the original changes give |
| Rename.DiffApplies | internal/diff/model.go:61-80 | Applied to the old map, the changes give the new map, up to hash and mode |
| Rename.CompareWithRenames | internal/diff/tree.go:17-20 | Comparing two maps and detecting renames gives changes that turn the old map into the new one, up to hash and mode; where a file is gone and one of the same hash is new, one of them is in a rename that scores 100 |

## Left out

- HTTP, gRPC, CLI, daemon, desktop and web UI, configuration, mail and observability: plumbing.
- The rows behind `ApplyPush`, the storage ledger, leases, billing and outbox claims: their logic is in SQL that is not part of this model.
- zstd, BLAKE3, HMAC, JWT, SSH and bcrypt; audio, image and texture code; merge-request reviews, comments, tags, webhooks, notifications.
- `planPushLocks` and `BinaryLockPlan`: they only select paths by a flag and would add easy members.
- `NormalizePathPrefix`, white-space and case folding of inputs, and the hexadecimal form of hashes: paths and prefixes enter the model already normalised.
- Clocks: the age of a cache entry is a parameter, and the version counter is an unbounded number.
- References between tree nodes: nodes are values, a node's parent is carried in the queue of `PushRows`, and walks that fill shared maps return the new maps.
- The rendered patch text, whitespace options of the line relation beyond an arbitrary relation, and a negative hunk context, on which the source panics.
- Table parsing: a table enters the model as rows of cells.
- The construction of the gear table: the table is a parameter of the chunker; the fingerprint masks are stated as divisibility by the power of two they test.
- Failures of storage reads in the middle of a walk: only a missing commit, a missing tree and the end of a reader are modelled.
- TreeHash.StreamInjective: names of 2^32 bytes and more are excluded, because the code writes their length modulo 2^32 and they do collide (TreeHash.LongNamesCollide).
- CommitOrder.OrderIffNoShortcut: assumes that every parent is stored and the graph is acyclic, which the commit table guarantees.
- Storage finds directories by hash, so a push that only changes modes can read back with the modes that were stored first; a run of `Push` reads back what was built.
- Landing.LandMerge: paths of 2^32 bytes and more are excluded.
- PushPlaces.LandsIff: paths of 2^32 bytes and more are excluded, as for every push here.
- Rename.SimilarityAtMost: lines enter as codes; the FNV function that makes the codes, and its collisions, are not part of this model.
