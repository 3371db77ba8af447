# gitatlas commit graph and list logic, in Dafny

This project models the pure and algorithmic core of gitatlas, a desktop dashboard for many
local git repositories. It has a Rust backend and a React front end. The centre of the model
is the commit-graph lane layout of `computeGraph.ts`. One forward pass over the commit log
maintains a table of lanes. Each slot holds the abbreviated id the lane waits for, or nothing.
For every row the pass:

- resolves the commit's lane;
- stores the first parent in it;
- finds or allocates lanes for merge parents;
- draws one edge per parent that is in the window;
- frees the slots waiting on commits already laid out;
- records the lanes that pass through the row.

At the end it computes the lane count.

The layout is written twice, as the source's loops require:

- `ComputeGraph.ComputeGraph` is a method that works step by step. It has the row loop, the
  parents loop, the collapse loop, the pass-through loop and the trimming `while` loop. It
  rebuilds the lane table (a `seq<Option<string>>`) as the source mutates `activeLanes`.
- `ComputeGraph.Layout` is a functional description, built from one function per step
  (`FindOrAllocate`, `ParentStep`, `HandleParents`, `Collapse`, `PassThrough`, `Row`,
  `LayoutUpTo`, `LaneCount`). The method is proved to return exactly `Layout`.

Module `GraphProperties` proves what the layout guarantees. Module `GraphScenarios` works
small histories through it row by row. These include the cases where the code does not do
what a reader might expect.

Around the layout the project models these helpers:

- the backend's health classifier and the `RepoHealth` name round-trip;
- the git-status-flag mappings and the branch order of `get_branches`;
- abbreviated ids and the default stash message;
- from the interface: the relative-date text (both copies), the ref-badge rules, the
  drag-and-drop guard and the graph width;
- the dashboard's filter toggle, its health and search filters and its count line;
- the filter bar's per-health tally;
- the README viewer's `escapeHtml`.

`Text` models the JavaScript string operations these rely on: number-to-text, `trim`,
`toLowerCase` and `includes`.

The model follows the code, including behaviour a reader may not expect:

- **Duplicate waits.** The first-parent store does not look for a slot already waiting on
  that parent, so two slots can wait on the same commit. See `GraphScenarios.DuplicateWaits`
  and `GraphScenarios.Converge`.
- **Edges do not always end in the parent's lane.** The header comment of `computeGraph`
  (computeGraph.ts:44) says edges go from the commit's lane to each parent's lane. With
  A(B,C), B(D), C(D), D, the edge from C to D stays in lane 1 while D is drawn in lane 0
  (`GraphScenarios.Converge`).
- **The lane count can exceed the widest lane + 1.** It is the larger of the trimmed final
  table length and the largest node lane + 1. An empty log gives 1. A slot left waiting on a
  merge parent outside the window raises it: with A(B,X), B both commits sit in lane 0, yet
  the lane count is 2 (`GraphScenarios.OutsideMerge`).
- **A merge edge's target lane can reach past the lane count** (`GraphScenarios.DuplicateWaits`).
- **For a repeated abbreviated id the row index keeps the last row**, while lane lookup takes
  the first matching slot (`ComputeGraph.RowsOfLastRow`).

## Model

| member | source | states |
|---|---|---|
| ComputeGraph.ColorForLane | src/components/detail/graph/computeGraph.ts:19-34 | a lane's colour is always one of the ten palette entries |
| GraphProperties.ColorsRepeatEveryTen | src/components/detail/graph/computeGraph.ts:32-34 | two lanes share a colour exactly when they agree modulo ten, and lane l+10 has lane l's colour |
| ComputeGraph.RowsOf | src/components/detail/graph/computeGraph.ts:53-54 | the row index has no more entries than there are commits |
| ComputeGraph.RowsOfKeys | src/components/detail/graph/computeGraph.ts:54 | an id is in the row index exactly when some commit of the window carries it |
| ComputeGraph.RowsOfLastRow | src/components/detail/graph/computeGraph.ts:54 | each id maps to a row carrying it, and no later row carries it: for a repeated id the last row wins |
| ComputeGraph.BuildRowIndex | src/components/detail/graph/computeGraph.ts:53-54 | the forEach loop builds exactly the row index `RowsOf` |
| ComputeGraph.IndexOf | src/components/detail/graph/computeGraph.ts:63 | `indexOf` gives the lowest index holding the value, and -1 exactly when none does |
| ComputeGraph.Allocate | src/components/detail/graph/computeGraph.ts:66-70 | a new lane is the lowest free slot if there is one; otherwise the old length, with the table grown by one free slot |
| ComputeGraph.FindOrAllocate | src/components/detail/graph/computeGraph.ts:63-71 | the commit's lane is the lowest slot waiting on its id, the table unchanged; failing that, a newly allocated lane |
| ComputeGraph.MergeLane | src/components/detail/graph/computeGraph.ts:97-107 | a merge parent reuses the lowest slot waiting on it; otherwise it takes the lowest free slot, or an appended one, which then waits on it |
| ComputeGraph.EdgeTo | src/components/detail/graph/computeGraph.ts:88-95 | definition by cases: an edge exactly for a parent in the window, to its row, coloured by its target lane; `ParentEdgeRows` and `ParentEdgeTargets` carry what the edges of a row mean |
| ComputeGraph.ParentStep | src/components/detail/graph/computeGraph.ts:81-117 | one parent grows the table by at most one slot, and afterwards some slot waits on that parent; the first parent overwrites the node's own slot |
| ComputeGraph.HandleParents | src/components/detail/graph/computeGraph.ts:80-118 | handling parents never shrinks the table |
| ComputeGraph.HandleParentsStep | src/components/detail/graph/computeGraph.ts:80-118 | after k parents, the table and edges are those after k-1 parents advanced by one more turn of the parents loop |
| GraphProperties.MergeStepKeepsWaits | src/components/detail/graph/computeGraph.ts:97-107 | a merge step never changes a slot that already waits on something |
| GraphProperties.FirstParentSlot | src/components/detail/graph/computeGraph.ts:74-120 | once the parents are handled, the cleared slot of the node holds the first parent, and stays free for a root commit |
| GraphProperties.ParentRows | src/components/detail/graph/computeGraph.ts:82-109 | the rows of the parents in the window number at most the parents considered |
| GraphProperties.ParentEdgeRows | src/components/detail/graph/computeGraph.ts:80-118 | there is one edge per parent in the window, in parent order, each ending at that parent's row |
| GraphProperties.ParentEdgeTargets | src/components/detail/graph/computeGraph.ts:88-116 | every edge leaves the node's lane, is coloured by its target lane, and ends at a slot that waits on a parent whose row is the edge's row |
| GraphProperties.FirstParentEdge | src/components/detail/graph/computeGraph.ts:84-95 | when the first parent is in the window, the first edge is (lane, lane, its row, the lane's colour) |
| GraphProperties.ParentsGrowth | src/components/detail/graph/computeGraph.ts:98-106 | handling k parents appends at most k-1 slots |
| ComputeGraph.Settled | src/components/detail/graph/computeGraph.ts:124-127 | definition (no contract): the slot waits on a commit in the window whose row is at or above the current one; `CollapseFreesSettled` states what the collapse does with it |
| ComputeGraph.Collapse | src/components/detail/graph/computeGraph.ts:123-131 | the collapse keeps the table's length |
| ComputeGraph.CollapseFreesSettled | src/components/detail/graph/computeGraph.ts:123-131 | after the collapse no slot waits on a commit at or above the row, and only such slots were freed |
| ComputeGraph.CollapseLanes | src/components/detail/graph/computeGraph.ts:123-131 | the in-place collapse loop computes exactly `Collapse` |
| ComputeGraph.PassThrough | src/components/detail/graph/computeGraph.ts:135-140 | there are no more pass-through lanes than slots scanned |
| ComputeGraph.PassThroughExactly | src/components/detail/graph/computeGraph.ts:135-140 | the pass-through lanes are, strictly ascending, exactly the occupied slots other than the node's own |
| ComputeGraph.PassThroughLanes | src/components/detail/graph/computeGraph.ts:135-140 | the pass-through loop computes exactly `PassThrough` |
| ComputeGraph.Row | src/components/detail/graph/computeGraph.ts:59-142 | a row's node carries its commit, and its lane lies within the new table |
| GraphProperties.RowGrowth | src/components/detail/graph/computeGraph.ts:63-107 | one row grows the table by at most max(1, number of parents) slots |
| GraphProperties.RowFirstParent | src/components/detail/graph/computeGraph.ts:74-131 | after a row the node's slot is free for a root commit, and waits on the first parent when that parent lies below the row or outside the window |
| GraphProperties.RowEdges | src/components/detail/graph/computeGraph.ts:76-142 | a node has one edge per parent in the window, in parent order, each from the node's lane and coloured by its target, with the first-parent edge straight down its own lane |
| ComputeGraph.ProcessRow | src/components/detail/graph/computeGraph.ts:59-142 | the body of the row loop computes exactly `Row`: the new table and the node |
| ComputeGraph.PlaceParents | src/components/detail/graph/computeGraph.ts:79-118 | the parents loop computes exactly `HandleParents` over all parents |
| ComputeGraph.PlaceParent | src/components/detail/graph/computeGraph.ts:81-117 | one turn of the parents loop updates the table and appends the edge exactly as `ParentStep` says |
| ComputeGraph.LayoutUpTo | src/components/detail/graph/computeGraph.ts:56-142 | after n rows there are n nodes, and node i carries commit i |
| ComputeGraph.LayoutUpToStep | src/components/detail/graph/computeGraph.ts:58-143 | the layout after n rows is the layout after n-1 rows plus one more row |
| ComputeGraph.PlaceRows | src/components/detail/graph/computeGraph.ts:58-143 | the row loop computes exactly `LayoutUpTo` over all commits |
| GraphProperties.NoSettledWaits | src/components/detail/graph/computeGraph.ts:122-131 | once row r is laid out, no slot waits on a commit whose row is at most r |
| ComputeGraph.Trimmed | src/components/detail/graph/computeGraph.ts:145-149 | the trimmed length drops exactly the trailing free slots: what it keeps ends in an occupied slot |
| ComputeGraph.TrimmedUnique | src/components/detail/graph/computeGraph.ts:145-149 | only one length has an occupied last slot and only free slots after it |
| ComputeGraph.TrimmedLength | src/components/detail/graph/computeGraph.ts:146-149 | the `while` loop computes exactly `Trimmed` |
| ComputeGraph.MaxLane | src/components/detail/graph/computeGraph.ts:151 | the largest node lane, attained by some node, or 0 for no nodes |
| ComputeGraph.LaneCount | src/components/detail/graph/computeGraph.ts:150-152 | the lane count is at least 1 and at least the trimmed length, exceeds every node lane, and is one of the two candidates |
| ComputeGraph.CountLanes | src/components/detail/graph/computeGraph.ts:145-152 | the final lines compute exactly `LaneCount` |
| ComputeGraph.Layout | src/components/detail/graph/computeGraph.ts:46-155 | one node per commit in row order, every node lane below the lane count, which is at least 1 |
| ComputeGraph.ComputeGraph | src/components/detail/graph/computeGraph.ts:46-155 | the imperative algorithm returns exactly the nodes and lane count of `Layout` |
| GraphProperties.ChainRow | src/components/detail/graph/computeGraph.ts:59-142 | a commit the table alone waits for, with at most one parent below it, stays in lane 0 and leaves one slot waiting on that parent |
| GraphProperties.ChainRowIndex | src/components/detail/graph/computeGraph.ts:54 | in a linear history every id maps to its own row |
| GraphProperties.ChainLastParent | src/components/detail/graph/computeGraph.ts:54 | in a linear history the oldest commit's parent lies outside the window |
| GraphProperties.ChainTable | src/components/detail/graph/computeGraph.ts:58-143 | under such a row index, after n rows the table is one slot waiting on the next commit, and every node is in lane 0 |
| GraphProperties.LinearChainTable | src/components/detail/graph/computeGraph.ts:58-143 | a linear history keeps a one-slot table waiting on the next row's commit, every node in lane 0 |
| GraphProperties.LinearChainLayout | src/components/detail/graph/computeGraph.ts:46-155 | a linear history is drawn entirely in lane 0 with a lane count of 1 |
| GraphScenarios.Commit | src-tauri/src/db/models.rs:28-38 | scenario helper, not a model of the struct: builds a `CommitInfo` with the given abbreviated id and parents, the fields the layout reads |
| GraphScenarios.EmptyLog | src/components/detail/graph/computeGraph.ts:146-152 | an empty log gives no nodes and a lane count of 1 |
| GraphScenarios.RowsOfThree | src/components/detail/graph/computeGraph.ts:54 | three distinct ids map to rows 0, 1 and 2 |
| GraphScenarios.RowsOfFour | src/components/detail/graph/computeGraph.ts:54 | four distinct ids map to rows 0 to 3 |
| GraphScenarios.MergeRow0 | src/components/detail/graph/computeGraph.ts:63-140 | A(B,C) at row 0: lane 0 waits on B, a new lane 1 on C; two edges; lane 1 passes through |
| GraphScenarios.DuplicateWaitsRow1 | src/components/detail/graph/computeGraph.ts:84-86 | B(C) at row 1 stores C in lane 0 although lane 1 already waits on C |
| GraphScenarios.DuplicateWaitsRow2 | src/components/detail/graph/computeGraph.ts:63-131 | C at row 2 takes lane 0 and the collapse frees both slots |
| GraphScenarios.DuplicateWaitsRows | src/components/detail/graph/computeGraph.ts:58-143 | the three rows of A(B,C), B(C), C, one after another |
| GraphScenarios.DuplicateWaits | src/components/detail/graph/computeGraph.ts:46-155 | A(B,C), B(C), C: two slots wait on C; A's merge edge goes to lane 1 and lane 1 passes through B's row; yet the lane count is 1 |
| GraphScenarios.ConvergeRow1 | src/components/detail/graph/computeGraph.ts:63-95 | B(D) at row 1 keeps lane 0 and waits on D there |
| GraphScenarios.ConvergeRow2 | src/components/detail/graph/computeGraph.ts:63-95 | C(D) at row 2 resolves to lane 1 and also stores D there, so its edge stays in lane 1 |
| GraphScenarios.ConvergeRow3 | src/components/detail/graph/computeGraph.ts:63-131 | D at row 3 takes the first slot waiting on it, lane 0, and both slots are freed |
| GraphScenarios.ConvergeRows | src/components/detail/graph/computeGraph.ts:58-143 | the four rows of A(B,C), B(D), C(D), D, one after another |
| GraphScenarios.Converge | src/components/detail/graph/computeGraph.ts:46-155 | A(B,C), B(D), C(D), D: the edges into D arrive in lanes 0 and 1 while D sits in lane 0; the lane count is 2 |
| GraphScenarios.PinnedRow0 | src/components/detail/graph/computeGraph.ts:84-95 | A(X), with X outside the window, pins lane 0 on X and draws no edge |
| GraphScenarios.PinnedRow1 | src/components/detail/graph/computeGraph.ts:63-71 | B, waited on by no slot and with no free slot, opens lane 1 |
| GraphScenarios.PinnedRow2 | src/components/detail/graph/computeGraph.ts:63-140 | C takes lane 1 while lane 0 still waits on X and passes through |
| GraphScenarios.PinnedRows | src/components/detail/graph/computeGraph.ts:58-143 | the three rows of A(X), B(C), C, one after another |
| GraphScenarios.Pinned | src/components/detail/graph/computeGraph.ts:46-155 | A(X), B(C), C: no edge from A, lane 0 passes through every later row, and the lane count is 2 |
| GraphScenarios.RowsOfTwo | src/components/detail/graph/computeGraph.ts:53-54 | two distinct ids map to rows 0 and 1 |
| GraphScenarios.OutsideMergeRow0 | src/components/detail/graph/computeGraph.ts:80-118 | A(B,X), with X outside the window: B waits in lane 0, X is stored in a new lane 1 and gets no edge |
| GraphScenarios.OutsideMergeRow1 | src/components/detail/graph/computeGraph.ts:122-131 | B takes lane 0 and the slot waiting on X is not freed, since X has no row |
| GraphScenarios.OutsideMerge | src/components/detail/graph/computeGraph.ts:145-152 | A(B,X), B: both nodes are in lane 0, so the widest lane + 1 is 1, but the lane count is 2 |
| Models.AsStr | src-tauri/src/db/models.rs:106-113 | a health is always stored under one of the four names |
| Models.FromStr | src-tauri/src/db/models.rs:115-121 | a name reads back as `Error` exactly when it is not "clean", "dirty" or "diverged" |
| Models.FromStrAsStr | src-tauri/src/db/models.rs:105-122 | storing a health and reading it back gives the same health |
| Models.AsStrInjective | src-tauri/src/db/models.rs:106-113 | different healths are stored under different names |
| Models.AsStrFromStr | src-tauri/src/db/models.rs:105-122 | reading and re-storing keeps the four names and turns anything else into "error" |
| Models.KindName | src-tauri/src/db/models.rs:46-53 | a ref kind is serialised under one of four lower-case names |
| Status.DetermineHealth | src-tauri/src/git/status.rs:121-129 | never `Error`; Diverged exactly when behind and (ahead or dirty); Dirty exactly when not behind and (ahead or dirty); Clean exactly when neither ahead nor dirty |
| Status.OnlyBehindIsClean | src-tauri/src/git/status.rs:126-128 | a repository that is only behind is clean |
| Status.GetRepoInfo | src-tauri/src/git/status.rs:7-55 | the record is `Error` exactly when the repository cannot be opened, and then has branch "unknown" and zero counts; otherwise it carries what the library reports and the classified health |
| Detail.IndexStatusToFileStatus | src-tauri/src/git/detail.rs:173-187 | each staged state holds exactly when its bit is set and no earlier-checked bit is; never Untracked |
| Detail.WorkdirStatusToFileStatus | src-tauri/src/git/detail.rs:189-203 | each unstaged state holds exactly when its bit is set and no earlier-checked bit is; never Added |
| Detail.FirstSet | src-tauri/src/git/detail.rs:173-203 | the first-set-bit rule: nothing when no listed bit is set, otherwise the outcome of the first listed bit that is set |
| Detail.IndexIsPriorityList | src-tauri/src/git/detail.rs:173-187 | the index mapping is the first-set-bit rule over NEW, MODIFIED, DELETED, RENAMED, CONFLICTED |
| Detail.WorkdirIsPriorityList | src-tauri/src/git/detail.rs:189-203 | the working-tree mapping is the first-set-bit rule over WT_NEW, WT_MODIFIED, WT_DELETED, WT_RENAMED, CONFLICTED |
| Detail.IndexIgnoresOtherBits | src-tauri/src/git/detail.rs:173-187 | bits the index mapping does not list never change its result |
| Detail.WorkdirIgnoresOtherBits | src-tauri/src/git/detail.rs:189-203 | bits the working-tree mapping does not list never change its result |
| Detail.ConflictOnlyWhenNothingElse | src-tauri/src/git/detail.rs:182-199 | a conflicted path is reported conflicted exactly when no higher-priority bit is set |
| Detail.Ordering.Then | src-tauri/src/git/detail.rs:404-405 | `then` keeps a decided ordering and otherwise takes the next one |
| Detail.Ordering.Flip | src-tauri/src/git/detail.rs:401-406 | flipping swaps Less and Greater and keeps Equal |
| Detail.BoolCmp | src-tauri/src/git/detail.rs:402-404 | `false` comes before `true` |
| Detail.StrCmp | src-tauri/src/git/detail.rs:405 | strings compare Equal exactly when they are equal |
| Detail.StrCmpFlip | src-tauri/src/git/detail.rs:405 | comparing the other way round flips the result |
| Detail.StrCmpTransitive | src-tauri/src/git/detail.rs:405 | "at most" is transitive on names |
| Detail.BranchCmp | src-tauri/src/git/detail.rs:400-406 | definition (no contract): the `sort_by` closure, `b.is_head.cmp(&a.is_head)` then remote then name; its meaning is stated by `BranchCmpIsKeyOrder`, `BranchCmpFlip` and `BranchCmpTransitive` |
| Detail.BranchCmpIsKeyOrder | src-tauri/src/git/detail.rs:400-406 | the comparator is the lexicographic order on (not HEAD, remote, name) |
| Detail.BranchCmpFlip | src-tauri/src/git/detail.rs:400-406 | the branch comparator is antisymmetric |
| Detail.BranchCmpTransitive | src-tauri/src/git/detail.rs:400-406 | the branch comparator is transitive |
| Detail.Insert | src-tauri/src/git/detail.rs:401-406 | inserting into a sorted list keeps it sorted and adds exactly the one branch |
| Detail.SortBranches | src-tauri/src/git/detail.rs:401-406 | the result is sorted under the comparator and a permutation of the input |
| Detail.SortedOrder | src-tauri/src/git/detail.rs:400-406 | after sorting, HEAD branches come first, then locals before remotes, then names ascending |
| Detail.HeadComesFirst | src-tauri/src/git/detail.rs:400-406 | whenever some branch is HEAD, the sorted list starts with a HEAD branch |
| Detail.ShortOid | src-tauri/src/git/detail.rs:42 | the abbreviated id is the first seven characters of the full id |
| Detail.ParentRefs | src-tauri/src/git/detail.rs:55 | each parent reference is its full id abbreviated the same way |
| Detail.ParentLinksToCommit | src-tauri/src/git/detail.rs:42-55 | a parent reference equals a commit's abbreviated id exactly when their full ids share the first seven characters |
| Detail.AbbreviationsCollide | src-tauri/src/git/detail.rs:42-55 | two different full ids can share an abbreviated id |
| Detail.StashMessage | src-tauri/src/git/detail.rs:463-464 | definition by cases: an empty message becomes "WIP", any other passes through unchanged; the recorded message is never empty |
| Text.Decimal | src/components/detail/CommitGraph.tsx:147 | a number prints as a non-empty string of digits with no leading zero, one digit exactly below ten |
| Text.DecimalRoundTrip | src/components/detail/CommitGraph.tsx:147 | reading the printed numeral back gives the number |
| Text.DecimalInjective | src/components/detail/CommitGraph.tsx:147 | different numbers print differently |
| Text.IsSpace | src/components/Dashboard.tsx:51 | definition (no contract): the white space and line terminators `trim` removes; `Trim` and `TrimBlank` are stated over it |
| Text.SkipSpace | src/components/Dashboard.tsx:51 | the first index at or after i that is not white space, with only white space skipped |
| Text.SkipSpaceBack | src/components/Dashboard.tsx:51 | the end of the text before the trailing white space, with only white space skipped |
| Text.Trim | src/components/Dashboard.tsx:51 | the trimmed text is a slice with only white space around it, and starts and ends with a non-space |
| Text.TrimBlank | src/components/Dashboard.tsx:51-52 | the trimmed text is empty exactly when the whole text is white space |
| Text.LowerChar | src/components/Dashboard.tsx:51-57 | upper-case ASCII letters are shifted to lower case; everything else is kept |
| Text.Lower | src/components/Dashboard.tsx:51-57 | lower-casing keeps the length and lower-cases each character |
| Text.LowerIdempotent | src/components/Dashboard.tsx:51-57 | lower-casing twice is lower-casing once |
| Text.Includes | src/components/Dashboard.tsx:55-57 | `includes` holds exactly when the needle occurs at some index |
| Text.IncludesLower | src/components/Dashboard.tsx:55-57 | lower-casing both sides keeps every match |
| CommitGraphView.DivDiv | src/components/detail/CommitGraph.tsx:145-154 | flooring twice by positive divisors is flooring once by their product |
| CommitGraphView.Classify | src/components/detail/CommitGraph.tsx:143-154 | each bucket holds exactly on its range of ages, under a minute including future dates is "just now", and the count is the age floored by the bucket's unit |
| CommitGraphView.ClassifyCounts | src/components/detail/CommitGraph.tsx:146-154 | a printed count is at least 1 and stays below the next unit |
| CommitGraphView.ClassifyMonotone | src/components/detail/CommitGraph.tsx:143-154 | an older date never lands in a finer bucket, nor a smaller count in the same bucket |
| CommitGraphView.FormatRelative | src/components/detail/CommitGraph.tsx:142-155 | "just now" exactly under a minute; otherwise the floored count of minutes, hours, days, months or years with its suffix |
| CommitGraphView.Unit | src/components/detail/CommitGraph.tsx:147-154 | definition (no contract): the suffix of each bucket, "m ago" to "y ago"; `RenderInjective` proves the suffixes tell the buckets apart |
| CommitGraphView.Render | src/components/detail/CommitGraph.tsx:146-154 | definition (no contract): "just now", or the numeral and the suffix; `RenderParts` and `RenderInjective` state its properties, and `FormatRelative`'s contract its value on every age |
| CommitGraphView.RenderParts | src/components/detail/CommitGraph.tsx:147-154 | a printed bucket is the numeral followed by a suffix that starts with a non-digit |
| CommitGraphView.RenderInjective | src/components/detail/CommitGraph.tsx:146-154 | two buckets print the same text exactly when they are the same bucket with the same count |
| CommitLog.FormatRelative | src/components/detail/CommitLog.tsx:48-61 | "just now" under a minute, including future dates; otherwise a text that starts with a digit |
| CommitLog.AgreesWithCommitGraph | src/components/detail/CommitLog.tsx:48-61 | the log's copy prints the same text as the graph's copy for every age |
| CommitLog.FirstLine | src/components/detail/CommitLog.tsx:34 | the shown line is a prefix of the message with no line feed, ending at the first line feed if any |
| CommitLog.SingleLineShownWhole | src/components/detail/CommitLog.tsx:34 | a message without a line feed is shown whole |
| CommitGraphView.RefColors | src/components/detail/CommitGraph.tsx:119 | a badge takes its kind's colours, or the local colours for an unknown kind |
| CommitGraphView.EveryKindHasColors | src/components/detail/CommitGraph.tsx:13-18 | every ref kind has its own entry, and the four entries differ |
| CommitGraphView.BadgeText | src/components/detail/CommitGraph.tsx:120-122 | the head badge reads "HEAD → name"; every other badge shows the bare name |
| CommitGraphView.IsDraggable | src/components/detail/CommitGraph.tsx:129 | definition by cases on the kind name: local or remote; `DraggableKinds` states which ref kinds that admits |
| CommitGraphView.DraggableKinds | src/components/detail/CommitGraph.tsx:129 | exactly branch refs can be dragged, never the head ref or a tag |
| CommitGraphView.DragPayload | src/components/detail/CommitGraph.tsx:124-134 | a drag carries the ref name exactly when the badge is draggable |
| CommitGraphView.HandleDrop | src/components/detail/CommitGraph.tsx:38-47 | definition by cases: a merge request (name, target) exactly when the dragged name is non-empty and a callback exists; `DragThenDrop` ties it to the drag payload |
| CommitGraphView.DragThenDrop | src/components/detail/CommitGraph.tsx:38-47 | dropping a dragged badge asks to merge exactly that branch into the target |
| CommitGraphView.GraphWidth | src/components/detail/CommitGraph.tsx:31 | definition (no contract): `LEFT_PAD + laneCount * LANE_WIDTH + 12`; `SvgWidthIsGraphWidth` and `NodesInsideGraph` state what it guarantees |
| CommitGraphView.Cx | src/components/detail/graph/GraphSvg.tsx:21 | definition (no contract): the centre of a lane; `NodesInsideGraph` shows every node circle fits the reserved width |
| CommitGraphView.SvgWidth | src/components/detail/graph/GraphSvg.tsx:18 | the drawing surface is the larger of the given width and the lanes' width |
| CommitGraphView.SvgWidthIsGraphWidth | src/components/detail/CommitGraph.tsx:31 | given the width the commit graph reserves, the drawing surface keeps exactly that width |
| CommitGraphView.NodesInsideGraph | src/components/detail/CommitGraph.tsx:30-31 | every node circle of a layout lies inside the reserved graph width |
| Dashboard.ToggleFilter | src/components/Dashboard.tsx:32-42 | the toggled health flips membership; every other health is unchanged |
| Dashboard.ToggleTwice | src/components/Dashboard.tsx:32-42 | toggling the same health twice restores the filters |
| Dashboard.ToggleFlipsOneButton | src/components/Dashboard.tsx:32-42 | a click flips that button's active flag and no other |
| Dashboard.Filter | src/components/Dashboard.tsx:48-58 | `filter` keeps every copy of each element that passes the test and no copy of one that fails (multiset counts); no more elements than there were |
| Dashboard.FilterIsSubsequence | src/components/Dashboard.tsx:48-58 | filtering keeps the order of what it keeps |
| Dashboard.FilterKeepsAll | src/components/Dashboard.tsx:45-49 | filtering with a test everything passes changes nothing |
| Dashboard.FilterTwice | src/components/Dashboard.tsx:47-59 | two filters in a row are one filter with the conjunction of the tests |
| Dashboard.FilterSame | src/components/Dashboard.tsx:47-59 | filters whose tests agree keep the same elements |
| Dashboard.Query | src/components/Dashboard.tsx:51-52 | the query is empty exactly when the search is blank after trimming, and it is already lower-case |
| Dashboard.MatchesQuery | src/components/Dashboard.tsx:53-58 | definition (no contract): the query occurs in the lower-cased name, branch or path; `SearchFindsItsOwnName` and `FilteredRepos` state its effect |
| Dashboard.Kept | src/components/Dashboard.tsx:47-58 | definition (no contract): the health passes the active filters (or none is active) and the query is empty or matches; `SinglePass` proves the two passes keep exactly what `Kept` keeps |
| Dashboard.FilteredRepos | src/components/Dashboard.tsx:44-62 | the list is one `Filter` pass with the combined test `Kept`. It is an order-preserving subsequence that keeps every copy of each repository whose health passes and whose name, branch or path contains the query, and no copy of any other. With no filter and no query it is the whole list |
| Dashboard.SinglePass | src/components/Dashboard.tsx:44-62 | the two passes keep the same list as one pass with the combined test |
| Dashboard.SearchFindsItsOwnName | src/components/Dashboard.tsx:51-58 | a search for a repository's own lower-cased name keeps it when its health passes |
| Dashboard.CountLine | src/components/Dashboard.tsx:119-124 | "No repositories scanned yet" exactly for no repositories; "N repositories" when all are shown; otherwise "k of N repositories" |
| Dashboard.CountLineOfFilter | src/components/Dashboard.tsx:119-124 | with no filter and a blank search the line gives only the total; a "k of N" line always has k below N |
| FilterBar.OptionsCoverEveryHealth | src/components/FilterBar.tsx:3-8 | every health has exactly one button |
| FilterBar.Shown | src/components/FilterBar.tsx:34 | definition by cases: a health missing from the tally shows 0, otherwise its tallied count; `AbsentCountsZero` and `ShownCountsSum` state what the shown counts mean |
| FilterBar.Tally | src/components/FilterBar.tsx:25-28 | the tally shows, for every health, the number of repositories with that health, and holds an entry exactly for the healths present |
| FilterBar.AbsentCountsZero | src/components/FilterBar.tsx:34 | a health counts zero exactly when no repository has it |
| FilterBar.OptionTotalOfFour | src/components/FilterBar.tsx:3-34 | the total over the buttons is the sum of the four health counts |
| FilterBar.FourCountsSum | src/types/repo.ts:1 | every repository has exactly one of the four healths |
| FilterBar.ShownCountsSum | src/components/FilterBar.tsx:3-34 | the counts on the four buttons add up to the number of repositories |
| FilterBar.IsActive | src/components/FilterBar.tsx:35 | definition: a button is active exactly when its health is an active filter; `ToggleFlipsOneButton` states how a click changes it |
| ReadmeViewer.ReplaceAll | src/components/detail/ReadmeViewer.tsx:116-118 | a global replace leaves no occurrence of the character except inside the replacement, and changes nothing when the character is absent |
| ReadmeViewer.ReplaceAllAppend | src/components/detail/ReadmeViewer.tsx:116-118 | replacing in a concatenation replaces in each part |
| ReadmeViewer.EscapeHtml | src/components/detail/ReadmeViewer.tsx:114-119 | the output has no '<' and no '>', and text without &, < or > is returned unchanged |
| ReadmeViewer.EscapeOne | src/components/detail/ReadmeViewer.tsx:116-118 | one character goes through the three passes as a single entity or unchanged |
| ReadmeViewer.EscapeHtmlIsPerChar | src/components/detail/ReadmeViewer.tsx:116-118 | because '&' is replaced first, the three passes escape each character exactly once |
| ReadmeViewer.EscapedLength | src/components/detail/ReadmeViewer.tsx:116-118 | the output length is the input length plus 4 per '&' and 3 per '<' or '>' |
| ReadmeViewer.EveryAmpersandStartsEntity | src/components/detail/ReadmeViewer.tsx:116-118 | every '&' of the output starts "&amp;", "&lt;" or "&gt;" |
| ReadmeViewer.UnescapeEscape | src/components/detail/ReadmeViewer.tsx:114-119 | escaping loses nothing: reading the entities back gives the original text |

## Left out

- Repository I/O through the git library is not modelled: the revwalk, statuses, diffs, staging, commits, checkout, stashes and README reads of `src-tauri/src/git/detail.rs`, and the branch, ahead/behind, dirty-count, stash-count and origin helpers of `src-tauri/src/git/status.rs`. `Status.GetRepoInfo` takes what the library reports as a parameter (`None` when the repository cannot be opened). It also takes the file name and the time stamp.
- `Date.now()` and date parsing are not modelled. Both `FormatRelative` functions take the age in milliseconds as an integer. A date that parses to NaN is not modelled.
- `avatarColor` is not modelled: it depends on 32-bit shift wrap-around mixed with floating-point arithmetic.
- `renderMarkdown` of the README viewer is not modelled: it is a cascade of regular-expression replacements.
- The SVG drawing of `GraphSvg.tsx` is not modelled, apart from its width and the lane centre. Its curves use floating-point coordinates.
- The React rendering, the hooks, the Tauri command wrappers, the database, the cache, the scanner and the remote operations are not modelled.
- The "No commits found" placeholder of an empty commit graph is not modelled.
- The stored health name of the interface type is not modelled. `RepoHealth` is a Dafny datatype rather than a string union.
- A lookup of `REF_COLORS` with a kind named after an inherited JavaScript object property (such as "constructor") is not modelled.
- Text.Lower: lower-cases ASCII letters only; JavaScript's `toLowerCase` also maps other Unicode letters.
- CommitLog.FormatRelative: its own contract only separates "just now" from the rest. The full bucket-by-bucket statement comes from `CommitLog.AgreesWithCommitGraph` together with `CommitGraphView.FormatRelative`.
- Detail.SortBranches: models the comparator and a sorted permutation, not the stability of `sort_by` (no stability property is stated).
- Detail.ShortOid: requires a full id of at least seven characters. Git's 40-character hexadecimal ids always are; a shorter string would make the Rust slice panic.
- The unsigned 32-bit counters of `RepoInfo` are a bounded `nat` subtype. Their saturation or wrap-around in the git helpers (`as u32`) is left to the library side, which is not modelled.
