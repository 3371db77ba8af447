/**
 * Commit-graph lane layout (src/components/detail/graph/computeGraph.ts).
 *
 * The lane table is the source's `activeLanes`: slot i holds the short id that lane i
 * waits for, or `None` when the lane is free. The functions below describe one row of
 * the layout at a time; `Layout` strings them together, and the method `ComputeGraph`,
 * which works the way the source does (loops that update the table in place), is
 * proved to compute exactly `Layout`.
 */
module ComputeGraph {
  import opened Wrappers
  import opened Models

  type LaneTable = seq<Option<string>>

  /** Short id -> row of the last commit carrying it (`oidToRow`). */
  type RowIndex = map<string, nat>

  datatype GraphEdge = GraphEdge(fromLane: nat, toLane: nat, toRow: nat, color: string)

  datatype GraphNode = GraphNode(commit: CommitInfo, lane: nat, edges: seq<GraphEdge>, passThroughLanes: seq<nat>)

  const LaneColors: seq<string> := [
    "#60a5fa", "#34d399", "#f472b6", "#a78bfa", "#fbbf24",
    "#fb923c", "#2dd4bf", "#e879f9", "#f87171", "#38bdf8"
  ]

  /** `colorForLane`: the palette entry at `lane` modulo the palette size. */
  function ColorForLane(lane: nat): (c: string)
    ensures c in LaneColors
  {
    LaneColors[lane % |LaneColors|]
  }

  // ---------------------------------------------------------------------------
  // oidToRow

  /** The row index the source builds before the row loop: each short id mapped to its row. */
  function RowsOf(commits: seq<CommitInfo>): (m: RowIndex)
    ensures |m| <= |commits|
    decreases |commits|
  {
    if commits == [] then map[]
    else
      var n := |commits| - 1;
      RowsOf(commits[..n])[commits[n].shortOid := n]
  }

  /** The index holds exactly the short ids of the window. */
  lemma {:induction false} RowsOfKeys(commits: seq<CommitInfo>)
    ensures forall id :: id in RowsOf(commits) <==> exists i :: 0 <= i < |commits| && commits[i].shortOid == id
  {
    if commits != [] {
      var n := |commits| - 1;
      var init := commits[..n];
      RowsOfKeys(init);
      forall id | id in RowsOf(commits)
        ensures exists i :: 0 <= i < |commits| && commits[i].shortOid == id
      {
        if id != commits[n].shortOid {
          assert id in RowsOf(init);
          var i :| 0 <= i < |init| && init[i].shortOid == id;
          assert commits[i].shortOid == id;
        }
      }
      forall id, i | 0 <= i < |commits| && commits[i].shortOid == id
        ensures id in RowsOf(commits)
      {
        if i < n {
          assert init[i].shortOid == id;
        }
      }
    }
  }

  /** Each short id in `m` maps to a row carrying it, and no later row carries it. */
  predicate LastRows(commits: seq<CommitInfo>, m: RowIndex)
  {
    && (forall id :: id in m ==> m[id] < |commits| && commits[m[id]].shortOid == id)
    && (forall id, j :: id in m && m[id] < j < |commits| ==> commits[j].shortOid != id)
  }

  /** For a repeated short id the last row wins. */
  lemma {:induction false} RowsOfLastRow(commits: seq<CommitInfo>)
    ensures LastRows(commits, RowsOf(commits))
  {
    if commits != [] {
      var n := |commits| - 1;
      var init := commits[..n];
      RowsOfLastRow(init);
      var m0, m := RowsOf(init), RowsOf(commits);
      assert m == m0[commits[n].shortOid := n];
      forall id | id in m && id != commits[n].shortOid
        ensures m[id] < n && commits[m[id]].shortOid == id
        ensures forall j :: m[id] < j < |commits| ==> commits[j].shortOid != id
      {
        assert id in m0 && m[id] == m0[id];
        assert init[m0[id]] == commits[m0[id]];
        forall j | m[id] < j < |commits| ensures commits[j].shortOid != id {
          if j < n {
            assert init[j] == commits[j];
          }
        }
      }
    }
  }

  // ---------------------------------------------------------------------------
  // Lane-table primitives

  /** `Array.prototype.indexOf`: the lowest index holding `x`, or -1. */
  function IndexOf(t: LaneTable, x: Option<string>): (r: int)
    ensures -1 <= r < |t|
    ensures r >= 0 ==> t[r] == x && forall j :: 0 <= j < r ==> t[j] != x
    ensures r == -1 <==> x !in t
  {
    if t == [] then -1
    else if t[0] == x then 0
    else
      var k := IndexOf(t[1..], x);
      if k == -1 then -1 else k + 1
  }

  /** A new lane (lines 66-70 and 101-105): the first free slot, or a slot appended at the end. */
  function Allocate(t: LaneTable): (res: (nat, LaneTable))
    ensures res.0 < |res.1| && res.1[res.0] == None
    ensures None in t ==> res.1 == t && forall j :: 0 <= j < res.0 ==> t[j] != None
    ensures None !in t ==> res.0 == |t| && res.1 == t + [None]
  {
    var k := IndexOf(t, None);
    if k == -1 then (|t|, t + [None]) else (k, t)
  }

  /**
   * Lane resolution for a commit (lines 63-71): the first slot waiting on `id`;
   * failing that, a new lane.
   */
  function FindOrAllocate(t: LaneTable, id: string): (res: (nat, LaneTable))
    ensures res.0 < |res.1|
    ensures Some(id) in t ==>
      res.1 == t && t[res.0] == Some(id) && forall j :: 0 <= j < res.0 ==> t[j] != Some(id)
    ensures Some(id) !in t ==> res == Allocate(t)
  {
    var k := IndexOf(t, Some(id));
    if k == -1 then Allocate(t) else (k, t)
  }

  /**
   * The lane of a merge parent (lines 98-107): the first slot already waiting on it,
   * otherwise a new lane that is set to wait on it.
   */
  function MergeLane(t: LaneTable, p: string): (res: (nat, LaneTable))
    ensures res.0 < |res.1| && res.1[res.0] == Some(p)
    ensures Some(p) in t ==> res.1 == t && forall j :: 0 <= j < res.0 ==> t[j] != Some(p)
    ensures Some(p) !in t && None in t ==>
      res.0 < |t| && t[res.0] == None && res.1 == t[res.0 := Some(p)] &&
      forall j :: 0 <= j < res.0 ==> t[j] != None
    ensures Some(p) !in t && None !in t ==> res.0 == |t| && res.1 == t + [Some(p)]
  {
    var k := IndexOf(t, Some(p));
    if k != -1 then (k, t)
    else
      var alloc := Allocate(t);
      (alloc.0, alloc.1[alloc.0 := Some(p)])
  }

  // ---------------------------------------------------------------------------
  // One row

  /** The edge to a parent, when the parent is in the window (lines 88-95 and 109-116). */
  function EdgeTo(fromLane: nat, toLane: nat, p: string, rowOf: RowIndex): (e: seq<GraphEdge>)
    ensures |e| == (if p in rowOf then 1 else 0)
    ensures p in rowOf ==> e[0] == GraphEdge(fromLane, toLane, rowOf[p], ColorForLane(toLane))
  {
    if p in rowOf then [GraphEdge(fromLane, toLane, rowOf[p], ColorForLane(toLane))] else []
  }

  /** Parent number `pi` of a commit sitting in `lane` (one turn of the loop at lines 80-118). */
  function ParentStep(t: LaneTable, lane: nat, pi: nat, p: string, rowOf: RowIndex): (res: (LaneTable, seq<GraphEdge>))
    requires lane < |t|
    ensures |t| <= |res.0| <= |t| + 1
    ensures Some(p) in res.0
    ensures pi == 0 ==> res.0 == t[lane := Some(p)]
  {
    if pi == 0 then
      assert t[lane := Some(p)][lane] == Some(p);
      (t[lane := Some(p)], EdgeTo(lane, lane, p, rowOf))
    else
      var merge := MergeLane(t, p);
      (merge.1, EdgeTo(lane, merge.0, p, rowOf))
  }

  /** The table and the edges after the first `k` parents have been handled. */
  function HandleParents(t: LaneTable, lane: nat, parents: seq<string>, rowOf: RowIndex, k: nat): (res: (LaneTable, seq<GraphEdge>))
    requires lane < |t| && k <= |parents|
    ensures |t| <= |res.0|
    decreases k
  {
    if k == 0 then (t, [])
    else
      var before := HandleParents(t, lane, parents, rowOf, k - 1);
      var step := ParentStep(before.0, lane, k - 1, parents[k - 1], rowOf);
      (step.0, before.1 + step.1)
  }

  /** A slot waits on a commit whose row is at or above `row` (line 127). */
  predicate Settled(s: Option<string>, rowOf: RowIndex, row: nat)
  {
    s.Some? && s.value in rowOf && rowOf[s.value] <= row
  }

  /** The collapse of lines 123-131: free every slot waiting on a commit at or above `row`. */
  function Collapse(t: LaneTable, rowOf: RowIndex, row: nat): (r: LaneTable)
    ensures |r| == |t|
  {
    seq(|t|, i requires 0 <= i < |t| => if Settled(t[i], rowOf, row) then None else t[i])
  }

  /** After the collapse no slot waits on a settled commit, and only such slots were freed. */
  lemma CollapseFreesSettled(t: LaneTable, rowOf: RowIndex, row: nat)
    ensures var r := Collapse(t, rowOf, row);
      && (forall i :: 0 <= i < |r| ==> !Settled(r[i], rowOf, row))
      && (forall i :: 0 <= i < |r| ==> r[i] == t[i] || (r[i] == None && Settled(t[i], rowOf, row)))
  {
  }

  /** The pass-through lanes among the first `n` slots (lines 135-140). */
  function PassThrough(t: LaneTable, lane: nat, n: nat): (r: seq<nat>)
    requires n <= |t|
    ensures |r| <= n
  {
    if n == 0 then []
    else
      var r := PassThrough(t, lane, n - 1);
      if t[n - 1] != None && n - 1 != lane then r + [n - 1] else r
  }

  /** The pass-through lanes are, in increasing order, exactly the occupied slots other than the node's own. */
  lemma {:induction false} PassThroughExactly(t: LaneTable, lane: nat, n: nat)
    requires n <= |t|
    ensures var r := PassThrough(t, lane, n);
      && (forall a :: 0 <= a < |r| ==> r[a] < n)
      && (forall a, b :: 0 <= a < b < |r| ==> r[a] < r[b])
      && (forall x: nat :: x in r <==> x < n && t[x] != None && x != lane)
  {
    if n > 0 {
      PassThroughExactly(t, lane, n - 1);
    }
  }

  /** One row: the new table and the node for `commit` at `row` (lines 59-142). */
  function Row(t: LaneTable, commit: CommitInfo, row: nat, rowOf: RowIndex): (res: (LaneTable, GraphNode))
    ensures res.1.commit == commit
    ensures res.1.lane < |res.0|
  {
    var found := FindOrAllocate(t, commit.shortOid);
    var lane := found.0;
    var placed := HandleParents(found.1[lane := None], lane, commit.parents, rowOf, |commit.parents|);
    var t4 := Collapse(placed.0, rowOf, row);
    (t4, GraphNode(commit, lane, placed.1, PassThrough(t4, lane, |t4|)))
  }

  /** The table and the nodes after the first `n` rows. */
  function LayoutUpTo(commits: seq<CommitInfo>, rowOf: RowIndex, n: nat): (res: (LaneTable, seq<GraphNode>))
    requires n <= |commits|
    ensures |res.1| == n
    ensures forall i :: 0 <= i < n ==> res.1[i].commit == commits[i]
    decreases n
  {
    if n == 0 then ([], [])
    else
      var before := LayoutUpTo(commits, rowOf, n - 1);
      var next := Row(before.0, commits[n - 1], n - 1, rowOf);
      var nodes := before.1 + [next.1];
      assert forall i :: 0 <= i < n - 1 ==> nodes[i] == before.1[i];
      (next.0, nodes)
  }

  // ---------------------------------------------------------------------------
  // laneCount

  /** The table length once trailing free slots are dropped (lines 146-149). */
  function Trimmed(t: LaneTable): (n: nat)
    ensures n <= |t|
    ensures forall j :: n <= j < |t| ==> t[j] == None
    ensures n > 0 ==> t[n - 1] != None
  {
    if t == [] then 0
    else if t[|t| - 1] == None then Trimmed(t[..|t| - 1])
    else |t|
  }

  /** `Math.max(0, ...nodes.map(n => n.lane))` (line 151). */
  function MaxLane(nodes: seq<GraphNode>): (m: nat)
    ensures forall i :: 0 <= i < |nodes| ==> nodes[i].lane <= m
    ensures nodes == [] ==> m == 0
    ensures nodes != [] ==> exists i :: 0 <= i < |nodes| && nodes[i].lane == m
  {
    if nodes == [] then 0
    else
      var m := MaxLane(nodes[..|nodes| - 1]);
      var last := nodes[|nodes| - 1].lane;
      assert forall i :: 0 <= i < |nodes| - 1 ==> nodes[..|nodes| - 1][i] == nodes[i];
      if last > m then last else m
  }

  /** `laneCount` (lines 146-152): the trimmed table length, raised to the largest node lane + 1. */
  function LaneCount(t: LaneTable, nodes: seq<GraphNode>): (c: nat)
    ensures c >= 1 && c >= Trimmed(t)
    ensures forall i :: 0 <= i < |nodes| ==> nodes[i].lane < c
    ensures c == Trimmed(t) || c == MaxLane(nodes) + 1
  {
    var m := MaxLane(nodes);
    if Trimmed(t) > m + 1 then Trimmed(t) else m + 1
  }

  /** The layout the source returns: one node per commit, in row order, and the lane count. */
  function Layout(commits: seq<CommitInfo>): (r: (seq<GraphNode>, nat))
    ensures |r.0| == |commits|
    ensures forall i :: 0 <= i < |commits| ==> r.0[i].commit == commits[i] && r.0[i].lane < r.1
    ensures r.1 >= 1
  {
    var final := LayoutUpTo(commits, RowsOf(commits), |commits|);
    (final.1, LaneCount(final.0, final.1))
  }

  // ---------------------------------------------------------------------------
  // The imperative algorithm

  /** `computeGraph`, step by step as the source does it. */
  method ComputeGraph(commits: seq<CommitInfo>) returns (nodes: seq<GraphNode>, laneCount: nat)
    ensures nodes == Layout(commits).0
    ensures laneCount == Layout(commits).1
  {
    var oidToRow := BuildRowIndex(commits);
    var activeLanes;
    activeLanes, nodes := PlaceRows(commits, oidToRow);
    laneCount := CountLanes(activeLanes, nodes);
  }

  /** The row loop (lines 58-143): every commit placed in turn. */
  method PlaceRows(commits: seq<CommitInfo>, oidToRow: RowIndex) returns (activeLanes: LaneTable, nodes: seq<GraphNode>)
    ensures activeLanes == LayoutUpTo(commits, oidToRow, |commits|).0
    ensures nodes == LayoutUpTo(commits, oidToRow, |commits|).1
  {
    activeLanes := [];
    nodes := [];
    for row := 0 to |commits|
      invariant activeLanes == LayoutUpTo(commits, oidToRow, row).0
      invariant nodes == LayoutUpTo(commits, oidToRow, row).1
    {
      LayoutUpToStep(commits, oidToRow, row + 1);
      var node;
      activeLanes, node := ProcessRow(activeLanes, commits[row], row, oidToRow);
      nodes := nodes + [node];
    }
  }

  /** Lines 146-152: the trimmed table length, raised to one past the largest node lane. */
  method CountLanes(activeLanes: LaneTable, nodes: seq<GraphNode>) returns (laneCount: nat)
    ensures laneCount == LaneCount(activeLanes, nodes)
  {
    // Trailing free lanes do not count.
    laneCount := TrimmedLength(activeLanes);
    var maxUsed := MaxLane(nodes);
    laneCount := if laneCount > maxUsed + 1 then laneCount else maxUsed + 1;
  }

  /** The table and the nodes after `n` rows, one row further than after `n - 1`. */
  lemma LayoutUpToStep(commits: seq<CommitInfo>, rowOf: RowIndex, n: nat)
    requires 0 < n <= |commits|
    ensures var before := LayoutUpTo(commits, rowOf, n - 1);
      var next := Row(before.0, commits[n - 1], n - 1, rowOf);
      && LayoutUpTo(commits, rowOf, n).0 == next.0
      && LayoutUpTo(commits, rowOf, n).1 == before.1 + [next.1]
  {
  }

  /** `commits.forEach((c, i) => oidToRow.set(c.short_oid, i))` (line 54). */
  method BuildRowIndex(commits: seq<CommitInfo>) returns (oidToRow: RowIndex)
    ensures oidToRow == RowsOf(commits)
  {
    oidToRow := map[];
    for i := 0 to |commits|
      invariant oidToRow == RowsOf(commits[..i])
    {
      assert commits[..i + 1][..i] == commits[..i];
      oidToRow := oidToRow[commits[i].shortOid := i];
    }
    assert commits[..|commits|] == commits;
  }

  /** The trimming loop of lines 146-149. */
  method TrimmedLength(activeLanes: LaneTable) returns (laneCount: nat)
    ensures laneCount == Trimmed(activeLanes)
  {
    laneCount := |activeLanes|;
    while laneCount > 0 && activeLanes[laneCount - 1] == None
      invariant 0 <= laneCount <= |activeLanes|
      invariant forall j :: laneCount <= j < |activeLanes| ==> activeLanes[j] == None
    {
      laneCount := laneCount - 1;
    }
    TrimmedUnique(activeLanes, laneCount);
  }

  /** The body of the row loop (lines 59-142): place `commit` at `row`. */
  method ProcessRow(lanes: LaneTable, commit: CommitInfo, row: nat, oidToRow: RowIndex)
    returns (activeLanes: LaneTable, node: GraphNode)
    ensures activeLanes == Row(lanes, commit, row, oidToRow).0
    ensures node == Row(lanes, commit, row, oidToRow).1
  {
    activeLanes := lanes;
    var shortOid := commit.shortOid;

    // 1. The commit's lane.
    var found := IndexOf(activeLanes, Some(shortOid));
    var lane: nat;
    if found == -1 {
      var free := IndexOf(activeLanes, None);
      if free == -1 {
        lane := |activeLanes|;
        activeLanes := activeLanes + [None];
      } else {
        lane := free;
      }
    } else {
      lane := found;
    }
    assert (lane, activeLanes) == FindOrAllocate(lanes, shortOid);
    activeLanes := activeLanes[lane := None];

    // 2. Parents; 3. collapse; 4. pass-through lanes.
    var edges;
    activeLanes, edges := PlaceParents(activeLanes, lane, commit.parents, oidToRow);
    activeLanes := CollapseLanes(activeLanes, oidToRow, row);
    var passThroughLanes := PassThroughLanes(activeLanes, lane);

    node := GraphNode(commit, lane, edges, passThroughLanes);
  }

  /** The table and the edges after `k` parents, one step further than after `k - 1`. */
  lemma HandleParentsStep(t: LaneTable, lane: nat, parents: seq<string>, rowOf: RowIndex, k: nat)
    requires lane < |t| && 0 < k <= |parents|
    ensures var before := HandleParents(t, lane, parents, rowOf, k - 1);
      var step := ParentStep(before.0, lane, k - 1, parents[k - 1], rowOf);
      && HandleParents(t, lane, parents, rowOf, k).0 == step.0
      && HandleParents(t, lane, parents, rowOf, k).1 == before.1 + step.1
  {
  }

  /** The loop over a commit's parents (lines 80-118), on the table whose slot `lane` was just cleared. */
  method PlaceParents(lanes: LaneTable, lane: nat, parents: seq<string>, oidToRow: RowIndex)
    returns (activeLanes: LaneTable, edges: seq<GraphEdge>)
    requires lane < |lanes|
    ensures activeLanes == HandleParents(lanes, lane, parents, oidToRow, |parents|).0
    ensures edges == HandleParents(lanes, lane, parents, oidToRow, |parents|).1
  {
    activeLanes := lanes;
    edges := [];
    for pi := 0 to |parents|
      invariant activeLanes == HandleParents(lanes, lane, parents, oidToRow, pi).0
      invariant edges == HandleParents(lanes, lane, parents, oidToRow, pi).1
      invariant lane < |activeLanes|
    {
      HandleParentsStep(lanes, lane, parents, oidToRow, pi + 1);
      activeLanes, edges := PlaceParent(activeLanes, edges, lane, pi, parents[pi], oidToRow);
    }
  }

  /** One turn of the parents loop (lines 81-117): parent number `pi`, named `parentShort`. */
  method PlaceParent(lanes: LaneTable, edges: seq<GraphEdge>, lane: nat, pi: nat, parentShort: string, oidToRow: RowIndex)
    returns (activeLanes: LaneTable, newEdges: seq<GraphEdge>)
    requires lane < |lanes|
    ensures activeLanes == ParentStep(lanes, lane, pi, parentShort, oidToRow).0
    ensures newEdges == edges + ParentStep(lanes, lane, pi, parentShort, oidToRow).1
  {
    activeLanes := lanes;
    newEdges := edges;
    if pi == 0 {
      // First parent: continue in the same lane.
      activeLanes := activeLanes[lane := Some(parentShort)];
      if parentShort in oidToRow {
        newEdges := newEdges + [GraphEdge(lane, lane, oidToRow[parentShort], ColorForLane(lane))];
      }
    } else {
      // Merge parent: a lane already waiting on it, or a new one.
      var parentLane := IndexOf(activeLanes, Some(parentShort));
      if parentLane == -1 {
        parentLane := IndexOf(activeLanes, None);
        if parentLane == -1 {
          parentLane := |activeLanes|;
          activeLanes := activeLanes + [None];
        }
        activeLanes := activeLanes[parentLane := Some(parentShort)];
      }
      if parentShort in oidToRow {
        newEdges := newEdges + [GraphEdge(lane, parentLane, oidToRow[parentShort], ColorForLane(parentLane))];
      }
    }
  }

  /** The collapse loop (lines 123-131), freeing slots in place. */
  method CollapseLanes(lanes: LaneTable, oidToRow: RowIndex, row: nat) returns (activeLanes: LaneTable)
    ensures activeLanes == Collapse(lanes, oidToRow, row)
  {
    activeLanes := lanes;
    var i := 0;
    while i < |activeLanes|
      invariant 0 <= i <= |activeLanes| == |lanes|
      invariant forall j :: 0 <= j < i ==> activeLanes[j] == Collapse(lanes, oidToRow, row)[j]
      invariant forall j :: i <= j < |activeLanes| ==> activeLanes[j] == lanes[j]
    {
      var expected := activeLanes[i];
      if expected != None {
        if expected.value in oidToRow && oidToRow[expected.value] <= row {
          activeLanes := activeLanes[i := None];
        }
      }
      i := i + 1;
    }
  }

  /** The pass-through loop (lines 135-140). */
  method PassThroughLanes(activeLanes: LaneTable, lane: nat) returns (passThroughLanes: seq<nat>)
    ensures passThroughLanes == PassThrough(activeLanes, lane, |activeLanes|)
  {
    passThroughLanes := [];
    for i := 0 to |activeLanes|
      invariant passThroughLanes == PassThrough(activeLanes, lane, i)
    {
      if activeLanes[i] != None && i != lane {
        passThroughLanes := passThroughLanes + [i];
      }
    }
  }

  /** `Trimmed` is the only length with a non-free last slot and only free slots after it. */
  lemma TrimmedUnique(t: LaneTable, n: nat)
    requires n <= |t|
    requires forall j :: n <= j < |t| ==> t[j] == None
    requires n > 0 ==> t[n - 1] != None
    ensures n == Trimmed(t)
  {
  }
}
