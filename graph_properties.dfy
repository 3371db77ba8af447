/**
 * What the lane layout of src/components/detail/graph/computeGraph.ts guarantees,
 * proved about the functional description in module ComputeGraph.
 */
module GraphProperties {
  import opened Wrappers
  import opened Models
  import opened ComputeGraph

  // ---------------------------------------------------------------------------
  // Colours

  /** Two lanes get the same colour exactly when they are equal modulo the palette size of ten. */
  lemma ColorsRepeatEveryTen(l1: nat, l2: nat)
    ensures ColorForLane(l1) == ColorForLane(l2) <==> l1 % 10 == l2 % 10
    ensures ColorForLane(l1 + 10) == ColorForLane(l1)
  {
    assert |LaneColors| == 10;
    assert forall i, j :: 0 <= i < j < 10 ==> LaneColors[i] != LaneColors[j];
  }

  // ---------------------------------------------------------------------------
  // Parents of one commit

  /** The rows of the parents among the first `k` that are in the window, in parent order. */
  function ParentRows(parents: seq<string>, rowOf: RowIndex, k: nat): (rows: seq<nat>)
    requires k <= |parents|
    ensures |rows| <= k
  {
    if k == 0 then []
    else
      var p := parents[k - 1];
      ParentRows(parents, rowOf, k - 1) + (if p in rowOf then [rowOf[p]] else [])
  }

  /** A merge step never touches a slot that already waits on something. */
  lemma MergeStepKeepsWaits(t: LaneTable, lane: nat, pi: nat, p: string, rowOf: RowIndex)
    requires lane < |t| && pi > 0
    ensures var t1 := ParentStep(t, lane, pi, p, rowOf).0;
      forall j :: 0 <= j < |t| && t[j] != None ==> t1[j] == t[j]
  {
  }

  /**
   * The node's own slot, which was cleared, holds the first parent once the parents
   * are handled, and stays free for a root commit: merge parents never take it.
   */
  lemma {:induction false} FirstParentSlot(t: LaneTable, lane: nat, parents: seq<string>, rowOf: RowIndex, k: nat)
    requires lane < |t| && t[lane] == None && k <= |parents|
    ensures HandleParents(t, lane, parents, rowOf, k).0[lane] == if k == 0 then None else Some(parents[0])
  {
    if k > 1 {
      FirstParentSlot(t, lane, parents, rowOf, k - 1);
      var t1 := HandleParents(t, lane, parents, rowOf, k - 1).0;
      MergeStepKeepsWaits(t1, lane, k - 1, parents[k - 1], rowOf);
    }
  }

  /** A parent step draws one edge, to the parent's row, exactly when the parent is in the window. */
  lemma StepEdgeRow(t: LaneTable, lane: nat, pi: nat, p: string, rowOf: RowIndex)
    requires lane < |t|
    ensures var es := ParentStep(t, lane, pi, p, rowOf).1;
      && |es| == (if p in rowOf then 1 else 0)
      && (p in rowOf ==> es[0].toRow == rowOf[p])
  {
  }

  /** One edge per parent in the window, in parent order. */
  lemma {:induction false} ParentEdgeRows(t: LaneTable, lane: nat, parents: seq<string>, rowOf: RowIndex, k: nat)
    requires lane < |t| && k <= |parents|
    ensures var es := HandleParents(t, lane, parents, rowOf, k).1;
      && |es| == |ParentRows(parents, rowOf, k)|
      && forall i :: 0 <= i < |es| ==> es[i].toRow == ParentRows(parents, rowOf, k)[i]
  {
    if k > 0 {
      ParentEdgeRows(t, lane, parents, rowOf, k - 1);
      HandleParentsStep(t, lane, parents, rowOf, k);
      var before := HandleParents(t, lane, parents, rowOf, k - 1);
      StepEdgeRow(before.0, lane, k - 1, parents[k - 1], rowOf);
    }
  }

  /**
   * Every edge leaves the node's lane, is coloured by its target lane, and ends in a
   * slot that waits on a parent in the window whose row is the edge's target row.
   */
  predicate EdgesLand(t: LaneTable, es: seq<GraphEdge>, lane: nat, rowOf: RowIndex)
  {
    forall e :: e in es ==>
      && e.fromLane == lane && e.toLane < |t| && e.color == ColorForLane(e.toLane)
      && t[e.toLane].Some? && t[e.toLane].value in rowOf && rowOf[t[e.toLane].value] == e.toRow
  }

  /** One parent step keeps every edge landing on its waiting slot, and its own edge lands too. */
  lemma ParentStepLands(t: LaneTable, es: seq<GraphEdge>, lane: nat, pi: nat, p: string, rowOf: RowIndex)
    requires lane < |t| && EdgesLand(t, es, lane, rowOf)
    requires pi == 0 ==> es == []
    ensures var step := ParentStep(t, lane, pi, p, rowOf);
      EdgesLand(step.0, es + step.1, lane, rowOf)
  {
    if pi > 0 {
      MergeStepKeepsWaits(t, lane, pi, p, rowOf);
    }
  }

  /** Every edge of a commit lands on a slot waiting on a parent whose row is the edge's row. */
  lemma {:induction false} ParentEdgeTargets(t: LaneTable, lane: nat, parents: seq<string>, rowOf: RowIndex, k: nat)
    requires lane < |t| && k <= |parents|
    ensures EdgesLand(HandleParents(t, lane, parents, rowOf, k).0, HandleParents(t, lane, parents, rowOf, k).1, lane, rowOf)
  {
    if k > 0 {
      ParentEdgeTargets(t, lane, parents, rowOf, k - 1);
      HandleParentsStep(t, lane, parents, rowOf, k);
      var before := HandleParents(t, lane, parents, rowOf, k - 1);
      ParentStepLands(before.0, before.1, lane, k - 1, parents[k - 1], rowOf);
    }
  }

  /** The first parent's edge, when that parent is in the window, stays in the node's lane. */
  lemma {:induction false} FirstParentEdge(t: LaneTable, lane: nat, parents: seq<string>, rowOf: RowIndex, k: nat)
    requires lane < |t| && 0 < k <= |parents| && parents[0] in rowOf
    ensures var es := HandleParents(t, lane, parents, rowOf, k).1;
      |es| > 0 && es[0] == GraphEdge(lane, lane, rowOf[parents[0]], ColorForLane(lane))
  {
    HandleParentsStep(t, lane, parents, rowOf, k);
    if k > 1 {
      FirstParentEdge(t, lane, parents, rowOf, k - 1);
    }
  }

  /** Handling `k` parents adds at most `k - 1` slots: only merge parents can append. */
  lemma {:induction false} ParentsGrowth(t: LaneTable, lane: nat, parents: seq<string>, rowOf: RowIndex, k: nat)
    requires lane < |t| && k <= |parents|
    ensures |HandleParents(t, lane, parents, rowOf, k).0| <= |t| + (if k == 0 then 0 else k - 1)
  {
    if k > 0 {
      ParentsGrowth(t, lane, parents, rowOf, k - 1);
    }
  }

  // ---------------------------------------------------------------------------
  // One row

  /** A row grows the table by at most `max(1, |parents|)` slots. */
  lemma RowGrowth(t: LaneTable, c: CommitInfo, row: nat, rowOf: RowIndex)
    ensures |Row(t, c, row, rowOf).0| <= |t| + (if |c.parents| > 1 then |c.parents| else 1)
  {
    var (lane, t1) := FindOrAllocate(t, c.shortOid);
    ParentsGrowth(t1[lane := None], lane, c.parents, rowOf, |c.parents|);
  }

  /**
   * After a row, the node's slot is free for a root commit, and otherwise waits on the
   * first parent unless that parent sits at or above the row.
   */
  lemma RowFirstParent(t: LaneTable, c: CommitInfo, row: nat, rowOf: RowIndex)
    ensures var (t4, node) := Row(t, c, row, rowOf);
      && (c.parents == [] ==> t4[node.lane] == None)
      && (c.parents != [] && (c.parents[0] !in rowOf || rowOf[c.parents[0]] > row) ==>
            t4[node.lane] == Some(c.parents[0]))
  {
    var (lane, t1) := FindOrAllocate(t, c.shortOid);
    FirstParentSlot(t1[lane := None], lane, c.parents, rowOf, |c.parents|);
  }

  /** The node's edges: one per parent in the window, from the node's lane, in parent order. */
  lemma RowEdges(t: LaneTable, c: CommitInfo, row: nat, rowOf: RowIndex)
    ensures var node := Row(t, c, row, rowOf).1;
      && |node.edges| == |ParentRows(c.parents, rowOf, |c.parents|)|
      && (forall i :: 0 <= i < |node.edges| ==> node.edges[i].toRow == ParentRows(c.parents, rowOf, |c.parents|)[i])
      && (forall e :: e in node.edges ==> e.fromLane == node.lane && e.color == ColorForLane(e.toLane))
      && (c.parents != [] && c.parents[0] in rowOf ==>
            |node.edges| > 0 && node.edges[0] == GraphEdge(node.lane, node.lane, rowOf[c.parents[0]], ColorForLane(node.lane)))
  {
    var (lane, t1) := FindOrAllocate(t, c.shortOid);
    var t2 := t1[lane := None];
    ParentEdgeRows(t2, lane, c.parents, rowOf, |c.parents|);
    ParentEdgeTargets(t2, lane, c.parents, rowOf, |c.parents|);
    if c.parents != [] && c.parents[0] in rowOf {
      FirstParentEdge(t2, lane, c.parents, rowOf, |c.parents|);
    }
  }

  /** No slot waits on a commit at or above a row once that row is laid out. */
  lemma {:induction false} NoSettledWaits(commits: seq<CommitInfo>, rowOf: RowIndex, n: nat)
    requires 0 < n <= |commits|
    ensures forall j :: 0 <= j < |LayoutUpTo(commits, rowOf, n).0| ==>
      !Settled(LayoutUpTo(commits, rowOf, n).0[j], rowOf, n - 1)
  {
    var (t, nodes) := LayoutUpTo(commits, rowOf, n - 1);
    var (lane, t1) := FindOrAllocate(t, commits[n - 1].shortOid);
    var t3 := HandleParents(t1[lane := None], lane, commits[n - 1].parents, rowOf, |commits[n - 1].parents|).0;
    assert LayoutUpTo(commits, rowOf, n).0 == Collapse(t3, rowOf, n - 1);
  }

  // ---------------------------------------------------------------------------
  // Whole layouts

  /** A linear history: each commit's only parent is the next row, and the last commit is a root or its parent is outside the window. */
  predicate LinearChain(commits: seq<CommitInfo>)
  {
    && (forall i, j :: 0 <= i < j < |commits| ==> commits[i].shortOid != commits[j].shortOid)
    && (forall i :: 0 <= i < |commits| - 1 ==> commits[i].parents == [commits[i + 1].shortOid])
    && (|commits| > 0 ==>
          var last := commits[|commits| - 1];
          |last.parents| <= 1 &&
          forall j :: 0 <= j < |commits| && last.parents != [] ==> last.parents[0] != commits[j].shortOid)
  }

  /**
   * A row whose commit is the only thing the table waits for (or the table is empty),
   * with at most one parent that lies below the row or outside the window, stays in
   * lane 0 and leaves the table as one slot waiting on that parent.
   */
  lemma ChainRow(t: LaneTable, c: CommitInfo, row: nat, rowOf: RowIndex)
    requires t == [] || t == [Some(c.shortOid)]
    requires |c.parents| <= 1
    requires c.parents != [] ==> c.parents[0] !in rowOf || rowOf[c.parents[0]] > row
    ensures Row(t, c, row, rowOf).1.lane == 0
    ensures Row(t, c, row, rowOf).0 == [if c.parents == [] then None else Some(c.parents[0])]
  {
    var (lane, t1) := FindOrAllocate(t, c.shortOid);
    assert lane == 0 && |t1| == 1;
    var t2 := t1[lane := None];
    assert t2 == [None];
    var t3 := HandleParents(t2, 0, c.parents, rowOf, |c.parents|).0;
    if c.parents != [] {
      HandleParentsStep(t2, 0, c.parents, rowOf, 1);
      assert t3 == [Some(c.parents[0])];
    }
  }

  /** In a linear history every id names exactly its own row. */
  lemma ChainRowIndex(commits: seq<CommitInfo>, n: nat)
    requires LinearChain(commits) && n < |commits|
    ensures commits[n].shortOid in RowsOf(commits)
    ensures RowsOf(commits)[commits[n].shortOid] == n
  {
    RowsOfKeys(commits);
    RowsOfLastRow(commits);
  }

  /** The oldest commit's parent, if any, lies outside the window. */
  lemma ChainLastParent(commits: seq<CommitInfo>)
    requires LinearChain(commits) && |commits| > 0
    requires commits[|commits| - 1].parents != []
    ensures commits[|commits| - 1].parents[0] !in RowsOf(commits)
  {
    RowsOfKeys(commits);
  }

  /** Every node sits in lane 0. */
  predicate AllInLaneZero(nodes: seq<GraphNode>)
  {
    forall i :: 0 <= i < |nodes| ==> nodes[i].lane == 0
  }

  /**
   * The chain argument over any row index that places every commit at its own
   * row and the oldest commit's parent outside the window.
   */
  lemma {:induction false} ChainTable(commits: seq<CommitInfo>, rowOf: RowIndex, n: nat)
    requires 0 < n <= |commits|
    requires forall i :: 0 <= i < |commits| - 1 ==> commits[i].parents == [commits[i + 1].shortOid]
    requires forall i :: 0 < i < |commits| ==> commits[i].shortOid in rowOf && rowOf[commits[i].shortOid] == i
    requires |commits[|commits| - 1].parents| <= 1
    requires commits[|commits| - 1].parents != [] ==> commits[|commits| - 1].parents[0] !in rowOf
    ensures |LayoutUpTo(commits, rowOf, n).0| == 1
    ensures n < |commits| ==> LayoutUpTo(commits, rowOf, n).0[0] == Some(commits[n].shortOid)
    ensures AllInLaneZero(LayoutUpTo(commits, rowOf, n).1)
  {
    var c := commits[n - 1];
    var (t, nodes) := LayoutUpTo(commits, rowOf, n - 1);
    if n > 1 {
      ChainTable(commits, rowOf, n - 1);
    }
    if n < |commits| {
      assert c.parents == [commits[n].shortOid];
    }
    assert t == [] || t == [Some(c.shortOid)];
    ChainRow(t, c, n - 1, rowOf);
    var (t1, node) := Row(t, c, n - 1, rowOf);
    assert LayoutUpTo(commits, rowOf, n) == (t1, nodes + [node]);
  }

  /** In a linear history, after `n` rows the table is one slot waiting on the next row's commit. */
  lemma LinearChainTable(commits: seq<CommitInfo>, n: nat)
    requires LinearChain(commits) && 0 < n <= |commits|
    ensures |LayoutUpTo(commits, RowsOf(commits), n).0| == 1
    ensures n < |commits| ==> LayoutUpTo(commits, RowsOf(commits), n).0[0] == Some(commits[n].shortOid)
    ensures AllInLaneZero(LayoutUpTo(commits, RowsOf(commits), n).1)
  {
    var rowOf := RowsOf(commits);
    forall i | 0 < i < |commits|
      ensures commits[i].shortOid in rowOf && rowOf[commits[i].shortOid] == i
    {
      ChainRowIndex(commits, i);
    }
    if commits[|commits| - 1].parents != [] {
      ChainLastParent(commits);
    }
    ChainTable(commits, rowOf, n);
  }

  /** A linear history is laid out in lane 0 with a lane count of one. */
  lemma LinearChainLayout(commits: seq<CommitInfo>)
    requires LinearChain(commits)
    ensures forall i :: 0 <= i < |commits| ==> Layout(commits).0[i].lane == 0
    ensures Layout(commits).1 == 1
  {
    if |commits| > 0 {
      var rowOf := RowsOf(commits);
      LinearChainTable(commits, |commits|);
      var (t, nodes) := LayoutUpTo(commits, rowOf, |commits|);
      assert MaxLane(nodes) == 0;
      assert Trimmed(t) <= 1;
      assert LaneCount(t, nodes) == 1;
    }
  }
}
