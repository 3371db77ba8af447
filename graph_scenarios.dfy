/**
 * Small histories worked through the lane layout of
 * src/components/detail/graph/computeGraph.ts, row by row.
 */
module GraphScenarios {
  import opened Wrappers
  import opened Models
  import opened ComputeGraph

  /** A commit with abbreviated id `id` and the given parents; the other fields do not matter to the layout. */
  function Commit(id: string, parents: seq<string>): (c: CommitInfo)
    ensures c.shortOid == id && c.parents == parents
  {
    CommitInfo(id, id, "", "", "", "", parents, [])
  }

  /** The commits have the given abbreviated ids and parents, in order. */
  predicate Shaped(commits: seq<CommitInfo>, shape: seq<(string, seq<string>)>)
  {
    && |commits| == |shape|
    && forall i :: 0 <= i < |shape| ==> commits[i].shortOid == shape[i].0 && commits[i].parents == shape[i].1
  }

  /** An empty log has no nodes and still reserves one lane. */
  lemma EmptyLog()
    ensures Layout([]) == ([], 1)
  {
  }

  /** Row indices of a three-commit log with distinct ids. */
  lemma RowsOfThree(x: CommitInfo, y: CommitInfo, z: CommitInfo)
    requires x.shortOid != y.shortOid && y.shortOid != z.shortOid && x.shortOid != z.shortOid
    ensures RowsOf([x, y, z]) == map[x.shortOid := 0, y.shortOid := 1, z.shortOid := 2]
  {
    assert [x, y, z][..2] == [x, y];
    assert [x, y][..1] == [x];
    assert [x][..0] == [];
    assert RowsOf([x]) == map[x.shortOid := 0];
    assert RowsOf([x, y]) == map[x.shortOid := 0, y.shortOid := 1];
  }

  /** Row 0 of A(B,C) with B and C at rows 1 and 2: A opens lane 0, B waits there and C gets a new lane 1. */
  lemma MergeRow0(c: CommitInfo, rowOf: RowIndex)
    requires "B" in rowOf && rowOf["B"] == 1 && "C" in rowOf && rowOf["C"] == 2
    requires c.shortOid == "A" && c.parents == ["B", "C"]
    ensures var (t, node) := Row([], c, 0, rowOf);
      && t == [Some("B"), Some("C")] && node.lane == 0 && node.passThroughLanes == [1]
      && node.edges == [GraphEdge(0, 0, 1, ColorForLane(0)), GraphEdge(0, 1, 2, ColorForLane(1))]
  {
    var ps := ["B", "C"];
    var fa := FindOrAllocate([], "A");
    assert fa.0 == 0 && fa.1 == [None];
    var t2 := fa.1[0 := None];
    var h1 := HandleParents(t2, 0, ps, rowOf, 1);
    assert h1.0 == [Some("B")] && h1.1 == [GraphEdge(0, 0, 1, ColorForLane(0))];
    var m := MergeLane(h1.0, "C");
    assert m.0 == 1 && m.1 == [Some("B"), Some("C")];
    var h2 := HandleParents(t2, 0, ps, rowOf, 2);
    assert h2.0 == [Some("B"), Some("C")];
    assert h2.1 == [GraphEdge(0, 0, 1, ColorForLane(0)), GraphEdge(0, 1, 2, ColorForLane(1))];
    var t4 := Collapse(h2.0, rowOf, 0);
    assert t4 == [Some("B"), Some("C")];
    assert PassThrough(t4, 0, 1) == [];
    assert PassThrough(t4, 0, 2) == [1];
  }

  /** Row 1: B resolves to lane 0 and its first parent C is stored there although lane 1 already waits on C. */
  lemma DuplicateWaitsRow1(c: CommitInfo, rowOf: RowIndex)
    requires rowOf == map["A" := 0, "B" := 1, "C" := 2]
    requires c.shortOid == "B" && c.parents == ["C"]
    ensures var (t, node) := Row([Some("B"), Some("C")], c, 1, rowOf);
      && t == [Some("C"), Some("C")] && node.lane == 0 && node.passThroughLanes == [1]
      && node.edges == [GraphEdge(0, 0, 2, ColorForLane(0))]
  {
    var t: LaneTable := [Some("B"), Some("C")];
    assert IndexOf(t, Some("B")) == 0;
    var fa := FindOrAllocate(t, "B");
    assert fa.0 == 0 && fa.1 == t;
    var t2 := t[0 := None];
    assert t2 == [None, Some("C")];
    var h := HandleParents(t2, 0, ["C"], rowOf, 1);
    assert h.0 == [Some("C"), Some("C")] && h.1 == [GraphEdge(0, 0, 2, ColorForLane(0))];
    var t4 := Collapse(h.0, rowOf, 1);
    assert t4 == [Some("C"), Some("C")];
    assert PassThrough(t4, 0, 1) == [];
    assert PassThrough(t4, 0, 2) == [1];
  }

  /** Row 2: C resolves to lane 0 and the collapse frees both slots. */
  lemma DuplicateWaitsRow2(c: CommitInfo, rowOf: RowIndex)
    requires rowOf == map["A" := 0, "B" := 1, "C" := 2]
    requires c.shortOid == "C" && c.parents == []
    ensures var (t, node) := Row([Some("C"), Some("C")], c, 2, rowOf);
      && t == [None, None] && node.lane == 0 && node.edges == [] && node.passThroughLanes == []
  {
    var t: LaneTable := [Some("C"), Some("C")];
    assert IndexOf(t, Some("C")) == 0;
    var fa := FindOrAllocate(t, "C");
    assert fa.0 == 0 && fa.1 == t;
    var t2 := t[0 := None];
    assert t2 == [None, Some("C")];
    var t4 := Collapse(t2, rowOf, 2);
    assert t4 == [None, None];
    assert PassThrough(t4, 0, 1) == [];
    assert PassThrough(t4, 0, 2) == [];
  }

  /** The three rows of A(B,C), B(C), C under their row index. */
  lemma DuplicateWaitsRows(commits: seq<CommitInfo>, rowOf: RowIndex)
    requires Shaped(commits, [("A", ["B", "C"]), ("B", ["C"]), ("C", [])])
    requires rowOf == map["A" := 0, "B" := 1, "C" := 2]
    ensures LayoutUpTo(commits, rowOf, 2).0 == [Some("C"), Some("C")]
    ensures var (t, nodes) := LayoutUpTo(commits, rowOf, 3);
      && t == [None, None]
      && nodes[0].edges[1] == GraphEdge(0, 1, 2, ColorForLane(1))
      && nodes[1].passThroughLanes == [1]
      && LaneCount(t, nodes) == 1
  {
    MergeRow0(commits[0], rowOf);
    DuplicateWaitsRow1(commits[1], rowOf);
    DuplicateWaitsRow2(commits[2], rowOf);
    LayoutUpToStep(commits, rowOf, 1);
    LayoutUpToStep(commits, rowOf, 2);
    LayoutUpToStep(commits, rowOf, 3);
    var l3 := LayoutUpTo(commits, rowOf, 3);
    assert MaxLane(l3.1) == 0;
    assert Trimmed(l3.0) == 0;
  }

  /**
   * A(B,C), B(C), C: the first-parent store of B leaves two slots waiting on C,
   * A's merge edge goes to lane 1 and B's row passes lane 1 through, yet the lane count is 1.
   */
  lemma DuplicateWaits()
    ensures var commits := [Commit("A", ["B", "C"]), Commit("B", ["C"]), Commit("C", [])];
      && LayoutUpTo(commits, RowsOf(commits), 2).0 == [Some("C"), Some("C")]
      && Layout(commits).0[0].edges[1] == GraphEdge(0, 1, 2, ColorForLane(1))
      && Layout(commits).0[1].passThroughLanes == [1]
      && Layout(commits).1 == 1
  {
    var a, b, c := Commit("A", ["B", "C"]), Commit("B", ["C"]), Commit("C", []);
    var commits := [a, b, c];
    RowsOfThree(a, b, c);
    var rowOf := RowsOf(commits);
    DuplicateWaitsRows(commits, rowOf);
  }

  /** Row indices of a four-commit log with distinct ids. */
  lemma RowsOfFour(w: CommitInfo, x: CommitInfo, y: CommitInfo, z: CommitInfo)
    requires w.shortOid !in {x.shortOid, y.shortOid, z.shortOid}
    requires x.shortOid != y.shortOid && y.shortOid != z.shortOid && x.shortOid != z.shortOid
    ensures RowsOf([w, x, y, z]) == map[w.shortOid := 0, x.shortOid := 1, y.shortOid := 2, z.shortOid := 3]
  {
    RowsOfThree(w, x, y);
    assert [w, x, y, z][..3] == [w, x, y];
    assert RowsOf([w, x, y, z]) == RowsOf([w, x, y])[z.shortOid := 3];
  }

  /** Row 1 of A(B,C), B(D), C(D), D: B keeps lane 0 and waits on D there. */
  lemma ConvergeRow1(c: CommitInfo, rowOf: RowIndex)
    requires rowOf == map["A" := 0, "B" := 1, "C" := 2, "D" := 3]
    requires c.shortOid == "B" && c.parents == ["D"]
    ensures var (t, node) := Row([Some("B"), Some("C")], c, 1, rowOf);
      && t == [Some("D"), Some("C")] && node.lane == 0 && node.passThroughLanes == [1]
      && node.edges == [GraphEdge(0, 0, 3, ColorForLane(0))]
  {
    var t: LaneTable := [Some("B"), Some("C")];
    assert IndexOf(t, Some("B")) == 0;
    var fa := FindOrAllocate(t, "B");
    assert fa.0 == 0 && fa.1 == t;
    var t2 := t[0 := None];
    assert t2 == [None, Some("C")];
    var h := HandleParents(t2, 0, ["D"], rowOf, 1);
    assert h.0 == [Some("D"), Some("C")] && h.1 == [GraphEdge(0, 0, 3, ColorForLane(0))];
    var t4 := Collapse(h.0, rowOf, 1);
    assert t4 == [Some("D"), Some("C")];
    assert PassThrough(t4, 0, 1) == [];
    assert PassThrough(t4, 0, 2) == [1];
  }

  /** Row 2: C resolves to lane 1 and stores D there as well, so its edge stays in lane 1. */
  lemma ConvergeRow2(c: CommitInfo, rowOf: RowIndex)
    requires rowOf == map["A" := 0, "B" := 1, "C" := 2, "D" := 3]
    requires c.shortOid == "C" && c.parents == ["D"]
    ensures var (t, node) := Row([Some("D"), Some("C")], c, 2, rowOf);
      && t == [Some("D"), Some("D")] && node.lane == 1 && node.passThroughLanes == [0]
      && node.edges == [GraphEdge(1, 1, 3, ColorForLane(1))]
  {
    var t: LaneTable := [Some("D"), Some("C")];
    assert IndexOf(t, Some("C")) == 1;
    var fa := FindOrAllocate(t, "C");
    assert fa.0 == 1 && fa.1 == t;
    var t2 := t[1 := None];
    assert t2 == [Some("D"), None];
    var h := HandleParents(t2, 1, ["D"], rowOf, 1);
    assert h.0 == [Some("D"), Some("D")] && h.1 == [GraphEdge(1, 1, 3, ColorForLane(1))];
    var t4 := Collapse(h.0, rowOf, 2);
    assert t4 == [Some("D"), Some("D")];
    assert PassThrough(t4, 1, 1) == [0];
    assert PassThrough(t4, 1, 2) == [0];
  }

  /** Row 3: D resolves to the first slot waiting on it, lane 0, and both slots are freed. */
  lemma ConvergeRow3(c: CommitInfo, rowOf: RowIndex)
    requires rowOf == map["A" := 0, "B" := 1, "C" := 2, "D" := 3]
    requires c.shortOid == "D" && c.parents == []
    ensures var (t, node) := Row([Some("D"), Some("D")], c, 3, rowOf);
      && t == [None, None] && node.lane == 0 && node.edges == [] && node.passThroughLanes == []
  {
    var t: LaneTable := [Some("D"), Some("D")];
    assert IndexOf(t, Some("D")) == 0;
    var fa := FindOrAllocate(t, "D");
    assert fa.0 == 0 && fa.1 == t;
    var t2 := t[0 := None];
    assert t2 == [None, Some("D")];
    var t4 := Collapse(t2, rowOf, 3);
    assert t4 == [None, None];
    assert PassThrough(t4, 0, 1) == [];
    assert PassThrough(t4, 0, 2) == [];
  }

  /** The four rows of A(B,C), B(D), C(D), D under their row index. */
  lemma ConvergeRows(commits: seq<CommitInfo>, rowOf: RowIndex)
    requires Shaped(commits, [("A", ["B", "C"]), ("B", ["D"]), ("C", ["D"]), ("D", [])])
    requires rowOf == map["A" := 0, "B" := 1, "C" := 2, "D" := 3]
    ensures var (t, nodes) := LayoutUpTo(commits, rowOf, 4);
      && t == [None, None]
      && nodes[1].edges == [GraphEdge(0, 0, 3, ColorForLane(0))]
      && nodes[2].edges == [GraphEdge(1, 1, 3, ColorForLane(1))]
      && nodes[3].lane == 0
      && LaneCount(t, nodes) == 2
  {
    MergeRow0(commits[0], rowOf);
    ConvergeRow1(commits[1], rowOf);
    ConvergeRow2(commits[2], rowOf);
    ConvergeRow3(commits[3], rowOf);
    LayoutUpToStep(commits, rowOf, 1);
    LayoutUpToStep(commits, rowOf, 2);
    LayoutUpToStep(commits, rowOf, 3);
    LayoutUpToStep(commits, rowOf, 4);
    var nodes := LayoutUpTo(commits, rowOf, 4).1;
    assert MaxLane(nodes) == 1;
  }

  /**
   * A(B,C), B(D), C(D), D: B and C both end up waiting on D in lanes 0 and 1, so the
   * edges into D's row arrive in two different lanes while D is drawn in lane 0; the
   * lane count is 2.
   */
  lemma Converge()
    ensures var commits := [Commit("A", ["B", "C"]), Commit("B", ["D"]), Commit("C", ["D"]), Commit("D", [])];
      var nodes := Layout(commits).0;
      && nodes[1].edges == [GraphEdge(0, 0, 3, ColorForLane(0))]
      && nodes[2].edges == [GraphEdge(1, 1, 3, ColorForLane(1))]
      && nodes[3].lane == 0
      && Layout(commits).1 == 2
  {
    var a, b, c, d := Commit("A", ["B", "C"]), Commit("B", ["D"]), Commit("C", ["D"]), Commit("D", []);
    var commits := [a, b, c, d];
    RowsOfFour(a, b, c, d);
    var rowOf := RowsOf(commits);
    ConvergeRows(commits, rowOf);
  }

  /** Row 0 of A(X), B(C), C with X outside the window: lane 0 waits on X and no edge is drawn. */
  lemma PinnedRow0(c: CommitInfo, rowOf: RowIndex)
    requires rowOf == map["A" := 0, "B" := 1, "C" := 2]
    requires c.shortOid == "A" && c.parents == ["X"]
    ensures var (t, node) := Row([], c, 0, rowOf);
      && t == [Some("X")] && node.lane == 0 && node.edges == [] && node.passThroughLanes == []
  {
    var fa := FindOrAllocate([], "A");
    assert fa.0 == 0 && fa.1 == [None];
    var t2 := fa.1[0 := None];
    var h := HandleParents(t2, 0, ["X"], rowOf, 1);
    assert h.0 == [Some("X")] && h.1 == [];
    var t4 := Collapse(h.0, rowOf, 0);
    assert t4 == [Some("X")];
    assert PassThrough(t4, 0, 1) == [];
  }

  /** Row 1: B is waited on by no slot and none is free, so it opens lane 1 beside the pinned lane 0. */
  lemma PinnedRow1(c: CommitInfo, rowOf: RowIndex)
    requires rowOf == map["A" := 0, "B" := 1, "C" := 2]
    requires c.shortOid == "B" && c.parents == ["C"]
    ensures var (t, node) := Row([Some("X")], c, 1, rowOf);
      && t == [Some("X"), Some("C")] && node.lane == 1 && node.passThroughLanes == [0]
      && node.edges == [GraphEdge(1, 1, 2, ColorForLane(1))]
  {
    var t: LaneTable := [Some("X")];
    assert IndexOf(t, Some("B")) == -1;
    assert IndexOf(t, None) == -1;
    var fa := FindOrAllocate(t, "B");
    assert fa.0 == 1 && fa.1 == [Some("X"), None];
    var t2 := fa.1[1 := None];
    var h := HandleParents(t2, 1, ["C"], rowOf, 1);
    assert h.0 == [Some("X"), Some("C")] && h.1 == [GraphEdge(1, 1, 2, ColorForLane(1))];
    var t4 := Collapse(h.0, rowOf, 1);
    assert t4 == [Some("X"), Some("C")];
    assert PassThrough(t4, 1, 1) == [0];
    assert PassThrough(t4, 1, 2) == [0];
  }

  /** Row 2: C takes lane 1; lane 0 still waits on X and passes through. */
  lemma PinnedRow2(c: CommitInfo, rowOf: RowIndex)
    requires rowOf == map["A" := 0, "B" := 1, "C" := 2]
    requires c.shortOid == "C" && c.parents == []
    ensures var (t, node) := Row([Some("X"), Some("C")], c, 2, rowOf);
      && t == [Some("X"), None] && node.lane == 1 && node.edges == [] && node.passThroughLanes == [0]
  {
    var t: LaneTable := [Some("X"), Some("C")];
    assert IndexOf(t, Some("C")) == 1;
    var fa := FindOrAllocate(t, "C");
    assert fa.0 == 1 && fa.1 == t;
    var t2 := t[1 := None];
    assert t2 == [Some("X"), None];
    var t4 := Collapse(t2, rowOf, 2);
    assert t4 == [Some("X"), None];
    assert PassThrough(t4, 1, 1) == [0];
    assert PassThrough(t4, 1, 2) == [0];
  }

  /** The three rows of A(X), B(C), C under their row index. */
  lemma PinnedRows(commits: seq<CommitInfo>, rowOf: RowIndex)
    requires Shaped(commits, [("A", ["X"]), ("B", ["C"]), ("C", [])])
    requires rowOf == map["A" := 0, "B" := 1, "C" := 2]
    ensures var (t, nodes) := LayoutUpTo(commits, rowOf, 3);
      && t == [Some("X"), None]
      && nodes[0].lane == 0 && nodes[1].lane == 1 && nodes[2].lane == 1
      && nodes[0].edges == []
      && nodes[1].passThroughLanes == [0] && nodes[2].passThroughLanes == [0]
      && LaneCount(t, nodes) == 2
  {
    PinnedRow0(commits[0], rowOf);
    PinnedRow1(commits[1], rowOf);
    PinnedRow2(commits[2], rowOf);
    LayoutUpToStep(commits, rowOf, 1);
    LayoutUpToStep(commits, rowOf, 2);
    LayoutUpToStep(commits, rowOf, 3);
    var l3 := LayoutUpTo(commits, rowOf, 3);
    assert MaxLane(l3.1) == 1;
    assert Trimmed(l3.0) == 1;
  }

  /**
   * A(X), B(C), C with X outside the window: A draws no edge, lane 0 stays pinned and
   * passes through every later row, and the lane count is 2.
   */
  lemma Pinned()
    ensures var commits := [Commit("A", ["X"]), Commit("B", ["C"]), Commit("C", [])];
      var nodes := Layout(commits).0;
      && nodes[0].edges == []
      && nodes[1].passThroughLanes == [0] && nodes[2].passThroughLanes == [0]
      && Layout(commits).1 == 2
  {
    var a, b, c := Commit("A", ["X"]), Commit("B", ["C"]), Commit("C", []);
    var commits := [a, b, c];
    RowsOfThree(a, b, c);
    var rowOf := RowsOf(commits);
    PinnedRows(commits, rowOf);
  }

  /** Row indices of a two-commit log with distinct ids. */
  lemma RowsOfTwo(x: CommitInfo, y: CommitInfo)
    requires x.shortOid != y.shortOid
    ensures RowsOf([x, y]) == map[x.shortOid := 0, y.shortOid := 1]
  {
    assert [x, y][..1] == [x];
    assert [x][..0] == [];
  }

  /** Row 0 of A(B,X), B with X outside the window: B waits in lane 0, X is pinned in a new lane 1 and gets no edge. */
  lemma OutsideMergeRow0(c: CommitInfo, rowOf: RowIndex)
    requires rowOf == map["A" := 0, "B" := 1]
    requires c.shortOid == "A" && c.parents == ["B", "X"]
    ensures var (t, node) := Row([], c, 0, rowOf);
      && t == [Some("B"), Some("X")] && node.lane == 0 && node.passThroughLanes == [1]
      && node.edges == [GraphEdge(0, 0, 1, ColorForLane(0))]
  {
    var ps := ["B", "X"];
    var fa := FindOrAllocate([], "A");
    assert fa.0 == 0 && fa.1 == [None];
    var t2 := fa.1[0 := None];
    var h1 := HandleParents(t2, 0, ps, rowOf, 1);
    assert h1.0 == [Some("B")] && h1.1 == [GraphEdge(0, 0, 1, ColorForLane(0))];
    var m := MergeLane(h1.0, "X");
    assert m.0 == 1 && m.1 == [Some("B"), Some("X")];
    var h2 := HandleParents(t2, 0, ps, rowOf, 2);
    assert h2.0 == [Some("B"), Some("X")];
    assert h2.1 == [GraphEdge(0, 0, 1, ColorForLane(0))];
    var t4 := Collapse(h2.0, rowOf, 0);
    assert t4 == [Some("B"), Some("X")];
    assert PassThrough(t4, 0, 1) == [];
    assert PassThrough(t4, 0, 2) == [1];
  }

  /** Row 1: B resolves to lane 0 and the slot waiting on X stays occupied. */
  lemma OutsideMergeRow1(c: CommitInfo, rowOf: RowIndex)
    requires rowOf == map["A" := 0, "B" := 1]
    requires c.shortOid == "B" && c.parents == []
    ensures var (t, node) := Row([Some("B"), Some("X")], c, 1, rowOf);
      && t == [None, Some("X")] && node.lane == 0 && node.edges == [] && node.passThroughLanes == [1]
  {
    var t: LaneTable := [Some("B"), Some("X")];
    assert IndexOf(t, Some("B")) == 0;
    var fa := FindOrAllocate(t, "B");
    assert fa.0 == 0 && fa.1 == t;
    var t2 := t[0 := None];
    assert t2 == [None, Some("X")];
    var t4 := Collapse(t2, rowOf, 1);
    assert t4 == [None, Some("X")];
    assert PassThrough(t4, 0, 1) == [];
    assert PassThrough(t4, 0, 2) == [1];
  }

  /**
   * A(B,X), B with X outside the window: both commits are drawn in lane 0, yet the slot
   * left waiting on X keeps the table two slots long, so the lane count is 2 rather than
   * the widest lane plus one.
   */
  lemma OutsideMerge()
    ensures var commits := [Commit("A", ["B", "X"]), Commit("B", [])];
      var nodes := Layout(commits).0;
      && nodes[0].lane == 0 && nodes[1].lane == 0
      && MaxLane(nodes) + 1 == 1
      && Layout(commits).1 == 2
  {
    var a, b := Commit("A", ["B", "X"]), Commit("B", []);
    var commits := [a, b];
    RowsOfTwo(a, b);
    var rowOf := RowsOf(commits);
    OutsideMergeRow0(commits[0], rowOf);
    OutsideMergeRow1(commits[1], rowOf);
    LayoutUpToStep(commits, rowOf, 1);
    LayoutUpToStep(commits, rowOf, 2);
    var l2 := LayoutUpTo(commits, rowOf, 2);
    assert l2.0 == [None, Some("X")];
    assert MaxLane(l2.1) == 0;
    assert Trimmed(l2.0) == 2;
  }
}
