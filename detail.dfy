/**
 * The pure pieces of src-tauri/src/git/detail.rs: the status-flag mappings, the
 * branch order, abbreviated commit ids and the default stash message.
 */
module Detail {
  import opened Wrappers
  import opened Models

  // ---------------------------------------------------------------------------
  // Status flags

  /** The git status bits a path can carry. */
  datatype StatusFlag =
    | IndexNew | IndexModified | IndexDeleted | IndexRenamed | IndexTypechange
    | WtNew | WtModified | WtDeleted | WtTypechange | WtRenamed
    | Ignored | Conflicted

  /** A path's status: the set of bits that are on. */
  type Status = set<StatusFlag>

  /** The bits the index mapping looks at, in the order it looks at them, with what each gives. */
  const IndexPriority: seq<(StatusFlag, FileStatus)> :=
    [(IndexNew, Added), (IndexModified, Modified), (IndexDeleted, Deleted),
     (IndexRenamed, Renamed), (StatusFlag.Conflicted, FileStatus.Conflicted)]

  /** The bits the working-tree mapping looks at, in order, with what each gives. */
  const WorkdirPriority: seq<(StatusFlag, FileStatus)> :=
    [(WtNew, Untracked), (WtModified, Modified), (WtDeleted, Deleted),
     (WtRenamed, Renamed), (StatusFlag.Conflicted, FileStatus.Conflicted)]

  /** The outcome of the first entry of `priority` whose bit is set in `s`, if any. */
  function FirstSet(priority: seq<(StatusFlag, FileStatus)>, s: Status): (r: Option<FileStatus>)
    ensures r == None <==> forall i :: 0 <= i < |priority| ==> priority[i].0 !in s
    ensures r.Some? ==>
      exists i :: (0 <= i < |priority| && priority[i].0 in s && r.value == priority[i].1 &&
                   forall j :: 0 <= j < i ==> priority[j].0 !in s)
  {
    if priority == [] then None
    else if priority[0].0 in s then Some(priority[0].1)
    else
      var r := FirstSet(priority[1..], s);
      assert forall i :: 0 <= i < |priority| - 1 ==> priority[1..][i] == priority[i + 1];
      r
  }

  /** `index_status_to_file_status`: the staged state of a path. */
  function IndexStatusToFileStatus(s: Status): (r: Option<FileStatus>)
    ensures r == Some(Added) <==> IndexNew in s
    ensures r == Some(Modified) <==> IndexNew !in s && IndexModified in s
    ensures r == Some(Deleted) <==> IndexNew !in s && IndexModified !in s && IndexDeleted in s
    ensures r == Some(Renamed) <==>
      IndexNew !in s && IndexModified !in s && IndexDeleted !in s && IndexRenamed in s
    ensures r == Some(FileStatus.Conflicted) <==>
      IndexNew !in s && IndexModified !in s && IndexDeleted !in s && IndexRenamed !in s && StatusFlag.Conflicted in s
    ensures r != Some(Untracked)
  {
    if IndexNew in s then Some(Added)
    else if IndexModified in s then Some(Modified)
    else if IndexDeleted in s then Some(Deleted)
    else if IndexRenamed in s then Some(Renamed)
    else if StatusFlag.Conflicted in s then Some(FileStatus.Conflicted)
    else None
  }

  /** `workdir_status_to_file_status`: the unstaged state of a path. */
  function WorkdirStatusToFileStatus(s: Status): (r: Option<FileStatus>)
    ensures r == Some(Untracked) <==> WtNew in s
    ensures r == Some(Modified) <==> WtNew !in s && WtModified in s
    ensures r == Some(Deleted) <==> WtNew !in s && WtModified !in s && WtDeleted in s
    ensures r == Some(Renamed) <==> WtNew !in s && WtModified !in s && WtDeleted !in s && WtRenamed in s
    ensures r == Some(FileStatus.Conflicted) <==>
      WtNew !in s && WtModified !in s && WtDeleted !in s && WtRenamed !in s && StatusFlag.Conflicted in s
    ensures r != Some(Added)
  {
    if WtNew in s then Some(Untracked)
    else if WtModified in s then Some(Modified)
    else if WtDeleted in s then Some(Deleted)
    else if WtRenamed in s then Some(Renamed)
    else if StatusFlag.Conflicted in s then Some(FileStatus.Conflicted)
    else None
  }

  /** The index mapping is the first-set-bit rule over its priority list. */
  lemma {:induction false} IndexIsPriorityList(s: Status)
    ensures IndexStatusToFileStatus(s) == FirstSet(IndexPriority, s)
  {
    var p := IndexPriority;
    assert p[4..][1..] == [];
    assert FirstSet(p[4..], s) == if StatusFlag.Conflicted in s then Some(FileStatus.Conflicted) else None;
    assert p[3..][1..] == p[4..];
    assert FirstSet(p[3..], s) == if IndexRenamed in s then Some(Renamed) else FirstSet(p[4..], s);
    assert p[2..][1..] == p[3..];
    assert FirstSet(p[2..], s) == if IndexDeleted in s then Some(Deleted) else FirstSet(p[3..], s);
    assert p[1..][1..] == p[2..];
    assert FirstSet(p[1..], s) == if IndexModified in s then Some(Modified) else FirstSet(p[2..], s);
  }

  /** The working-tree mapping is the first-set-bit rule over its priority list. */
  lemma {:induction false} WorkdirIsPriorityList(s: Status)
    ensures WorkdirStatusToFileStatus(s) == FirstSet(WorkdirPriority, s)
  {
    var p := WorkdirPriority;
    assert p[4..][1..] == [];
    assert FirstSet(p[4..], s) == if StatusFlag.Conflicted in s then Some(FileStatus.Conflicted) else None;
    assert p[3..][1..] == p[4..];
    assert FirstSet(p[3..], s) == if WtRenamed in s then Some(Renamed) else FirstSet(p[4..], s);
    assert p[2..][1..] == p[3..];
    assert FirstSet(p[2..], s) == if WtDeleted in s then Some(Deleted) else FirstSet(p[3..], s);
    assert p[1..][1..] == p[2..];
    assert FirstSet(p[1..], s) == if WtModified in s then Some(Modified) else FirstSet(p[2..], s);
  }

  /** The bits each mapping looks at. */
  const IndexBits: set<StatusFlag> := {IndexNew, IndexModified, IndexDeleted, IndexRenamed, StatusFlag.Conflicted}
  const WorkdirBits: set<StatusFlag> := {WtNew, WtModified, WtDeleted, WtRenamed, StatusFlag.Conflicted}

  /** Only the bits on the index list matter: anything else in the status is ignored. */
  lemma IndexIgnoresOtherBits(s: Status, extra: Status)
    requires extra !! IndexBits
    ensures IndexStatusToFileStatus(s + extra) == IndexStatusToFileStatus(s)
  {
  }

  /** Only the bits on the working-tree list matter. */
  lemma WorkdirIgnoresOtherBits(s: Status, extra: Status)
    requires extra !! WorkdirBits
    ensures WorkdirStatusToFileStatus(s + extra) == WorkdirStatusToFileStatus(s)
  {
  }

  /** A conflicted path with no other listed bit is reported as conflicted on both sides. */
  lemma ConflictOnlyWhenNothingElse(s: Status)
    requires StatusFlag.Conflicted in s
    ensures IndexStatusToFileStatus(s) == Some(FileStatus.Conflicted) <==>
      s !! {IndexNew, IndexModified, IndexDeleted, IndexRenamed}
    ensures WorkdirStatusToFileStatus(s) == Some(FileStatus.Conflicted) <==>
      s !! {WtNew, WtModified, WtDeleted, WtRenamed}
  {
  }

  // ---------------------------------------------------------------------------
  // Branch order

  datatype Ordering = Less | Equal | Greater
  {
    /** `Ordering::then`: this ordering unless it is `Equal`. */
    function Then(other: Ordering): (r: Ordering)
      ensures this != Equal ==> r == this
      ensures this == Equal ==> r == other
    {
      if this == Equal then other else this
    }

    /** The ordering seen from the other side. */
    function Flip(): (r: Ordering)
      ensures r == Less <==> this == Greater
      ensures r == Equal <==> this == Equal
      ensures r == Greater <==> this == Less
    {
      match this
      case Less => Greater
      case Equal => Equal
      case Greater => Less
    }
  }

  /** `bool::cmp`: `false` before `true`. */
  function BoolCmp(a: bool, b: bool): (r: Ordering)
    ensures r == Less <==> !a && b
    ensures r == Equal <==> a == b
  {
    if a == b then Equal else if !a then Less else Greater
  }

  /** `str::cmp`: lexicographic, a proper prefix first. */
  function StrCmp(a: string, b: string): (r: Ordering)
    ensures r == Equal <==> a == b
    decreases |a|
  {
    if a == [] then (if b == [] then Equal else Less)
    else if b == [] then Greater
    else if a[0] < b[0] then Less
    else if a[0] > b[0] then Greater
    else
      var r := StrCmp(a[1..], b[1..]);
      assert r == Equal ==> a == [a[0]] + a[1..] == [b[0]] + b[1..] == b;
      r
  }

  /** Comparing the other way round flips the result. */
  lemma {:induction false} StrCmpFlip(a: string, b: string)
    ensures StrCmp(b, a) == StrCmp(a, b).Flip()
    decreases |a|
  {
    if a != [] && b != [] && a[0] == b[0] {
      StrCmpFlip(a[1..], b[1..]);
    }
  }

  /** "At most" is transitive on strings. */
  lemma {:induction false} StrCmpTransitive(a: string, b: string, c: string)
    requires StrCmp(a, b) != Greater && StrCmp(b, c) != Greater
    ensures StrCmp(a, c) != Greater
    decreases |a|
  {
    if a != [] && b != [] && c != [] && a[0] == b[0] == c[0] {
      StrCmpTransitive(a[1..], b[1..], c[1..]);
    }
  }

  /** The comparator of `get_branches`: the HEAD branch first, then locals before remotes, then by name. */
  function BranchCmp(a: BranchInfo, b: BranchInfo): (r: Ordering)
  {
    BoolCmp(b.isHead, a.isHead).Then(BoolCmp(a.isRemote, b.isRemote)).Then(StrCmp(a.name, b.name))
  }

  /** The comparator is the lexicographic order on (not HEAD, remote, name). */
  lemma BranchCmpIsKeyOrder(a: BranchInfo, b: BranchInfo)
    ensures BranchCmp(a, b) == Less <==>
      || (a.isHead && !b.isHead)
      || (a.isHead == b.isHead && !a.isRemote && b.isRemote)
      || (a.isHead == b.isHead && a.isRemote == b.isRemote && StrCmp(a.name, b.name) == Less)
    ensures BranchCmp(a, b) == Equal <==> a.isHead == b.isHead && a.isRemote == b.isRemote && a.name == b.name
  {
  }

  /** Comparing two branches the other way round flips the result. */
  lemma BranchCmpFlip(a: BranchInfo, b: BranchInfo)
    ensures BranchCmp(b, a) == BranchCmp(a, b).Flip()
  {
    StrCmpFlip(a.name, b.name);
  }

  /** "At most" is transitive on branches. */
  lemma BranchCmpTransitive(a: BranchInfo, b: BranchInfo, c: BranchInfo)
    requires BranchCmp(a, b) != Greater && BranchCmp(b, c) != Greater
    ensures BranchCmp(a, c) != Greater
  {
    if a.isHead == b.isHead == c.isHead && a.isRemote == b.isRemote == c.isRemote {
      StrCmpTransitive(a.name, b.name, c.name);
    }
  }

  /** No branch comes after a later one under the comparator. */
  predicate SortedBranches(s: seq<BranchInfo>)
  {
    forall i, j :: 0 <= i < j < |s| ==> BranchCmp(s[i], s[j]) != Greater
  }

  /** A branch that comes after none of a sorted list can go in front of it. */
  lemma ConsSorted(x: BranchInfo, s: seq<BranchInfo>)
    requires SortedBranches(s)
    requires forall y :: y in s ==> BranchCmp(x, y) != Greater
    ensures SortedBranches([x] + s)
  {
    forall i, j | 0 <= i < j < |[x] + s| ensures BranchCmp(([x] + s)[i], ([x] + s)[j]) != Greater {
      if i == 0 { assert ([x] + s)[j] == s[j - 1]; }
    }
  }

  /** A branch at most the first of a sorted list is at most every member of it. */
  lemma BelowFirst(x: BranchInfo, s: seq<BranchInfo>)
    requires SortedBranches(s) && s != []
    requires BranchCmp(x, s[0]) != Greater
    ensures forall y :: y in s ==> BranchCmp(x, y) != Greater
  {
    forall y | y in s ensures BranchCmp(x, y) != Greater {
      var j :| 0 <= j < |s| && s[j] == y;
      if j > 0 { BranchCmpTransitive(x, s[0], s[j]); }
    }
  }

  /** The first of a sorted list is at most every member of the rest with `x` put in. */
  lemma FirstBelowInserted(s: seq<BranchInfo>, x: BranchInfo, rest: seq<BranchInfo>)
    requires SortedBranches(s) && s != []
    requires BranchCmp(s[0], x) != Greater
    requires multiset(rest) == multiset(s[1..]) + multiset{x}
    ensures forall y :: y in rest ==> BranchCmp(s[0], y) != Greater
  {
    forall y | y in rest ensures BranchCmp(s[0], y) != Greater {
      assert y in multiset(rest);
      if y != x {
        assert y in multiset(s[1..]);
        var j :| 0 <= j < |s[1..]| && s[1..][j] == y;
        assert s[j + 1] == y;
      }
    }
  }

  /** Puts `x` into a sorted list after every branch that does not come after it. */
  function Insert(x: BranchInfo, s: seq<BranchInfo>): (r: seq<BranchInfo>)
    requires SortedBranches(s)
    ensures SortedBranches(r)
    ensures multiset(r) == multiset(s) + multiset{x}
  {
    if s == [] then [x]
    else if BranchCmp(x, s[0]) == Less then
      BelowFirst(x, s);
      ConsSorted(x, s);
      [x] + s
    else
      var rest := Insert(x, s[1..]);
      assert s == [s[0]] + s[1..];
      BranchCmpFlip(x, s[0]);
      FirstBelowInserted(s, x, rest);
      ConsSorted(s[0], rest);
      [s[0]] + rest
  }

  /** `branches.sort_by(...)`: the branches in comparator order, as an insertion sort that keeps equal branches in their input order. */
  function SortBranches(bs: seq<BranchInfo>): (r: seq<BranchInfo>)
    ensures SortedBranches(r)
    ensures multiset(r) == multiset(bs)
    ensures |r| == |bs|
  {
    if bs == [] then []
    else
      var n := |bs| - 1;
      assert bs == bs[..n] + [bs[n]];
      var r := Insert(bs[n], SortBranches(bs[..n]));
      assert |r| == |multiset(r)|;
      r
  }

  /**
   * After sorting, a HEAD branch never follows a non-HEAD one, among equals a local never
   * follows a remote, and among equals in both the names ascend.
   */
  lemma SortedOrder(bs: seq<BranchInfo>)
    ensures var r := SortBranches(bs);
      forall i, j :: 0 <= i < j < |r| ==>
        && (r[j].isHead ==> r[i].isHead)
        && (r[i].isHead == r[j].isHead && r[i].isRemote ==> r[j].isRemote)
        && (r[i].isHead == r[j].isHead && r[i].isRemote == r[j].isRemote ==> StrCmp(r[i].name, r[j].name) != Greater)
  {
  }

  /** Whenever some branch is the HEAD branch, the sorted list starts with a HEAD branch. */
  lemma HeadComesFirst(bs: seq<BranchInfo>)
    requires exists i :: 0 <= i < |bs| && bs[i].isHead
    ensures SortBranches(bs) != [] && SortBranches(bs)[0].isHead
  {
    var r := SortBranches(bs);
    var i :| 0 <= i < |bs| && bs[i].isHead;
    assert bs[i] in multiset(bs);
    assert bs[i] in r;
    var k :| 0 <= k < |r| && r[k] == bs[i];
    if k > 0 {
      assert BranchCmp(r[0], r[k]) != Greater;
      BranchCmpFlip(r[0], r[k]);
      BranchCmpIsKeyOrder(r[k], r[0]);
    }
  }

  // ---------------------------------------------------------------------------
  // Abbreviated ids

  /** The abbreviated id of a commit or parent (lines 42 and 55): its first seven characters. */
  function ShortOid(full: string): (s: string)
    requires |full| >= 7
    ensures |s| == 7 && s <= full
  {
    full[..7]
  }

  /** Parent references are abbreviated the same way as the commit ids. */
  function ParentRefs(parentIds: seq<string>): (r: seq<string>)
    requires forall i :: 0 <= i < |parentIds| ==> |parentIds[i]| >= 7
    ensures |r| == |parentIds|
    ensures forall i :: 0 <= i < |r| ==> r[i] == ShortOid(parentIds[i])
  {
    seq(|parentIds|, i requires 0 <= i < |parentIds| => ShortOid(parentIds[i]))
  }

  /** A parent reference links to the commit whose full id it abbreviates. */
  lemma ParentLinksToCommit(parentId: string, commitId: string)
    requires |parentId| >= 7 && |commitId| >= 7
    ensures parentId == commitId ==> ShortOid(parentId) == ShortOid(commitId)
    ensures ShortOid(parentId) == ShortOid(commitId) <==> parentId[..7] == commitId[..7]
  {
  }

  /** Two different commits whose ids share seven characters get the same abbreviated id. */
  lemma AbbreviationsCollide()
    ensures var a, b := "1234567aaaa", "1234567bbbb";
      a != b && ShortOid(a) == ShortOid(b)
  {
    var a, b := "1234567aaaa", "1234567bbbb";
    assert a[7] != b[7];
  }

  // ---------------------------------------------------------------------------
  // Stash

  /** The message `stash_save` records: the caller's, or "WIP" when it is empty. */
  function StashMessage(message: string): (m: string)
    ensures m != []
    ensures message != [] ==> m == message
    ensures message == [] ==> m == "WIP"
  {
    if message == [] then "WIP" else message
  }
}
