/** The records shared by the backend and the user interface (src-tauri/src/db/models.rs). */
module Models {
  import opened Wrappers

  /** An unsigned 32-bit counter, as the backend stores ahead/behind/dirty/stash counts. */
  type U32 = x: nat | x < 0x1_0000_0000

  datatype RepoHealth = Clean | Dirty | Diverged | Error

  /** The four lower-case names under which a health is stored and sent to the interface. */
  const HealthNames: set<string> := {"clean", "dirty", "diverged", "error"}

  /** `RepoHealth::as_str`. */
  function AsStr(h: RepoHealth): (s: string)
    ensures s in HealthNames
  {
    match h
    case Clean => "clean"
    case Dirty => "dirty"
    case Diverged => "diverged"
    case Error => "error"
  }

  /** `RepoHealth::from_str`: every name it does not know reads back as `Error`. */
  function FromStr(s: string): (h: RepoHealth)
    ensures h == Error <==> s !in {"clean", "dirty", "diverged"}
  {
    match s
    case "clean" => Clean
    case "dirty" => Dirty
    case "diverged" => Diverged
    case _ => Error
  }

  /** Storing a health and reading it back gives the same health. */
  lemma FromStrAsStr(h: RepoHealth)
    ensures FromStr(AsStr(h)) == h
  {
  }

  /** Two different healths are never stored under the same name. */
  lemma AsStrInjective(h1: RepoHealth, h2: RepoHealth)
    ensures AsStr(h1) == AsStr(h2) ==> h1 == h2
  {
  }

  /** Reading a name and writing it again keeps the four canonical names and turns anything else into "error". */
  lemma AsStrFromStr(s: string)
    ensures s in HealthNames ==> AsStr(FromStr(s)) == s
    ensures s !in HealthNames ==> AsStr(FromStr(s)) == "error"
  {
  }

  /** One scanned repository, as the backend reports it. */
  datatype RepoInfo = RepoInfo(
    id: Option<int>,
    path: string,
    name: string,
    branch: string,
    ahead: U32,
    behind: U32,
    dirtyFiles: U32,
    stashCount: U32,
    health: RepoHealth,
    lastChecked: string,
    remoteUrl: Option<string>)

  datatype RefKind = Head | Local | Remote | Tag

  /** The lower-case name under which a ref kind is serialised to the interface. */
  function KindName(k: RefKind): (s: string)
    ensures s in {"head", "local", "remote", "tag"}
  {
    match k
    case Head => "head"
    case Local => "local"
    case Remote => "remote"
    case Tag => "tag"
  }

  /** A branch or tag label attached to a commit. */
  datatype RefLabel = RefLabel(name: string, kind: RefKind)

  /**
   * One commit of the log. `shortOid` and every entry of `parents` are abbreviated
   * ids: they are what links a commit to its parents.
   */
  datatype CommitInfo = CommitInfo(
    oid: string,
    shortOid: string,
    message: string,
    author: string,
    authorEmail: string,
    date: string,
    parents: seq<string>,
    refs: seq<RefLabel>)

  datatype FileStatus = Added | Modified | Deleted | Renamed | Untracked | Conflicted

  datatype BranchInfo = BranchInfo(name: string, isHead: bool, isRemote: bool, upstream: Option<string>)
}
