/** Repository health (src-tauri/src/git/status.rs). */
module Status {
  import opened Wrappers
  import opened Models

  /**
   * `determine_health`: behind and (ahead or dirty) is diverged; otherwise ahead or
   * dirty is dirty; otherwise clean, even when the branch is only behind.
   */
  function DetermineHealth(ahead: U32, behind: U32, dirtyFiles: U32): (h: RepoHealth)
    ensures h != Error
    ensures h == Diverged <==> behind > 0 && (ahead > 0 || dirtyFiles > 0)
    ensures h == Dirty <==> behind == 0 && (ahead > 0 || dirtyFiles > 0)
    ensures h == Clean <==> ahead == 0 && dirtyFiles == 0
  {
    if behind > 0 && (ahead > 0 || dirtyFiles > 0) then
      Diverged
    else if dirtyFiles > 0 || ahead > 0 then
      Dirty
    else
      Clean
  }

  /** What the git library reports about a repository that it could open. */
  datatype RepoFacts = RepoFacts(
    branch: string,
    ahead: U32,
    behind: U32,
    dirtyFiles: U32,
    stashCount: U32,
    remoteUrl: Option<string>)

  /**
   * `get_repo_info`. The library is a parameter: `repo` is `None` when the repository
   * could not be opened and otherwise holds what the library reports; `fileName` is the
   * last path component, if there is one, and `now` the time stamp of the scan.
   */
  function GetRepoInfo(path: string, fileName: Option<string>, now: string, repo: Option<RepoFacts>): (r: RepoInfo)
    ensures r.path == path && r.lastChecked == now && r.id == None
    ensures r.name == (if fileName.Some? then fileName.value else "unknown")
    ensures r.health == Error <==> repo.None?
    ensures repo.None? ==>
      r.branch == "unknown" && r.ahead == 0 && r.behind == 0 && r.dirtyFiles == 0 &&
      r.stashCount == 0 && r.remoteUrl == None
    ensures repo.Some? ==>
      var f := repo.value;
      r.branch == f.branch && r.ahead == f.ahead && r.behind == f.behind &&
      r.dirtyFiles == f.dirtyFiles && r.stashCount == f.stashCount && r.remoteUrl == f.remoteUrl &&
      r.health == DetermineHealth(f.ahead, f.behind, f.dirtyFiles)
  {
    var name := fileName.GetOr("unknown");
    match repo
    case None =>
      RepoInfo(None, path, name, "unknown", 0, 0, 0, 0, Error, now, None)
    case Some(f) =>
      RepoInfo(None, path, name, f.branch, f.ahead, f.behind, f.dirtyFiles, f.stashCount,
               DetermineHealth(f.ahead, f.behind, f.dirtyFiles), now, f.remoteUrl)
  }

  /** A repository that is only behind its upstream is reported clean. */
  lemma OnlyBehindIsClean(behind: U32)
    ensures DetermineHealth(0, behind, 0) == Clean
  {
  }
}
