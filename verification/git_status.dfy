/**
 * The status snapshot produced by the external git collaborator (class Git).
 * Computing it is outside the model: the cache receives it through an
 * opaque `Provider` function.
 */
module GitStatus {

  /** One entry of the stash list. */
  datatype Stash = Stash(index: nat, sha1Id: string, message: string)

  /** A repository status snapshot, replaced wholesale on recomputation. */
  datatype Status = Status(
    repositoryPath: string,
    workingDirectory: string,
    state: string,
    branch: string,
    upstream: string,
    upstreamGone: bool,
    aheadBy: int,
    behindBy: int,
    indexAdded: seq<string>,
    indexModified: seq<string>,
    indexDeleted: seq<string>,
    indexTypeChange: seq<string>,
    indexRenamed: seq<(string, string)>,
    workingAdded: seq<string>,
    workingModified: seq<string>,
    workingDeleted: seq<string>,
    workingTypeChange: seq<string>,
    workingUnreadable: seq<string>,
    workingRenamed: seq<(string, string)>,
    ignored: seq<string>,
    conflicted: seq<string>,
    stashes: seq<Stash>)

  /**
   * The `(bool, Git::Status)` pair the git collaborator returns: `ok` is
   * false when no status could be computed for the path.
   */
  datatype StatusResult = StatusResult(ok: bool, status: Status)

  /** Git::GetStatus, seen from the cache: repository path to result. */
  type Provider = string -> StatusResult
}
