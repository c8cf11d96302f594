/**
 * The repository state the properties read: commits, ref targets and the
 * view's maps from names to targets. These are the inputs to the rendering
 * core, supplied by the repository, which is not part of this model.
 */
module RepoView {
  import opened Wrappers

  newtype byte = x: int | 0 <= x < 256

  type CommitId = seq<byte>
  type ChangeId = seq<byte>
  type TreeId = seq<byte>
  type WorkspaceId = string

  /** What a branch, tag or git ref points to; a conflicted ref points to
      several commits at once. */
  datatype RefTarget =
    | Normal(id: CommitId)
    | Conflict(removes: seq<CommitId>, adds: seq<CommitId>)

  function Adds(t: RefTarget): seq<CommitId>
  {
    match t
    case Normal(id) => [id]
    case Conflict(_, adds) => adds
  }

  /** `RefTarget::has_add`: the commit is one the ref points to. */
  predicate HasAdd(t: RefTarget, id: CommitId)
  {
    id in Adds(t)
  }

  /** `RefTarget::is_conflict` */
  predicate IsConflict(t: RefTarget)
  {
    t.Conflict?
  }

  /** A map together with the order in which iterating it visits the keys. */
  datatype OrderedMap<V> = OrderedMap(entries: map<string, V>, keys: seq<string>)
  {
    /** `keys` visits every key of `entries` exactly once. */
    ghost predicate Valid()
    {
      && (forall k :: k in keys <==> k in entries)
      && (forall i, j :: 0 <= i < j < |keys| ==> keys[i] != keys[j])
    }
  }

  /** A branch: its local target, if any, and its target on each remote. */
  datatype BranchTarget = BranchTarget(localTarget: Option<RefTarget>, remoteTargets: OrderedMap<RefTarget>)

  datatype View = View(
    branches: OrderedMap<BranchTarget>,
    tags: OrderedMap<RefTarget>,
    gitRefs: OrderedMap<RefTarget>,
    gitHead: Option<CommitId>,
    wcCommitIds: map<WorkspaceId, CommitId>)
  {
    ghost predicate Valid()
    {
      && branches.Valid() && tags.Valid() && gitRefs.Valid()
      && (forall name :: name in branches.entries ==> branches.entries[name].remoteTargets.Valid())
    }
  }

  datatype Timestamp = Timestamp(millisSinceEpoch: int, tzOffsetMinutes: int)

  datatype Signature = Signature(name: string, email: string, timestamp: Timestamp)

  /** A commit as the properties see it. `treeHasConflict` is the answer of
      the tree's conflict query. */
  datatype Commit = Commit(
    id: CommitId,
    changeId: ChangeId,
    description: string,
    author: Signature,
    committer: Signature,
    parents: seq<CommitId>,
    tree: TreeId,
    treeHasConflict: bool)
}
