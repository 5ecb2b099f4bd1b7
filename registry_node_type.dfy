/**
 The registry namespace table of the scheduler's registry API: the closed
 enumeration of registry node types. Each constant carries an immutable
 human-readable label and the hierarchical registry path under which masters,
 workers and alert servers announce themselves, or which names a coordination
 lock or the failover-finish marker directory.
 */
module RegistryNodeTypes {

  datatype Option<+T> = None | Some(value: T)

  /** The nine constants, in declaration order. */
  datatype RegistryNodeType =
    | FailoverFinishNodes
    | Master
    | MasterFailoverLock
    | MasterCoordinator
    | MasterTaskGroupCoordinatorLock
    | MasterSerialCoordinatorLock
    | Worker
    | AlertServer
    | AlertHaLeader

  /** Every constant, in the order the enumeration declares them. */
  const AllTypes: seq<RegistryNodeType> := [
    FailoverFinishNodes,
    Master,
    MasterFailoverLock,
    MasterCoordinator,
    MasterTaskGroupCoordinatorLock,
    MasterSerialCoordinatorLock,
    Worker,
    AlertServer,
    AlertHaLeader
  ]

  /** The two top-level directories of the registry namespace. */
  const NodesNamespace: string := "/nodes"
  const LockNamespace: string := "/lock"

  /** The getter for the label. */
  function Name(t: RegistryNodeType): (r: string)
  {
    match t
    case FailoverFinishNodes => "FailoverFinishNodes"
    case Master => "Master"
    case MasterFailoverLock => "MasterFailoverLock"
    case MasterCoordinator => "MasterCoordinator"
    case MasterTaskGroupCoordinatorLock => "TaskGroupCoordinatorLock"
    case MasterSerialCoordinatorLock => "SerialWorkflowCoordinator"
    case Worker => "Worker"
    case AlertServer => "AlertServer"
    case AlertHaLeader => "AlertHALeader"
  }

  /** The getter for the registry path. */
  function RegistryPath(t: RegistryNodeType): (r: string)
  {
    match t
    case FailoverFinishNodes => "/nodes/failover-finish-nodes"
    case Master => "/nodes/master"
    case MasterFailoverLock => "/lock/master-failover"
    case MasterCoordinator => "/nodes/master-coordinator"
    case MasterTaskGroupCoordinatorLock => "/lock/master-task-group-coordinator"
    case MasterSerialCoordinatorLock => "/lock/master-serial-workflow-coordinator"
    case Worker => "/nodes/worker"
    case AlertServer => "/nodes/alert-server"
    case AlertHaLeader => "/nodes/alert-server-ha-leader"
  }

  /** The three constants that name a coordination lock. */
  predicate IsLock(t: RegistryNodeType) {
    t.MasterFailoverLock? || t.MasterTaskGroupCoordinatorLock? || t.MasterSerialCoordinatorLock?
  }

  /** The position of a constant in declaration order. */
  function Ordinal(t: RegistryNodeType): (r: nat)
    ensures r < |AllTypes| && AllTypes[r] == t
  {
    match t
    case FailoverFinishNodes => 0
    case Master => 1
    case MasterFailoverLock => 2
    case MasterCoordinator => 3
    case MasterTaskGroupCoordinatorLock => 4
    case MasterSerialCoordinatorLock => 5
    case Worker => 6
    case AlertServer => 7
    case AlertHaLeader => 8
  }

  /** Exactly nine constants, each listed once. */
  lemma AllTypesEnumerates()
    ensures |AllTypes| == 9
    ensures forall t :: t in AllTypes
    ensures forall i, j :: 0 <= i < j < |AllTypes| ==> AllTypes[i] != AllTypes[j]
  {
    forall t ensures t in AllTypes {
      assert AllTypes[Ordinal(t)] == t;
    }
  }

  // ---------------------------------------------------------------------------
  // Shape of a registry path
  // ---------------------------------------------------------------------------

  /**
   An absolute registry path: it starts with '/', does not end with '/', and
   no two separators are adjacent, so it has no empty segment.
   */
  predicate IsAbsolutePath(p: string) {
    && |p| >= 2
    && p[0] == '/'
    && p[|p| - 1] != '/'
    && forall i :: 0 <= i < |p| - 1 ==> !(p[i] == '/' && p[i + 1] == '/')
  }

  /**
   `p` has exactly two non-empty segments: its only separators are the leading
   one and the one at index `k`.
   */
  predicate IsTwoSegmentPath(p: string, k: int) {
    && 1 < k < |p| - 1
    && p[0] == '/'
    && p[k] == '/'
    && forall i :: 0 <= i < |p| && p[i] == '/' ==> i == 0 || i == k
  }

  /** `p` is a single segment directly below the top-level directory `dir`. */
  predicate IsChildOf(p: string, dir: string) {
    dir + "/" <= p && IsTwoSegmentPath(p, |dir|)
  }

  /**
   `p` is `q` itself or a directory above it: comparison by whole segments
   rather than by raw string prefix.
   */
  predicate IsSegmentPrefix(p: string, q: string) {
    p == q || p + "/" <= q
  }

  /** The top-level directory a constant's path is expected under. */
  function Namespace(t: RegistryNodeType): (r: string) {
    if IsLock(t) then LockNamespace else NodesNamespace
  }

  /** A path of two non-empty segments is absolute and has no empty segment. */
  lemma TwoSegmentPathIsAbsolute(p: string, k: int)
    requires IsTwoSegmentPath(p, k)
    ensures IsAbsolutePath(p)
  {}

  /** Whatever lies below `p + "/"` repeats `p` and then has a separator. */
  lemma DirectoryPrefix(p: string, q: string)
    requires p + "/" <= q
    ensures |p| < |q| && q[|p|] == '/'
    ensures forall i :: 0 <= i < |p| ==> q[i] == p[i]
  {}

  /** Two paths of two segments each are never one below the other. */
  lemma TwoSegmentPathsNotNested(p: string, k: int, q: string, m: int)
    requires IsTwoSegmentPath(p, k) && IsTwoSegmentPath(q, m)
    ensures !(p + "/" <= q)
  {
    if p + "/" <= q {
      DirectoryPrefix(p, q);
    }
  }

  /** Two directories that both lie above `q` are equal or one lies below the other. */
  lemma SharedPrefix(u: string, v: string, q: string)
    requires u + "/" <= q && v + "/" <= q
    ensures u == v || u + "/" <= v || v + "/" <= u
  {
    if |u| == |v| {
      assert u == (u + "/")[..|u|] == (v + "/")[..|v|] == v;
    } else if |u| < |v| {
      assert u + "/" == q[..|u| + 1] == (v + "/")[..|u| + 1] == v[..|u| + 1];
    } else {
      assert v + "/" == q[..|v| + 1] == (u + "/")[..|v| + 1] == u[..|v| + 1];
    }
  }

  // Each path literal's shape, proved separately so that RegistryPathShape is a case split.

  lemma FailoverFinishNodesPathShape()
    ensures IsChildOf(RegistryPath(FailoverFinishNodes), NodesNamespace)
  {}

  lemma MasterPathShape()
    ensures IsChildOf(RegistryPath(Master), NodesNamespace)
  {}

  lemma MasterFailoverLockPathShape()
    ensures IsChildOf(RegistryPath(MasterFailoverLock), LockNamespace)
  {}

  lemma MasterCoordinatorPathShape()
    ensures IsChildOf(RegistryPath(MasterCoordinator), NodesNamespace)
  {}

  lemma MasterTaskGroupCoordinatorLockPathShape()
    ensures IsChildOf(RegistryPath(MasterTaskGroupCoordinatorLock), LockNamespace)
  {}

  lemma MasterSerialCoordinatorLockPathShape()
    ensures IsChildOf(RegistryPath(MasterSerialCoordinatorLock), LockNamespace)
  {}

  lemma WorkerPathShape()
    ensures IsChildOf(RegistryPath(Worker), NodesNamespace)
  {}

  lemma AlertServerPathShape()
    ensures IsChildOf(RegistryPath(AlertServer), NodesNamespace)
  {}

  lemma AlertHaLeaderPathShape()
    ensures IsChildOf(RegistryPath(AlertHaLeader), NodesNamespace)
  {}

  /**
   Every path is one segment below "/lock" when its constant is a lock, and
   one segment below "/nodes" otherwise.
   */
  lemma RegistryPathShape(t: RegistryNodeType)
    ensures IsChildOf(RegistryPath(t), Namespace(t))
  {
    match t
    case FailoverFinishNodes => FailoverFinishNodesPathShape();
    case Master => MasterPathShape();
    case MasterFailoverLock => MasterFailoverLockPathShape();
    case MasterCoordinator => MasterCoordinatorPathShape();
    case MasterTaskGroupCoordinatorLock => MasterTaskGroupCoordinatorLockPathShape();
    case MasterSerialCoordinatorLock => MasterSerialCoordinatorLockPathShape();
    case Worker => WorkerPathShape();
    case AlertServer => AlertServerPathShape();
    case AlertHaLeader => AlertHaLeaderPathShape();
  }

  /** Every path starts with '/', has no trailing '/' and no empty segment. */
  lemma RegistryPathAbsolute(t: RegistryNodeType)
    ensures IsAbsolutePath(RegistryPath(t))
  {
    RegistryPathShape(t);
    TwoSegmentPathIsAbsolute(RegistryPath(t), |Namespace(t)|);
  }

  /**
   The namespace splits into presence directories under "/nodes/" and locks
   under "/lock/"; the paths under "/lock/" are exactly those of the three
   lock constants.
   */
  lemma NamespaceSplit(t: RegistryNodeType)
    ensures ("/nodes/" <= RegistryPath(t)) != ("/lock/" <= RegistryPath(t))
    ensures "/lock/" <= RegistryPath(t) <==> IsLock(t)
  {
    var p := RegistryPath(t);
    RegistryPathShape(t);
    assert "/nodes/" <= p ==> p[6] == "/nodes/"[6] == '/';
    assert "/lock/" <= p ==> p[5] == "/lock/"[5] == '/';
  }

  /** Exactly three constants have a path under "/lock/": the three locks. */
  lemma ExactlyThreeLocks()
    ensures (set t | t in AllTypes && "/lock/" <= RegistryPath(t))
            == {MasterFailoverLock, MasterTaskGroupCoordinatorLock, MasterSerialCoordinatorLock}
    ensures |set t | t in AllTypes && "/lock/" <= RegistryPath(t)| == 3
  {
    var locks := set t | t in AllTypes && "/lock/" <= RegistryPath(t);
    forall t ensures t in locks <==> IsLock(t) {
      AllTypesEnumerates();
      NamespaceSplit(t);
    }
    assert locks == {MasterFailoverLock, MasterTaskGroupCoordinatorLock, MasterSerialCoordinatorLock};
  }

  // ---------------------------------------------------------------------------
  // Injectivity of the table
  // ---------------------------------------------------------------------------

  /** No two constants share a label. */
  lemma NameInjective(a: RegistryNodeType, b: RegistryNodeType)
    ensures Name(a) == Name(b) <==> a == b
  {}

  /** No two constants share a registry path. */
  lemma RegistryPathInjective(a: RegistryNodeType, b: RegistryNodeType)
    ensures RegistryPath(a) == RegistryPath(b) <==> a == b
  {}

  // ---------------------------------------------------------------------------
  // Prefixes: raw string prefixes occur, segment prefixes do not
  // ---------------------------------------------------------------------------

  /**
   Raw string prefixing does occur between distinct paths: the master
   directory is a prefix of the master coordinator's, and the alert server
   directory is a prefix of the alert HA leader's.
   */
  lemma RawPrefixesOccur()
    ensures RegistryPath(Master) <= RegistryPath(MasterCoordinator)
    ensures RegistryPath(AlertServer) <= RegistryPath(AlertHaLeader)
  {}

  /**
   Compared by whole segments, no path lies at or below another: appending the
   separator to one path never yields a prefix of a different path.
   */
  lemma NoSegmentPrefix(a: RegistryNodeType, b: RegistryNodeType)
    ensures IsSegmentPrefix(RegistryPath(a), RegistryPath(b)) <==> a == b
  {
    RegistryPathShape(a);
    RegistryPathShape(b);
    TwoSegmentPathsNotNested(RegistryPath(a), |Namespace(a)|, RegistryPath(b), |Namespace(b)|);
    RegistryPathInjective(a, b);
  }

  /**
   An entry written below a registry directory (a node's presence entry or a
   failover-finish marker) lies below the directory of exactly one constant.
   */
  lemma DirectoryOfEntryUnique(a: RegistryNodeType, b: RegistryNodeType, q: string)
    requires RegistryPath(a) + "/" <= q
    requires RegistryPath(b) + "/" <= q
    ensures a == b
  {
    SharedPrefix(RegistryPath(a), RegistryPath(b), q);
    NoSegmentPrefix(a, b);
    NoSegmentPrefix(b, a);
  }

  // ---------------------------------------------------------------------------
  // Looking a constant up by its path
  // ---------------------------------------------------------------------------

  /**
   Looks a registry path up among `types`, first match wins: the partial
   inverse of RegistryPath over the given constants.
   */
  function FindByPath(p: string, types: seq<RegistryNodeType>): (r: Option<RegistryNodeType>)
    ensures r.Some? ==> r.value in types && RegistryPath(r.value) == p
    ensures r.None? ==> forall t :: t in types ==> RegistryPath(t) != p
  {
    if types == [] then None
    else if RegistryPath(types[0]) == p then Some(types[0])
    else FindByPath(p, types[1..])
  }

  /** Looking up a constant's own path over all constants gives that constant back. */
  lemma FindByPathRoundTrip(t: RegistryNodeType)
    ensures FindByPath(RegistryPath(t), AllTypes) == Some(t)
  {
    AllTypesEnumerates();
    var r := FindByPath(RegistryPath(t), AllTypes);
    RegistryPathInjective(r.value, t);
  }

  /** A path is found exactly when some constant carries it. */
  lemma FindByPathUnknown(p: string)
    ensures FindByPath(p, AllTypes).None? <==> forall t :: RegistryPath(t) != p
  {
    AllTypesEnumerates();
  }
}
