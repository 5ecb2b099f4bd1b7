# Registry node types

A Dafny model of `RegistryNodeType`, the enumeration in the scheduler's registry
API that fixes the registry namespace. Masters, workers and alert servers
announce their presence under these paths. The same table names the three
coordination locks, the master coordinator and alert HA leader directories,
and the directory of failover-finish markers.

Each of the nine constants carries two immutable values: a human label (the
getter `getName()`) and a registry path (the getter `getRegistryPath()`). The
model has:

- the datatype `RegistryNodeType`, one nullary constructor per constant;
- `Name` and `RegistryPath`, the two getters. Their bodies hold the label and
  path literals of the source, unchanged;
- `AllTypes`, the constants in declaration order, with `Ordinal` giving a
  constant's position;
- lemmas about the table: both getters are injective; every path is
  one non-empty segment below `/nodes` or `/lock`, and the `/lock` ones are the
  three lock constants; raw string prefixes occur between paths, but no path is
  a prefix of another once the separator `/` is appended; and a lookup by path
  inverts `RegistryPath`.

The labels do not follow the constant names mechanically.
`MASTER_SERIAL_COORDINATOR_LOCK` has the label `SerialWorkflowCoordinator`,
and `MASTER_TASK_GROUP_COORDINATOR_LOCK` has `TaskGroupCoordinatorLock`. The
model keeps the source's literals.

As raw strings the paths overlap: `/nodes/master` is a prefix of
`/nodes/master-coordinator`, and `/nodes/alert-server` is a prefix of
`/nodes/alert-server-ha-leader`. Compared by whole segments they do not
(`NoSegmentPrefix`), and `RawPrefixesOccur` proves the raw prefixes.

Everything is in `registry_node_type.dfy`, module `RegistryNodeTypes`.

## Model

| member | source | states |
|---|---|---|
| `RegistryNodeTypes.Ordinal` | dolphinscheduler-registry/dolphinscheduler-registry-api/src/main/java/org/apache/dolphinscheduler/registry/api/enums/RegistryNodeType.java:27-38 | a constant's declaration position is a valid index of `AllTypes`, and that index holds the constant |
| `RegistryNodeTypes.AllTypesEnumerates` | dolphinscheduler-registry/dolphinscheduler-registry-api/src/main/java/org/apache/dolphinscheduler/registry/api/enums/RegistryNodeType.java:25-38 | the enumeration has exactly nine constants; `AllTypes` lists every one of them, each exactly once |
| `RegistryNodeTypes.NameInjective` | dolphinscheduler-registry/dolphinscheduler-registry-api/src/main/java/org/apache/dolphinscheduler/registry/api/enums/RegistryNodeType.java:27-40 | two constants have the same label if and only if they are the same constant |
| `RegistryNodeTypes.RegistryPathInjective` | dolphinscheduler-registry/dolphinscheduler-registry-api/src/main/java/org/apache/dolphinscheduler/registry/api/enums/RegistryNodeType.java:27-42 | two constants have the same path if and only if they are the same constant |
| `RegistryNodeTypes.RegistryPathShape` | dolphinscheduler-registry/dolphinscheduler-registry-api/src/main/java/org/apache/dolphinscheduler/registry/api/enums/RegistryNodeType.java:27-38 | every path is exactly two non-empty segments: directly below `/lock` for the three lock constants, directly below `/nodes` for the other six (one case per constant, each proved by a helper lemma such as `MasterPathShape` for line 29) |
| `RegistryNodeTypes.RegistryPathAbsolute` | dolphinscheduler-registry/dolphinscheduler-registry-api/src/main/java/org/apache/dolphinscheduler/registry/api/enums/RegistryNodeType.java:27-38 | every path starts with `/`, has no trailing `/` and has no empty segment |
| `RegistryNodeTypes.NamespaceSplit` | dolphinscheduler-registry/dolphinscheduler-registry-api/src/main/java/org/apache/dolphinscheduler/registry/api/enums/RegistryNodeType.java:27-38 | every path begins with exactly one of `/nodes/` and `/lock/`; it begins with `/lock/` if and only if the constant is one of the three locks (lines 30, 32, 33) |
| `RegistryNodeTypes.ExactlyThreeLocks` | dolphinscheduler-registry/dolphinscheduler-registry-api/src/main/java/org/apache/dolphinscheduler/registry/api/enums/RegistryNodeType.java:30-33 | the constants with a path under `/lock/` are exactly `MASTER_FAILOVER_LOCK`, `MASTER_TASK_GROUP_COORDINATOR_LOCK` and `MASTER_SERIAL_COORDINATOR_LOCK`, so there are three |
| `RegistryNodeTypes.RawPrefixesOccur` | dolphinscheduler-registry/dolphinscheduler-registry-api/src/main/java/org/apache/dolphinscheduler/registry/api/enums/RegistryNodeType.java:29-38 | the master path is a raw string prefix of the master coordinator path (lines 29, 31), and the alert server path is one of the alert HA leader path (lines 37, 38) |
| `RegistryNodeTypes.NoSegmentPrefix` | dolphinscheduler-registry/dolphinscheduler-registry-api/src/main/java/org/apache/dolphinscheduler/registry/api/enums/RegistryNodeType.java:27-38 | compared by whole segments, a constant's path is at or above another's if and only if the constants are equal, so `RegistryPath(a) + "/"` is never a prefix of `RegistryPath(b)` for `a != b` |
| `RegistryNodeTypes.DirectoryOfEntryUnique` | dolphinscheduler-registry/dolphinscheduler-registry-api/src/main/java/org/apache/dolphinscheduler/registry/api/enums/RegistryNodeType.java:27-38 | an entry below some constant's directory is below no other constant's directory |
| `RegistryNodeTypes.FindByPath` | dolphinscheduler-registry/dolphinscheduler-registry-api/src/main/java/org/apache/dolphinscheduler/registry/api/enums/RegistryNodeType.java:27-42 | a lookup of a path among some constants returns one of them that carries the path, and when there is none it reports that no given constant carries it |
| `RegistryNodeTypes.FindByPathRoundTrip` | dolphinscheduler-registry/dolphinscheduler-registry-api/src/main/java/org/apache/dolphinscheduler/registry/api/enums/RegistryNodeType.java:27-42 | looking up a constant's own path among all constants gives that constant back, so the path determines the constant |
| `RegistryNodeTypes.FindByPathUnknown` | dolphinscheduler-registry/dolphinscheduler-registry-api/src/main/java/org/apache/dolphinscheduler/registry/api/enums/RegistryNodeType.java:27-42 | the lookup among all constants fails if and only if no constant carries the path |

`Name` and `RegistryPath` themselves model the two Lombok getters (lines 23
and 40-42). Their bodies are the literal table of lines 27-38. The lemmas above
state what the table promises.

## Left out

- The end-to-end browser test `WorkflowJavaTaskE2ETest.java` is not part of this model. It drives a browser, compiles Java with the system compiler and writes jar files, which is all I/O with no pure behaviour to state.
- Node registration, sessions, distributed locks, fencing tokens, leader election and failover handling are not part of this model. The enumeration only names their paths; the code that uses them is not among the modelled files, so no child-path construction, path parsing or lock semantics is modelled.
- Lombok's code generation and the Java `Enum` machinery (`valueOf`, `name()`, serialisation) are left out. Only the two getters and the declaration order are modelled, the latter as `AllTypes` and `Ordinal`.
- The source has no lookup by path. `FindByPath` is included as the partial inverse that the injectivity of the paths makes well defined, searching the constants in declaration order.
- The raw string prefix relation is not characterised for all 81 pairs of constants. `RawPrefixesOccur` shows the two pairs where it holds; `NoSegmentPrefix` gives the segment-level statement for every pair.
