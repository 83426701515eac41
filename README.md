# Hank coordination core in Dafny

This project models three sequential pieces of Hank's metadata-coordination layer and proves properties of them.

- **`ZkHostDomainPartition`**: one partition's metadata entity. The partition lives at `<domain>/<n>`. Beneath it sit `current_version`, `selected_for_deletion` and the completion marker `.complete`. The entity works in one of two modes:
  - With watches on, reads go through two watched scalars that notifications keep current.
  - With watches off, every read goes straight to the store and both setters fail.
- **`WatchedMap`**, as its tests exercise it: a node's children mirrored as a map from child name to loaded value. A completion detector can hold a new child back until the detector reports it complete.
- **`InMemoryCoordinator`**: a registry of domains, domain groups and ring groups, kept in three name-keyed tables.

The remote ZooKeeper tree is an abstract store (`ZkStore.Store`). It is a map from slash-delimited paths to optional byte content and supports create, get, set, delete and a recursive delete that removes one childless node per call. It keeps a log of successful writes, so the order of writes can be stated. Connection loss is injected deterministically: the store lets a given number of calls through and fails every call after that. This lets the proofs state what happens when `create` or `delete` is interrupted partway.

Modules and their files:

| module | file | models |
|---|---|---|
| `Wrappers` | wrappers.dfy | Option / Result / Outcome |
| `JavaText` | java_text.dfy | `int`, `Integer.toString` / `parseInt`, `Boolean.toString` / `parseBoolean`, `getBytes` / `new String` |
| `ZkPath` | zk_path.dfy | `ZkPath.append` / `getFilename` |
| `ZkStore` | zk_store.dfy | the remote tree (`ZooKeeperPlus`) |
| `WatchedNode` | watched_node.dfy | `WatchedInt` / `WatchedBoolean` as one watched scalar |
| `HostDomainPartition` | host_domain_partition.dfy | `ZkHostDomainPartition` |
| `PartitionScenarios` | partition_scenarios.dfy | call sequences on the partition entity |
| `WatchedMaps` | watched_map.dfy | `WatchedMap`, `StringElementLoader`, completion detection |
| `WatchedMapScenarios` | watched_map_scenarios.dfy | `testIt`, `testCompletionDetector`, `testDeletion` |
| `InMemory` | in_memory.dfy | `InMemoryCoordinator` |
| `InMemoryScenarios` | in_memory_scenarios.dfy | call sequences on the registry |

Modelling decisions:

- The static toggle `doUsePartitionWatches` becomes a per-instance `watches` parameter.
- Every exception the partition entity wraps in an `IOException` becomes a `Fault` value. Faults come from:
  - the tree's shape (`NoNode`, `NodeExists`, `NotEmpty`);
  - a lost connection (`ConnectionLoss`);
  - data that does not decode (`MalformedData`);
  - a last path segment that is not a number (`NumberFormat`);
  - a call through a scalar that does not exist in no-watch mode (`NullScalar`).
- A watched scalar delivers the notification for its own write at once. So after a successful set, the cached value equals what was written. A notification from a write by another process is an explicit call: `DeletableChanged` or `VersionChanged`.
- The listener (`DataLocationChangeListener`) is an object that counts the notifications it receives.
- In the watched map, every store notification and every detector callback is an explicit event:
  - `ChildAdded`;
  - `ChildRemoved`;
  - `Complete` (`awaiter.completed`).
- The map's state is a pair of exposed entries and pending names. The pure transition functions `Added`, `Completed` and `Removed` specify it, and the class methods are proved against those functions.
- A completion for a child that is not pending is ignored.
- An element loader is a function of the tree, the base path and the child name. `None` stands for the exception a failed load throws, and a child whose load fails stays out of the map.
- Where a caller might expect something else, the model follows the code:
  - In no-watch mode the setters fail, so a version set without watches does not read back.
  - A second `delete()` fails because the marker is gone (`NoNode`), so `delete()` is not idempotent.

## Model

| member | source | states |
|---|---|---|
| `JavaText.IntToString` | src/java/com/rapleaf/hank/coordinator/zk/ZkHostDomainPartition.java:48 | `Integer.toString` gives a non-empty string: a digit or a minus sign first, only digits after it; the minus sign is there exactly for negative numbers |
| `JavaText.DecimalRoundTrip` | src/java/com/rapleaf/hank/coordinator/zk/ZkHostDomainPartition.java:48 | reading back the decimal numeral of a natural number gives that number |
| `JavaText.ParseInt` | src/java/com/rapleaf/hank/coordinator/zk/ZkHostDomainPartition.java:64 | a string `Integer.parseInt` accepts is an optional sign followed by at least one digit and nothing else; a negative result comes from a leading minus sign |
| `JavaText.ParseIntToString` | src/java/com/rapleaf/hank/coordinator/zk/ZkHostDomainPartition.java:48-64 | `Integer.parseInt(Integer.toString(n)) == n` for every 32-bit `n` |
| `JavaText.ParseIntNeedsNumeral` | src/java/com/rapleaf/hank/coordinator/zk/ZkHostDomainPartition.java:64 | a segment that does not start with a sign or a digit raises `NumberFormatException` |
| `JavaText.BytesToString` | src/java/com/rapleaf/hank/coordinator/zk/ZkHostDomainPartition.java:51 | `new String(bytes)` keeps the length and maps each byte to the character with the same code; the text is ASCII exactly when every byte is below 128 |
| `JavaText.StringToBytes` | src/java/com/rapleaf/hank/coordinator/zk/ZkHostDomainPartition.java:51 | `getBytes()` of ASCII text keeps the length and each code, every byte below 128 |
| `JavaText.BytesRoundTrip` | src/java/com/rapleaf/hank/coordinator/zk/ZkHostDomainPartition.java:51 | decoding the encoded bytes of ASCII text gives the text back |
| `JavaText.ParseBoolean` | src/java/com/rapleaf/hank/coordinator/zk/ZkHostDomainPartition.java:51 | only a four-letter string can parse as true |
| `JavaText.BooleanToString` | src/java/com/rapleaf/hank/coordinator/zk/ZkHostDomainPartition.java:51 | `Boolean.toString(b)` is ASCII text and `Boolean.parseBoolean` reads it back as `b` |
| `ZkPath.LastSlash` | src/java/com/rapleaf/hank/coordinator/zk/ZkHostDomainPartition.java:64 | the index of the last '/' (or -1): a slash is there and none comes after it |
| `ZkPath.SplitAppend` | src/java/com/rapleaf/hank/coordinator/zk/ZkHostDomainPartition.java:48-64 | `getFilename(append(parent, child))` is `child` and its parent is `parent`, for a child name without '/' |
| `ZkPath.AppendSplit` | src/java/com/rapleaf/hank/coordinator/zk/ZkHostDomainPartition.java:64 | a path with a '/' is its parent with its last segment appended |
| `ZkPath.ChildOfUnder` | src/java/com/rapleaf/hank/coordinator/zk/ZkHostDomainPartition.java:143 | a node whose parent lies at or under a root lies strictly under it |
| `ZkStore.RemoveTree` | src/java/com/rapleaf/hank/coordinator/zk/ZkHostDomainPartition.java:143 | the recursive delete leaves no node at or under the root and every other node as it was |
| `ZkStore.ReplaySnoc` | src/java/com/rapleaf/hank/coordinator/zk/ZkHostDomainPartition.java:49-52 | replaying one more write applies it to the tree of the earlier writes |
| `ZkStore.Status` | src/java/com/rapleaf/hank/coordinator/zk/ZkHostDomainPartition.java:55-57 | a store call succeeds exactly when the connection holds and the tree raises no fault |
| `ZkStore.Store.Create` | src/java/com/rapleaf/hank/coordinator/zk/ZkHostDomainPartition.java:49-52 | `zk.create` adds the node and logs it when the node is new, its parent exists and the connection holds; otherwise it fails and changes nothing |
| `ZkStore.Store.GetData` | src/java/com/rapleaf/hank/coordinator/zk/ZkHostDomainPartition.java:91 | `getData` returns the node's data, `NoNode` for a missing node, or `ConnectionLoss` |
| `ZkStore.Store.SetData` | src/java/com/rapleaf/hank/coordinator/zk/ZkHostDomainPartition.java:125-134 | `setData` replaces an existing node's data and logs it; otherwise it fails and changes nothing |
| `ZkStore.Store.Delete` | src/java/com/rapleaf/hank/coordinator/zk/ZkHostDomainPartition.java:142 | `delete(p, -1)` removes a present node without children; otherwise it fails and changes nothing |
| `ZkStore.SubtreeHasLeaf` | src/java/com/rapleaf/hank/coordinator/zk/ZkHostDomainPartition.java:143 | a non-empty subtree of a well-formed tree always has a node without children, so the recursive delete can always take a step |
| `ZkStore.PartwayStep` | src/java/com/rapleaf/hank/coordinator/zk/ZkHostDomainPartition.java:143 | deleting one node of the subtree keeps the recursive delete's bookkeeping (budget, what is left, log, replay); a refused call changes nothing and happens only once the budget is spent |
| `ZkStore.PrunedAll` | src/java/com/rapleaf/hank/coordinator/zk/ZkHostDomainPartition.java:143 | once no node of the subtree is left, the tree is the starting tree with the subtree removed |
| `ZkStore.Store.DeleteLeaf` | src/java/com/rapleaf/hank/coordinator/zk/ZkHostDomainPartition.java:143 | one step of the recursive delete: a childless node under the root is deleted and logged, or the lost connection stops it with nothing changed |
| `ZkStore.Store.DeleteRecursive` | src/java/com/rapleaf/hank/coordinator/zk/ZkHostDomainPartition.java:143 | `deleteNodeRecursively(p)` deletes the nodes at or under `p` one at a time; it succeeds exactly when the budget covers them all, and then the tree is the old one without the subtree; a connection lost after k deletes fails with `ConnectionLoss` having removed exactly k nodes under `p` and nothing else; every write is a `Deleted` under `p` and the tree is their replay |
| `WatchedNode.IntCodecRoundTrip` | src/java/com/rapleaf/hank/coordinator/zk/ZkHostDomainPartition.java:86-88 | a version written through the watched int reads back unchanged |
| `WatchedNode.BoolCodecRoundTrip` | src/java/com/rapleaf/hank/coordinator/zk/ZkHostDomainPartition.java:51 | a flag written as `Boolean.toString` bytes reads back unchanged |
| `WatchedNode.IntCodecRoundTrips` | src/java/com/rapleaf/hank/coordinator/zk/ZkHostDomainPartition.java:133-134 | the int codec round-trips every value |
| `WatchedNode.BoolCodecRoundTrips` | src/java/com/rapleaf/hank/coordinator/zk/ZkHostDomainPartition.java:124-125 | the boolean codec round-trips every value |
| `WatchedNode.DataRoundTrip` | src/java/com/rapleaf/hank/coordinator/zk/ZkHostDomainPartition.java:133-134 | a null value is written as no data and reads back as null; any other value reads back unchanged |
| `WatchedNode.ReadScalar` | src/java/com/rapleaf/hank/coordinator/zk/ZkHostDomainPartition.java:91 | the static one-shot `WatchedInt.get` / `WatchedBoolean.get` reads a missing node as null and fails only on lost connection or bad data |
| `WatchedNode.OpenScalar` | src/java/com/rapleaf/hank/coordinator/zk/ZkHostDomainPartition.java:68-69 | attaching a watched scalar succeeds exactly when its first read does, and caches what was read |
| `WatchedNode.WatchedScalar.constructor` | src/java/com/rapleaf/hank/coordinator/zk/ZkHostDomainPartition.java:68-69 | a scalar holds its path, its codec and its initial value |
| `WatchedNode.WatchedScalar.Refresh` | src/java/com/rapleaf/hank/coordinator/zk/ZkHostDomainPartition.java:68-70 | on a watch event the cached value becomes the node's current value; a failed read keeps the old value |
| `WatchedNode.WatchedScalar.Set` | src/java/com/rapleaf/hank/coordinator/zk/ZkHostDomainPartition.java:125-134 | `set(v)` writes the encoded value, which then reads back as `v`; on failure nothing changes |
| `HostDomainPartition.CreationWrites` | src/java/com/rapleaf/hank/coordinator/zk/ZkHostDomainPartition.java:49-52 | `create` writes four nodes, all `Created` and all at or under the partition path, the partition node first and the completion marker last |
| `HostDomainPartition.DeletableOrDefault` | src/java/com/rapleaf/hank/coordinator/zk/ZkHostDomainPartition.java:115-119 | the flag reads as not deletable exactly when it is stored as false; a null flag reads as deletable |
| `HostDomainPartition.PartitionPathRoundTrip` | src/java/com/rapleaf/hank/coordinator/zk/ZkHostDomainPartition.java:48-64 | a partition created as `append(domainPath, toString(n))` parses back to number `n` and has `domainPath` as its parent |
| `HostDomainPartition.ChildPaths` | src/java/com/rapleaf/hank/coordinator/zk/ZkHostDomainPartition.java:27-28 | the version, deletable and marker nodes are distinct direct children of the partition node |
| `HostDomainPartition.CreationReplay` | src/java/com/rapleaf/hank/coordinator/zk/ZkHostDomainPartition.java:49-52 | each prefix of the creation writes yields the tree after that many creates, ending with all four nodes |
| `HostDomainPartition.CreatedPartitionReads` | src/java/com/rapleaf/hank/coordinator/zk/ZkHostDomainPartition.java:50-51 | right after creation the version reads null, the flag reads false (not deletable), and the marker is present |
| `HostDomainPartition.CreatedTreeReads` | src/java/com/rapleaf/hank/coordinator/zk/ZkHostDomainPartition.java:49-52 | the tree the four creation writes produce reads as a null version and a false flag |
| `HostDomainPartition.MarkerWrittenLast` | src/java/com/rapleaf/hank/coordinator/zk/ZkHostDomainPartition.java:49-52 | no proper prefix of the creation writes makes the completion marker appear |
| `HostDomainPartition.IsDeletableFailsOpen` | src/java/com/rapleaf/hank/coordinator/zk/ZkHostDomainPartition.java:115-119 | a missing or null flag reads as deletable (true); a stored flag reads back as stored |
| `HostDomainPartition.CreationFaultFree` | src/java/com/rapleaf/hank/coordinator/zk/ZkHostDomainPartition.java:49-52 | once the partition node can be created, each of its three children can be created in turn |
| `HostDomainPartition.NewPartitionCreatable` | src/java/com/rapleaf/hank/coordinator/zk/ZkHostDomainPartition.java:48-49 | a partition node can be created under an existing domain node |
| `HostDomainPartition.CreatedNodesUnder` | src/java/com/rapleaf/hank/coordinator/zk/ZkHostDomainPartition.java:140-143 | all four created nodes lie at or under the partition's path |
| `HostDomainPartition.CreatedMarkerIsLeaf` | src/java/com/rapleaf/hank/coordinator/zk/ZkHostDomainPartition.java:142 | in a freshly created partition the completion marker has no children, so `delete(marker, -1)` can remove it |
| `HostDomainPartition.RemoveCreatedTree` | src/java/com/rapleaf/hank/coordinator/zk/ZkHostDomainPartition.java:142-143 | removing the marker and then the subtree of a freshly created partition gives back the tree from before creation |
| `ZkPath.ParentOutside` | src/java/com/rapleaf/hank/coordinator/zk/ZkHostDomainPartition.java:143 | a node outside a subtree has no parent inside it |
| `PartitionScenarios.ClearedFlagReads` | src/java/com/rapleaf/hank/coordinator/zk/ZkHostDomainPartition.java:115-116 | a flag node with no data reads as null, and the partition then reads as deletable |
| `HostDomainPartition.CreateDeleteRoundTrip` | src/java/com/rapleaf/hank/coordinator/zk/ZkHostDomainPartition.java:140-149 | deleting a freshly created partition succeeds and gives back the tree from before creation |
| `HostDomainPartition.CreatedSubtree` | src/java/com/rapleaf/hank/coordinator/zk/ZkHostDomainPartition.java:142-143 | once the marker is deleted, the subtree the recursive delete faces is exactly the partition node and its two data children |
| `HostDomainPartition.PartlyDeletedKeepsPartition` | src/java/com/rapleaf/hank/coordinator/zk/ZkHostDomainPartition.java:143 | a recursive delete of a partition stopped with two of its three remaining nodes left still holds the partition node, since a node goes only after its children |
| `HostDomainPartition.ChangeListener.OnDataLocationChange` | src/java/com/rapleaf/hank/coordinator/zk/ZkHostDomainPartition.java:157 | each call is one more notification |
| `HostDomainPartition.Partition.constructor` | src/java/com/rapleaf/hank/coordinator/zk/ZkHostDomainPartition.java:60-66 | the entity holds its store, path, number, mode, scalars and listener |
| `HostDomainPartition.Partition.GetPartitionNumber` | src/java/com/rapleaf/hank/coordinator/zk/ZkHostDomainPartition.java:99-101 | the number returned is what the last segment of the path parses to |
| `HostDomainPartition.Partition.GetPath` | src/java/com/rapleaf/hank/coordinator/zk/ZkHostDomainPartition.java:151-153 | the path returned is one whose last segment parses to the partition's number |
| `HostDomainPartition.Partition.GetCurrentDomainGroupVersion` | src/java/com/rapleaf/hank/coordinator/zk/ZkHostDomainPartition.java:86-96 | with watches, the cached version and no store call; without, a direct read of `current_version` that fails only on lost connection or bad data |
| `HostDomainPartition.Partition.IsDeletable` | src/java/com/rapleaf/hank/coordinator/zk/ZkHostDomainPartition.java:104-120 | the cached or directly read flag, with null read as true |
| `HostDomainPartition.Partition.SetDeletable` | src/java/com/rapleaf/hank/coordinator/zk/ZkHostDomainPartition.java:122-129 | without watches it always fails and changes nothing; with watches a successful write reads back as `b` and notifies the listener exactly once; a failed write changes nothing |
| `HostDomainPartition.Partition.SetCurrentDomainGroupVersion` | src/java/com/rapleaf/hank/coordinator/zk/ZkHostDomainPartition.java:131-138 | without watches it always fails and changes nothing; with watches a successful write reads back as `v`; a failed write changes nothing |
| `HostDomainPartition.Partition.Delete` | src/java/com/rapleaf/hank/coordinator/zk/ZkHostDomainPartition.java:140-149 | the marker is removed first; if that fails nothing changes; otherwise the subtree is deleted node by node: with budget for all of it no node at or under the path remains, and a lost connection leaves part of the subtree, never the marker, with every other node kept; the budget spent is one call per deleted node |
| `HostDomainPartition.Partition.DeletableChanged` | src/java/com/rapleaf/hank/coordinator/zk/ZkHostDomainPartition.java:69-83 | each deletable-flag event that reads successfully refreshes the flag and notifies the listener exactly once, whatever the new value |
| `HostDomainPartition.Partition.VersionChanged` | src/java/com/rapleaf/hank/coordinator/zk/ZkHostDomainPartition.java:68 | a version event refreshes the cached version and leaves the flag alone |
| `HostDomainPartition.Partition.FireDataLocationChangeListener` | src/java/com/rapleaf/hank/coordinator/zk/ZkHostDomainPartition.java:155-159 | the listener, if there is one, receives exactly one notification |
| `HostDomainPartition.Attach` | src/java/com/rapleaf/hank/coordinator/zk/ZkHostDomainPartition.java:60-75 | a non-numeric last segment fails with `NumberFormat`; without watches it makes no store call and succeeds; with watches it succeeds exactly when the connection lasts two reads and both nodes decode, fails with the first read's fault otherwise, and both scalars hold what the store holds |
| `HostDomainPartition.WritePartitionNodes` | src/java/com/rapleaf/hank/coordinator/zk/ZkHostDomainPartition.java:47-52 | the store's log grows by a prefix of the four creation writes in order; an existing partition writes nothing and fails with the first create's fault; a connection that drops after k calls leaves exactly k writes and fails with `ConnectionLoss`; one call is spent per write attempted |
| `HostDomainPartition.CreateNext` | src/java/com/rapleaf/hank/coordinator/zk/ZkHostDomainPartition.java:49-52 | one `zk.create` of the four: on success the log, tree and budget advance by that write; on failure nothing is written, and a connection loss happens exactly when the budget ran out at this write |
| `HostDomainPartition.AttachCreated` | src/java/com/rapleaf/hank/coordinator/zk/ZkHostDomainPartition.java:54 | attaching to a just-written partition succeeds exactly when the budget covers its reads (two with watches, none without), fails otherwise with `ConnectionLoss`, and caches a null version and a false flag |
| `HostDomainPartition.Create` | src/java/com/rapleaf/hank/coordinator/zk/ZkHostDomainPartition.java:43-58 | `create` writes a prefix of the four nodes in order, all four when the node is new and the connection lasts four calls; it succeeds exactly when the node is new and the connection lasts four calls (six with watches, so a connection lost during the constructor's reads fails `create` after all four writes); the fault is the first create's or `ConnectionLoss`; the new entity has the appended path and number `n`, a null version and a false flag; the calls spent are the writes attempted plus, once all four are written, two reads with watches |
| `PartitionScenarios.CreateThenRead` | src/java/com/rapleaf/hank/coordinator/zk/ZkHostDomainPartition.java:48-119 | in both modes, right after `create` the version is null, `isDeletable()` is false, the number is `n` and the path is `append(domainPath, toString(n))` |
| `PartitionScenarios.SetThenGet` | src/java/com/rapleaf/hank/coordinator/zk/ZkHostDomainPartition.java:86-138 | with watches, set version then get returns it, set deletable then `isDeletable` returns it, and the listener was told once |
| `PartitionScenarios.NoWatchWritesFail` | src/java/com/rapleaf/hank/coordinator/zk/ZkHostDomainPartition.java:71-137 | without watches both setters fail, the reads still see the created values, and the listener hears nothing |
| `PartitionScenarios.ClearedFlagReadsDeletable` | src/java/com/rapleaf/hank/coordinator/zk/ZkHostDomainPartition.java:77-119 | after another writer clears the flag's data, the partition reads as deletable; with watches the listener is told once |
| `PartitionScenarios.CreateThenDelete` | src/java/com/rapleaf/hank/coordinator/zk/ZkHostDomainPartition.java:140-149 | deleting a created partition succeeds and leaves only the domain node |
| `PartitionScenarios.InterruptedDelete` | src/java/com/rapleaf/hank/coordinator/zk/ZkHostDomainPartition.java:140-149 | a connection lost after the marker and one more node are deleted makes `delete` fail, leaving the domain node and the partition node without its marker |
| `PartitionScenarios.InterruptedAttach` | src/java/com/rapleaf/hank/coordinator/zk/ZkHostDomainPartition.java:47-57 | with watches on, a connection lost at the constructor's first read makes `create` fail with `ConnectionLoss` although all four nodes, the marker included, were written |
| `PartitionScenarios.InterruptedCreate` | src/java/com/rapleaf/hank/coordinator/zk/ZkHostDomainPartition.java:47-57 | a connection lost after the first create makes `create` fail, leaving the partition node without its completion marker |
| `WatchedMaps.StringElementLoader` | test/java/com/rapleaf/hank/zookeeper/TestWatchedMap.java:20-29 | the load succeeds exactly when the child exists with data, and then gives that data as text |
| `WatchedMaps.StepKeepsDisjoint` | test/java/com/rapleaf/hank/zookeeper/TestWatchedMap.java:79-92 | no event makes a child both exposed and pending |
| `WatchedMaps.RunKeepsDisjoint` | test/java/com/rapleaf/hank/zookeeper/TestWatchedMap.java:79-92 | no sequence of events makes a child both exposed and pending |
| `WatchedMaps.UngatedNeverPending` | test/java/com/rapleaf/hank/zookeeper/TestWatchedMap.java:47-53 | without a detector no child is ever pending |
| `WatchedMaps.GatedUntilCompleted` | test/java/com/rapleaf/hank/zookeeper/TestWatchedMap.java:79-89 | with a detector a child stays out of the map through any events that include no completion for it |
| `WatchedMaps.RemovedStaysAbsent` | test/java/com/rapleaf/hank/zookeeper/TestWatchedMap.java:63-71 | a child that is gone and not added again never appears, whatever completions arrive for it |
| `WatchedMaps.AddedThenRemoved` | test/java/com/rapleaf/hank/zookeeper/TestWatchedMap.java:96-104 | removing a just-added child restores the earlier view |
| `WatchedMaps.CompletedMatchesUngated` | test/java/com/rapleaf/hank/zookeeper/TestWatchedMap.java:79-92 | adding with a detector leaves the entries alone, and completion then ends where an add without a detector ends |
| `WatchedMaps.WatchedMap.Size` | test/java/com/rapleaf/hank/zookeeper/TestWatchedMap.java:50-53 | `size()` is zero exactly when nothing is exposed, and does not count pending children |
| `WatchedMaps.WatchedMap.Get` | test/java/com/rapleaf/hank/zookeeper/TestWatchedMap.java:99-101 | `get(name)` has a value exactly for an exposed child, and it is that child's entry |
| `WatchedMaps.LoadAll` | test/java/com/rapleaf/hank/zookeeper/TestWatchedMap.java:96-101 | the initial scan exposes exactly the children whose load succeeds, each with its loaded value |
| `WatchedMaps.LoadAllIsLoaded` | test/java/com/rapleaf/hank/zookeeper/TestWatchedMap.java:96-101 | that result is the loaded map of the children |
| `WatchedMaps.DetectAll` | test/java/com/rapleaf/hank/zookeeper/TestWatchedMap.java:59-62 | with a detector the initial scan makes every child pending and asks the detector about each exactly once |
| `WatchedMaps.WatchedMap.constructor` | test/java/com/rapleaf/hank/zookeeper/TestWatchedMap.java:47-50 | the new map holds the loaded children (no detector), or holds none and has every child pending (detector) |
| `WatchedMaps.WatchedMap.ChildAdded` | test/java/com/rapleaf/hank/zookeeper/TestWatchedMap.java:51-53 | the view moves by `Added`; with a detector the child is pending and the detector is asked once |
| `WatchedMaps.WatchedMap.Complete` | test/java/com/rapleaf/hank/zookeeper/TestWatchedMap.java:71 | the view moves by `Completed`: a pending child enters the map with its loaded value |
| `WatchedMaps.WatchedMap.ChildRemoved` | test/java/com/rapleaf/hank/zookeeper/TestWatchedMap.java:102-104 | the view moves by `Removed`: the child is evicted, pending or not |
| `WatchedMapScenarios.NoChildren` | test/java/com/rapleaf/hank/zookeeper/TestWatchedMap.java:47-50 | a node without children has no child names |
| `WatchedMapScenarios.TestIt` | test/java/com/rapleaf/hank/zookeeper/TestWatchedMap.java:31-54 | a map without a detector over an empty node has size 0, and size 1 with value "data" once child "first" is created |
| `WatchedMapScenarios.TestCompletionDetector` | test/java/com/rapleaf/hank/zookeeper/TestWatchedMap.java:56-93 | with a detector the new child "node" is handed to the detector and the size stays 0; after `completed("node")` the size is 1 with value "blah" |
| `WatchedMapScenarios.DeletionTree` | test/java/com/rapleaf/hank/zookeeper/TestWatchedMap.java:96-97 | the map node's only child is "1" |
| `WatchedMapScenarios.TestDeletion` | test/java/com/rapleaf/hank/zookeeper/TestWatchedMap.java:95-105 | a map over a node with child "1" holding "2" is exactly {"1" -> "2"}; deleting the child empties it |
| `WatchedMapScenarios.DeletedBeforeCompletion` | test/java/com/rapleaf/hank/zookeeper/TestWatchedMap.java:63-71 | a child deleted before its detector completes it stays out of the map |
| `InMemory.ValueSet` | test/java/com/rapleaf/hank/coordinator/in_memory/InMemoryCoordinator.java:47-50 | the set holds every stored value and nothing else |
| `InMemory.Coordinator.constructor` | test/java/com/rapleaf/hank/coordinator/in_memory/InMemoryCoordinator.java:16-18 | all three tables start empty |
| `InMemory.Coordinator.AddDomain` | test/java/com/rapleaf/hank/coordinator/in_memory/InMemoryCoordinator.java:21-26 | a new domain with the given arguments is stored under its name, replacing any earlier one; the other tables do not change |
| `InMemory.Coordinator.AddDomainGroup` | test/java/com/rapleaf/hank/coordinator/in_memory/InMemoryCoordinator.java:28-33 | a new domain group is stored under its name; the other tables do not change |
| `InMemory.Coordinator.AddRingGroup` | test/java/com/rapleaf/hank/coordinator/in_memory/InMemoryCoordinator.java:35-40 | a new ring group, linked to the group found under `domainGroupName` or to null, is stored under its name; the other tables do not change |
| `InMemory.Coordinator.GetDomainConfig` | test/java/com/rapleaf/hank/coordinator/in_memory/InMemoryCoordinator.java:42-45 | null exactly for an unknown name, otherwise the stored domain |
| `InMemory.Coordinator.GetDomainGroupConfig` | test/java/com/rapleaf/hank/coordinator/in_memory/InMemoryCoordinator.java:52-55 | null exactly for an unknown name, otherwise the stored group |
| `InMemory.Coordinator.GetRingGroupConfig` | test/java/com/rapleaf/hank/coordinator/in_memory/InMemoryCoordinator.java:62-65 | null exactly for an unknown name, otherwise the stored ring group |
| `InMemory.Coordinator.GetDomainConfigs` | test/java/com/rapleaf/hank/coordinator/in_memory/InMemoryCoordinator.java:47-50 | exactly the stored domains |
| `InMemory.Coordinator.GetDomainGroupConfigs` | test/java/com/rapleaf/hank/coordinator/in_memory/InMemoryCoordinator.java:57-60 | exactly the stored domain groups |
| `InMemory.Coordinator.GetRingGroups` | test/java/com/rapleaf/hank/coordinator/in_memory/InMemoryCoordinator.java:67-70 | exactly the stored ring groups |
| `InMemory.Coordinator.DeleteDomainConfig` | test/java/com/rapleaf/hank/coordinator/in_memory/InMemoryCoordinator.java:72-75 | returns true iff the name was present; afterwards it is absent; the other tables do not change |
| `InMemoryScenarios.AddThenGetDomain` | test/java/com/rapleaf/hank/coordinator/in_memory/InMemoryCoordinator.java:21-50 | the lookup returns the object the add returned; a second add under the same name replaces it, and only the replacement is listed |
| `InMemoryScenarios.UnknownNames` | test/java/com/rapleaf/hank/coordinator/in_memory/InMemoryCoordinator.java:42-70 | a fresh registry returns null for every lookup and empty sets |
| `InMemoryScenarios.DeleteTwice` | test/java/com/rapleaf/hank/coordinator/in_memory/InMemoryCoordinator.java:72-75 | the first delete reports true, the second false; the other domain and the group of the same name stay |
| `InMemoryScenarios.RingGroupLinks` | test/java/com/rapleaf/hank/coordinator/in_memory/InMemoryCoordinator.java:35-40 | a ring group is linked to its known domain group, or to null for an unknown one, and both ring groups are listed |

## Left out

- Real ZooKeeper is not modelled: sessions, watch re-registration, the notification thread and `Thread.sleep` timing. Store notifications and detector callbacks are explicit calls, in the orders the tests produce.
- The byte encodings of `WatchedInt` and `WatchedBoolean` are not part of this model. Decimal text (`Integer.toString`) and `Boolean.toString` are assumed, because the only visible encoding is `"false".getBytes()`.
- The order in which `WatchedNode` listeners are delivered is not modelled. The partition registers only one listener.
- The internals of `ZkPath`, `ZooKeeperPlus` and `DotComplete` are not part of this model. `append` is taken to be `parent + "/" + child`, `getFilename` the text after the last '/', and `DotComplete.NODE_NAME` to be `.complete`.
- `HostDomainPartition.Partition.Delete`: no idempotence. A second call fails on the missing marker. This assumes `ZooKeeperPlus.delete` raises `NoNode` for a missing node, as ZooKeeper's `delete` does; `ZooKeeperPlus` is not part of this model.
- `ZkStore.Store.DeleteRecursive`: `deleteNodeRecursively` is not part of this model. It is assumed to delete leaf-first with one `delete` per node, in an unspecified order. Its listing of children (`getChildren`) is not counted against the connection budget. A missing root is not treated as an error: there is nothing to delete.
- `WatchedNode.ReadScalar`: the static `WatchedInt.get` / `WatchedBoolean.get` are not part of this model. They are assumed to read a missing node as null rather than fail.
- `WatchedNode.OpenScalar`: the third constructor argument of `WatchedInt` / `WatchedBoolean` (`true` at lines 68-69) is not modelled, because its meaning is in `WatchedNode`, which is not part of this model. Each scalar simply reads its node once when attached.
- `JavaText.ParseInt`: only ASCII digits '0'-'9' are accepted, where Java also accepts other Unicode decimal digits. A leading '+' is accepted, as in Java 7 and later; Java 6 rejects it. Neither affects the round trip with `Integer.toString`, which writes only ASCII digits and '-'.
- `JavaText.ParseIntNeedsNumeral`: stated for ASCII digits only, like `ParseInt`.
- `JavaText.BytesToString`: the platform default charset is not modelled. Bytes are read as Latin-1, one character per byte. For ASCII bytes this agrees with every common default charset, including UTF-8.
- `JavaText.StringToBytes`: defined only for ASCII text. All text the model encodes (`Integer.toString`, `Boolean.toString` and the tests' "data", "blah" and "2") is ASCII. Under a multi-byte default charset such as UTF-8, other characters would take more than one byte each.
- `WatchedMaps.StringElementLoader`: reads child data through `BytesToString`, so it inherits the Latin-1 reading. It is exact for ASCII data only.
- Generation tags for stale completions are not modelled. Nothing in the code or the tests has them. A completion for a child that is no longer pending is simply ignored.
- `WatchedMaps.WatchedMap.ChildAdded`: children-changed notifications arrive one child at a time. `WatchedMap`'s own diff of the child list is not part of this model.
- Connection loss is not modelled for the watched map's loads. A failed load of any kind keeps the child out of the map.
- `MemDomain`, `MemDomainGroup` and `MemRingGroup` are not part of this model beyond the constructor arguments `InMemoryCoordinator` passes.
- `YamlCoordinatorConfigurator` is not modelled: it loads factories by reflection.
- `TestMapStorageEngineCoordinator` is not modelled: it is a Hadoop storage-engine test.
- The `DataLocationChangeListener` is reduced to a count of the notifications it receives.
