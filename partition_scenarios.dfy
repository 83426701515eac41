/**
 * Call sequences on the partition entity against a fresh store whose
 * connection holds unless stated otherwise: what a caller observes after
 * create, set, an external write and delete, in both watch modes.
 */
module PartitionScenarios {
  import opened Wrappers
  import opened JavaText
  import opened ZkPath
  import opened ZkStore
  import opened WatchedNode
  import opened HostDomainPartition

  /** A store holding the domain node and one freshly created partition under it. */
  method PartitionStore(domainPath: Path, n: int32, listener: ChangeListener?, watches: bool)
    returns (store: Store, p: Partition)
    requires TopLevel(domainPath)
    ensures fresh(store) && p.Valid() && p.store == store && p.listener == listener && p.watches == watches
    ensures p.path == PartitionPath(domainPath, n) && p.partNum == n
    ensures store.failAfter == None
    ensures store.nodes == AfterCreation(map[domainPath := None], p.path)
    ensures watches ==> fresh(p.version) && fresh(p.deletable)
    ensures watches ==> p.version.value == None && p.deletable.value == Some(false)
  {
    store := SingleNodeStore(domainPath, None);
    NewPartitionCreatable(domainPath, n);
    var r, written := Create(store, domainPath, n, listener, watches);
    p := r.value;
    CreationReplay(map[domainPath := None], p.path);
  }

  /** Right after `create`, the version reads as null and the partition as not deletable. */
  method CreateThenRead(domainPath: Path, n: int32, watches: bool)
    returns (version: Result<Option<int32>, Fault>, deletable: Result<bool, Fault>, number: int32, path: Path)
    requires TopLevel(domainPath)
    ensures version == Success(None) && deletable == Success(false)
    ensures number == n && path == Append(domainPath, IntToString(n))
  {
    var store, p := PartitionStore(domainPath, n, null, watches);
    CreatedPartitionReads(map[domainPath := None], p.path);
    ghost var nodes := store.nodes;
    assert StoredVersion(nodes, p.path) == Success(None) && StoredDeletable(nodes, p.path) == Success(false);
    version := p.GetCurrentDomainGroupVersion();
    assert store.nodes == nodes && store.failAfter == None;
    deletable := p.IsDeletable();
    number := p.GetPartitionNumber();
    path := p.GetPath();
  }

  /** With watches on, each write reads back as written and the listener hears of the flag change once. */
  method SetThenGet(domainPath: Path, n: int32, v: int32, b: bool)
    returns (version: Result<Option<int32>, Fault>, deletable: Result<bool, Fault>, notified: nat)
    requires TopLevel(domainPath)
    ensures version == Success(Some(v)) && deletable == Success(b) && notified == 1
  {
    var listener := new ChangeListener();
    var store, p := PartitionStore(domainPath, n, listener, true);
    CreatedPartitionReads(map[domainPath := None], p.path);
    version, deletable, notified := WriteThenRead(p, listener, v, b);
  }

  /** The writes and reads of `SetThenGet` on a watched partition whose nodes exist. */
  method WriteThenRead(p: Partition, listener: ChangeListener, v: int32, b: bool)
    returns (version: Result<Option<int32>, Fault>, deletable: Result<bool, Fault>, notified: nat)
    requires p.Valid() && p.watches && p.listener == listener && listener.notifications == 0
    requires p.store.failAfter == None
    requires VersionPath(p.path) in p.store.nodes && DeletablePath(p.path) in p.store.nodes
    modifies p.store, p.version, p.deletable, listener
    ensures version == Success(Some(v)) && deletable == Success(b) && notified == 1
  {
    var o := p.SetCurrentDomainGroupVersion(Some(v));
    assert o == Pass && p.version.value == Some(v);
    o := p.SetDeletable(b);
    assert o == Pass && p.deletable.value == Some(b) && listener.notifications == 1;
    version := p.GetCurrentDomainGroupVersion();
    deletable := p.IsDeletable();
    notified := listener.notifications;
  }

  /** With watches off, both setters fail, the store keeps its data and nobody is notified. */
  method NoWatchWritesFail(domainPath: Path, n: int32, v: int32, b: bool)
    returns (setVersion: Outcome<Fault>, setDeletable: Outcome<Fault>,
             version: Result<Option<int32>, Fault>, deletable: Result<bool, Fault>, notified: nat)
    requires TopLevel(domainPath)
    ensures setVersion == Fail(NullScalar) && setDeletable == Fail(NullScalar)
    ensures version == Success(None) && deletable == Success(false) && notified == 0
  {
    var listener := new ChangeListener();
    var store, p := PartitionStore(domainPath, n, listener, false);
    CreatedPartitionReads(map[domainPath := None], p.path);
    setVersion := p.SetCurrentDomainGroupVersion(Some(v));
    setDeletable := p.SetDeletable(b);
    version := p.GetCurrentDomainGroupVersion();
    deletable := p.IsDeletable();
    notified := listener.notifications;
  }

  /**
   * Another writer clears the flag's data: the partition then reads as
   * deletable, and with watches on the listener is told once.
   */
  method ClearedFlagReadsDeletable(domainPath: Path, n: int32, watches: bool)
    returns (deletable: Result<bool, Fault>, notified: nat)
    requires TopLevel(domainPath)
    ensures deletable == Success(true)
    ensures notified == if watches then 1 else 0
  {
    var listener := new ChangeListener();
    var store, p := PartitionStore(domainPath, n, listener, watches);
    ChildPaths(p.path);
    var o := store.SetData(DeletablePath(p.path), None);
    ClearedFlagReads(store.nodes, p.path);
    if watches {
      o := p.DeletableChanged();
    }
    deletable := p.IsDeletable();
    notified := listener.notifications;
  }

  /** A flag node whose data was cleared reads as null, so the partition reads as deletable. */
  lemma ClearedFlagReads(nodes: Tree, p: Path)
    requires DeletablePath(p) in nodes && nodes[DeletablePath(p)] == None
    ensures ReadValue(nodes, DeletablePath(p), DecodeBool) == Success(None)
    ensures StoredDeletable(nodes, p) == Success(true)
  {
  }

  /** `delete` removes the partition's whole subtree and leaves the domain node. */
  method CreateThenDelete(domainPath: Path, n: int32, watches: bool) returns (deleted: Outcome<Fault>, left: set<Path>)
    requires TopLevel(domainPath)
    ensures deleted == Pass && left == {domainPath}
  {
    var store, p := PartitionStore(domainPath, n, null, watches);
    PartitionPathRoundTrip(domainPath, n);
    assert !AtOrUnder(domainPath, p.path);
    CreateDeleteRoundTrip(map[domainPath := None], p.path);
    ghost var removed;
    deleted, removed := p.Delete();
    left := store.nodes.Keys;
  }

  /**
   * The connection drops after the marker and one more node are deleted:
   * delete fails, the marker is gone, and the partition node and the domain
   * node are still there, as after an interrupted create.
   */
  method InterruptedDelete(domainPath: Path, n: int32, watches: bool)
    returns (deleted: Outcome<Fault>, domainNode: bool, partitionNode: bool, marker: bool)
    requires TopLevel(domainPath)
    ensures deleted == Fail(ConnectionLoss) && domainNode && partitionNode && !marker
  {
    var store, p := PartitionStore(domainPath, n, null, watches);
    PartitionPathRoundTrip(domainPath, n);
    store.failAfter := Some(2);
    deleted := DeleteWithTwoCalls(domainPath, store, p);
    domainNode := domainPath in store.nodes;
    partitionNode := p.path in store.nodes;
    marker := MarkerPath(p.path) in store.nodes;
  }

  /** `delete` on a freshly created partition when the store lets two more calls through. */
  method DeleteWithTwoCalls(domainPath: Path, store: Store, p: Partition) returns (deleted: Outcome<Fault>)
    requires TopLevel(domainPath) && GetParent(p.path) == domainPath
    requires p.Valid() && p.store == store
    requires store.nodes == AfterCreation(map[domainPath := None], p.path) && store.failAfter == Some(2)
    modifies store
    ensures deleted == Fail(ConnectionLoss)
    ensures domainPath in store.nodes && p.path in store.nodes && MarkerPath(p.path) !in store.nodes
  {
    CreatedPartitionSubtree(domainPath, p.path);
    ghost var rest := store.nodes - {MarkerPath(p.path)};
    assert |Subtree(rest, p.path)| == 3;
    assert Status(Some(2), DeleteFault(store.nodes, MarkerPath(p.path))) == Pass;
    assert !Budget(Some(2), 1 + 3);
    ghost var removed;
    deleted, removed := p.Delete();
    assert deleted.Fail? && removed == 1;
    assert |Subtree(store.nodes, p.path)| == 2;
    PrunedSubtree(store.nodes, rest, p.path);
    PartlyDeletedKeepsPartition(store.nodes, p.path);
  }

  /** Without its marker, a created partition's subtree is the partition node and its two data children. */
  lemma CreatedPartitionSubtree(domainPath: Path, p: Path)
    requires GetParent(p) == domainPath && TopLevel(domainPath)
    ensures Subtree(AfterCreation(map[domainPath := None], p) - {MarkerPath(p)}, p) == {p, VersionPath(p), DeletablePath(p)}
    ensures DeleteFault(AfterCreation(map[domainPath := None], p), MarkerPath(p)) == None
    ensures !AtOrUnder(domainPath, p) && p != ""
  {
    ChildPaths(p);
    CreatedNodesUnder(p);
    assert !AtOrUnder(domainPath, p);
    CreateDeleteRoundTrip(map[domainPath := None], p);
    CreatedSubtree(map[domainPath := None], p);
  }

  /**
   * The connection drops after the partition node is written: create fails,
   * the partition node is there, the completion marker is not.
   */
  method InterruptedCreate(domainPath: Path, n: int32) returns (error: Option<Fault>, partitionNode: bool, marker: bool)
    requires TopLevel(domainPath)
    ensures error == Some(ConnectionLoss) && partitionNode && !marker
  {
    var store := SingleNodeStore(domainPath, Some(2));
    NewPartitionCreatable(domainPath, n);
    var hdp := PartitionPath(domainPath, n);
    CreationReplay(map[domainPath := None], hdp);
    ChildPaths(hdp);
    var r, written := Create(store, domainPath, n, null, false);
    error := if r.Failure? then Some(r.error) else None;
    partitionNode := hdp in store.nodes;
    marker := MarkerPath(hdp) in store.nodes;
  }

  /**
   * With watches on, the connection drops after the four creates, at the
   * constructor's first read: every node including the marker is written,
   * yet create fails.
   */
  method InterruptedAttach(domainPath: Path, n: int32) returns (error: Option<Fault>, written: bool, marker: bool)
    requires TopLevel(domainPath)
    ensures error == Some(ConnectionLoss) && written && marker
  {
    var store := SingleNodeStore(domainPath, Some(5));
    NewPartitionCreatable(domainPath, n);
    var hdp := PartitionPath(domainPath, n);
    CreationReplay(map[domainPath := None], hdp);
    CreatedPartitionReads(map[domainPath := None], hdp);
    var r, w := Create(store, domainPath, n, null, true);
    error := if r.Failure? then Some(r.error) else None;
    written := hdp in store.nodes;
    marker := MarkerPath(hdp) in store.nodes;
  }
}
