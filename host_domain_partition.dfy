/**
 * One partition's metadata entity (`ZkHostDomainPartition`): the node
 * `<domain>/<partition number>` with its children `current_version`,
 * `selected_for_deletion` and the completion marker `.complete`. With
 * watches on, the version and the deletable flag are read through watched
 * scalars kept current by notifications; with watches off, every read goes
 * to the store and every write fails.
 */
module HostDomainPartition {
  import opened Wrappers
  import opened JavaText
  import opened ZkPath
  import opened ZkStore
  import opened WatchedNode

  const CURRENT_VERSION_PATH_SEGMENT: string := "current_version"
  const DELETABLE_PATH_SEGMENT: string := "selected_for_deletion"
  /** The name of the completion marker node (`DotComplete.NODE_NAME`). */
  const COMPLETE_NODE_NAME: string := ".complete"

  function PartitionPath(domainPath: Path, partNum: int32): Path {
    Append(domainPath, IntToString(partNum))
  }

  function VersionPath(p: Path): Path {
    Append(p, CURRENT_VERSION_PATH_SEGMENT)
  }

  function DeletablePath(p: Path): Path {
    Append(p, DELETABLE_PATH_SEGMENT)
  }

  function MarkerPath(p: Path): Path {
    Append(p, COMPLETE_NODE_NAME)
  }

  /** The four nodes `create` writes, in the order it writes them. */
  function CreationWrites(p: Path): (ws: seq<Write>)
    ensures |ws| == 4 && ws[0] == Created(p, None) && ws[3] == Created(MarkerPath(p), None)
    ensures forall i | 0 <= i < 3 :: ws[i].Created? && ws[i].path != MarkerPath(p)
  {
    ChildPaths(p);
    [ Created(p, None),
      Created(VersionPath(p), None),
      Created(DeletablePath(p), Some(EncodeBool(false))),
      Created(MarkerPath(p), None) ]
  }

  /** The tree once all four nodes of a partition have been created. */
  function AfterCreation(nodes: Tree, p: Path): Tree {
    nodes[p := None][VersionPath(p) := None][DeletablePath(p) := Some(EncodeBool(false))][MarkerPath(p) := None]
  }

  /** The partition number the constructor parses from the last path segment; `None` is a `NumberFormatException`. */
  function PartitionNumberOf(p: Path): Option<int32> {
    ParseInt(GetFilename(p))
  }

  /** `isDeletable`'s reading of the stored flag: a null flag means deletable. */
  function DeletableOrDefault(stored: Option<bool>): (r: bool)
    ensures !r <==> stored == Some(false)
  {
    if stored.None? then true else stored.value
  }

  /** What a direct read of the serving version finds in `nodes`. */
  function StoredVersion(nodes: Tree, p: Path): Result<Option<int32>, Fault> {
    ReadValue(nodes, VersionPath(p), DecodeInt)
  }

  /** What a direct `isDeletable` finds in `nodes`. */
  function StoredDeletable(nodes: Tree, p: Path): Result<bool, Fault> {
    match ReadValue(nodes, DeletablePath(p), DecodeBool)
    case Success(v) => Success(DeletableOrDefault(v))
    case Failure(f) => Failure(f)
  }

  /** A partition created as `append(domainPath, toString(n))` reports number `n` and lives under `domainPath`. */
  lemma PartitionPathRoundTrip(domainPath: Path, n: int32)
    ensures PartitionNumberOf(PartitionPath(domainPath, n)) == Some(n)
    ensures GetParent(PartitionPath(domainPath, n)) == domainPath
  {
    var s := IntToString(n);
    assert '/' !in s by {
      forall i | 0 <= i < |s| ensures s[i] != '/' {
        assert IsDigit(s[i]) || s[i] == '-';
      }
    }
    SplitAppend(domainPath, s);
    ParseIntToString(n);
  }

  /** The children of a partition node are distinct nodes, each directly beneath it. */
  lemma ChildPaths(p: Path)
    ensures GetParent(VersionPath(p)) == p && GetParent(DeletablePath(p)) == p && GetParent(MarkerPath(p)) == p
    ensures |VersionPath(p)| == |p| + 16 && |DeletablePath(p)| == |p| + 22 && |MarkerPath(p)| == |p| + 10
  {
    SplitAppend(p, CURRENT_VERSION_PATH_SEGMENT);
    SplitAppend(p, DELETABLE_PATH_SEGMENT);
    SplitAppend(p, COMPLETE_NODE_NAME);
  }

  /** Replaying each prefix of the creation writes gives the tree after that many creates. */
  lemma CreationReplay(nodes: Tree, p: Path)
    ensures Replay(nodes, CreationWrites(p)[..0]) == nodes
    ensures Replay(nodes, CreationWrites(p)[..1]) == nodes[p := None]
    ensures Replay(nodes, CreationWrites(p)[..2]) == nodes[p := None][VersionPath(p) := None]
    ensures Replay(nodes, CreationWrites(p)[..3])
            == nodes[p := None][VersionPath(p) := None][DeletablePath(p) := Some(EncodeBool(false))]
    ensures Replay(nodes, CreationWrites(p)) == AfterCreation(nodes, p)
    ensures Replay(nodes, CreationWrites(p)[..4]) == AfterCreation(nodes, p)
  {
    var ws := CreationWrites(p);
    assert ws[..0] == [];
    assert ws[..1] == ws[..0] + [ws[0]];
    ReplaySnoc(nodes, ws[..0], ws[0]);
    assert ws[..2] == ws[..1] + [ws[1]];
    ReplaySnoc(nodes, ws[..1], ws[1]);
    assert ws[..3] == ws[..2] + [ws[2]];
    ReplaySnoc(nodes, ws[..2], ws[2]);
    assert ws == ws[..3] + [ws[3]];
    ReplaySnoc(nodes, ws[..3], ws[3]);
    assert ws[..4] == ws;
  }

  /** Right after creation the version reads as null, the flag as not deletable, and the marker is present. */
  lemma CreatedPartitionReads(nodes: Tree, p: Path)
    ensures StoredVersion(AfterCreation(nodes, p), p) == Success(None)
    ensures StoredDeletable(AfterCreation(nodes, p), p) == Success(false)
    ensures ReadValue(AfterCreation(nodes, p), DeletablePath(p), DecodeBool) == Success(Some(false))
    ensures p in AfterCreation(nodes, p) && MarkerPath(p) in AfterCreation(nodes, p)
  {
    ChildPaths(p);
    BoolCodecRoundTrip(false);
  }

  lemma CreatedTreeReads(nodes0: Tree, nodes: Tree, p: Path)
    requires nodes == Replay(nodes0, CreationWrites(p))
    ensures StoredVersion(nodes, p) == Success(None)
    ensures ReadValue(nodes, DeletablePath(p), DecodeBool) == Success(Some(false))
  {
    CreationReplay(nodes0, p);
    CreatedPartitionReads(nodes0, p);
  }

  /** No proper prefix of the creation writes makes a missing marker appear: the marker is written last. */
  lemma {:induction false} MarkerWrittenLast(nodes: Tree, p: Path, k: nat)
    requires k < 4
    requires MarkerPath(p) !in nodes
    ensures MarkerPath(p) !in Replay(nodes, CreationWrites(p)[..k])
  {
    ChildPaths(p);
    var ws := CreationWrites(p)[..k];
    if k > 0 {
      assert ws[..k - 1] == CreationWrites(p)[..k - 1];
      MarkerWrittenLast(nodes, p, k - 1);
    }
  }

  /** `isDeletable` fails open: a missing node or null data reads as deletable; a written flag reads back as written. */
  lemma IsDeletableFailsOpen(nodes: Tree, p: Path)
    ensures DeletablePath(p) !in nodes || nodes[DeletablePath(p)] == None ==> StoredDeletable(nodes, p) == Success(true)
    ensures forall b: bool :: DeletablePath(p) in nodes && nodes[DeletablePath(p)] == Some(EncodeBool(b)) ==>
              StoredDeletable(nodes, p) == Success(b)
  {
    forall b: bool ensures DecodeBool(EncodeBool(b)) == Some(b) {
      BoolCodecRoundTrip(b);
    }
  }

  /** When the partition node can be created, so can each of its children in turn. */
  lemma CreationFaultFree(nodes: Tree, p: Path)
    requires forall q | q in nodes :: q != "" && ParentPresent(nodes, q)
    requires CreateFault(nodes, p) == None
    ensures CreateFault(nodes[p := None], VersionPath(p)) == None
    ensures CreateFault(nodes[p := None][VersionPath(p) := None], DeletablePath(p)) == None
    ensures CreateFault(nodes[p := None][VersionPath(p) := None][DeletablePath(p) := Some(EncodeBool(false))], MarkerPath(p)) == None
  {
    ChildPaths(p);
  }

  /** In a tree holding just the domain node, a partition of that domain can be created. */
  lemma NewPartitionCreatable(domainPath: Path, n: int32)
    requires domainPath != ""
    ensures CreateFault(map[domainPath := None], PartitionPath(domainPath, n)) == None
  {
    PartitionPathRoundTrip(domainPath, n);
  }

  /** The partition node and its children all lie at or under the partition's path. */
  lemma CreatedNodesUnder(p: Path)
    ensures AtOrUnder(p, p) && AtOrUnder(VersionPath(p), p)
    ensures AtOrUnder(DeletablePath(p), p) && AtOrUnder(MarkerPath(p), p)
  {
    assert VersionPath(p)[..|p| + 1] == p + "/";
    assert DeletablePath(p)[..|p| + 1] == p + "/";
    assert MarkerPath(p)[..|p| + 1] == p + "/";
  }

  /** In a tree with nothing at or under the partition's path, the created marker has no children. */
  lemma CreatedMarkerIsLeaf(nodes: Tree, p: Path)
    requires forall q | q in nodes :: !AtOrUnder(q, p)
    ensures !HasChildren(AfterCreation(nodes, p), MarkerPath(p))
  {
    var after := AfterCreation(nodes, p);
    var m := MarkerPath(p);
    ChildPaths(p);
    CreatedNodesUnder(p);
    forall q | q in after ensures GetParent(q) != m {
      if q in nodes {
        ParentOutside(q, p);
      } else {
        assert |GetParent(q)| <= |q|;
      }
    }
  }

  /** Removing the created marker and then the partition's subtree gives back the tree from before creation. */
  lemma RemoveCreatedTree(nodes: Tree, p: Path)
    requires forall q | q in nodes :: !AtOrUnder(q, p)
    ensures RemoveTree(AfterCreation(nodes, p) - {MarkerPath(p)}, p) == nodes
  {
    CreatedNodesUnder(p);
    var rest := RemoveTree(AfterCreation(nodes, p) - {MarkerPath(p)}, p);
    forall k | k in nodes ensures k in rest && rest[k] == nodes[k] {
      assert k != p && k != VersionPath(p) && k != DeletablePath(p) && k != MarkerPath(p);
    }
    assert rest.Keys == nodes.Keys;
  }

  /**
   * Deleting a partition undoes its creation: in a tree with nothing at or
   * under the partition's path, the marker of the created partition can be
   * deleted, and the recursive delete then gives back the original tree.
   */
  lemma CreateDeleteRoundTrip(nodes: Tree, p: Path)
    requires forall q | q in nodes :: !AtOrUnder(q, p)
    ensures DeleteFault(AfterCreation(nodes, p), MarkerPath(p)) == None
    ensures RemoveTree(AfterCreation(nodes, p) - {MarkerPath(p)}, p) == nodes
  {
    CreatedMarkerIsLeaf(nodes, p);
    RemoveCreatedTree(nodes, p);
  }

  /** Once the marker is gone, a freshly written partition's subtree is the node and its two data children. */
  lemma CreatedSubtree(nodes: Tree, p: Path)
    requires forall q | q in nodes :: !AtOrUnder(q, p)
    ensures Subtree(AfterCreation(nodes, p) - {MarkerPath(p)}, p) == {p, VersionPath(p), DeletablePath(p)}
  {
    ChildPaths(p);
    CreatedNodesUnder(p);
    var t := AfterCreation(nodes, p) - {MarkerPath(p)};
    forall q
      ensures q in Subtree(t, p) <==> q in {p, VersionPath(p), DeletablePath(p)}
    {
      if q in nodes && q !in {p, VersionPath(p), DeletablePath(p)} {
        assert !AtOrUnder(q, p);
      }
    }
  }

  /**
   * A recursive delete of a partition's node and its two data children that
   * stopped after one delete still holds the partition node: the node
   * cannot go before its children, and one of them is left.
   */
  lemma PartlyDeletedKeepsPartition(nodes: Tree, p: Path)
    requires forall x | x in nodes :: x != "" && ParentPresent(nodes, x)
    requires p != ""
    requires Subtree(nodes, p) <= {p, VersionPath(p), DeletablePath(p)}
    requires |Subtree(nodes, p)| == 2
    ensures p in nodes
  {
    ChildPaths(p);
    var s := Subtree(nodes, p);
    assert |s - {p}| >= 1;
    var x :| x in s - {p};
    assert GetParent(x) == p;
  }

  /** A `DataLocationChangeListener`, reduced to the number of notifications it has received. */
  class ChangeListener {
    var notifications: nat

    constructor ()
      ensures notifications == 0
    {
      notifications := 0;
    }

    method OnDataLocationChange()
      modifies this
      ensures notifications == old(notifications) + 1
    {
      notifications := notifications + 1;
    }
  }

  class Partition {
    const store: Store
    const path: Path
    const partNum: int32
    /** Whether this instance keeps live watches (`doUsePartitionWatches`). */
    const watches: bool
    const version: WatchedScalar?<int32>
    const deletable: WatchedScalar?<bool>
    const listener: ChangeListener?

    ghost predicate Valid()
      reads store
    {
      && store.Valid()
      && PartitionNumberOf(path) == Some(partNum)
      && (watches <==> version != null)
      && (watches <==> deletable != null)
      && (version != null ==>
            version.store == store && version.nodePath == VersionPath(path)
            && version.encode == EncodeInt && version.decode == DecodeInt)
      && (deletable != null ==>
            deletable.store == store && deletable.nodePath == DeletablePath(path)
            && deletable.encode == EncodeBool && deletable.decode == DecodeBool)
    }

    constructor (store: Store, path: Path, partNum: int32, watches: bool,
                 version: WatchedScalar?<int32>, deletable: WatchedScalar?<bool>, listener: ChangeListener?)
      ensures this.store == store && this.path == path && this.partNum == partNum && this.watches == watches
      ensures this.version == version && this.deletable == deletable && this.listener == listener
    {
      this.store := store;
      this.path := path;
      this.partNum := partNum;
      this.watches := watches;
      this.version := version;
      this.deletable := deletable;
      this.listener := listener;
    }

    /** `getPartitionNumber()`: the number parsed from the last segment of the partition's path. */
    function GetPartitionNumber(): (n: int32)
      requires Valid()
      reads store
      ensures PartitionNumberOf(path) == Some(n)
    {
      partNum
    }

    /** `getPath()`: the partition's node, whose last segment is the partition number. */
    function GetPath(): (p: Path)
      requires Valid()
      reads store
      ensures PartitionNumberOf(p) == Some(partNum)
    {
      path
    }

    /** `getCurrentDomainGroupVersion()`: the cached value with watches, a direct read without. */
    method GetCurrentDomainGroupVersion() returns (r: Result<Option<int32>, Fault>)
      requires Valid()
      modifies store`failAfter
      ensures Valid()
      ensures watches ==> r == Success(version.value) && store.failAfter == old(store.failAfter)
      ensures !watches ==> store.failAfter == Tick(old(store.failAfter))
                           && r == if Lost(old(store.failAfter)) then Failure(ConnectionLoss)
                                   else StoredVersion(store.nodes, path)
    {
      if version != null {
        r := Success(version.value);
      } else {
        r := ReadScalar(store, VersionPath(path), DecodeInt);
      }
    }

    /** `isDeletable()`: the cached or directly read flag, with null read as deletable. */
    method IsDeletable() returns (r: Result<bool, Fault>)
      requires Valid()
      modifies store`failAfter
      ensures Valid()
      ensures watches ==> r == Success(DeletableOrDefault(deletable.value)) && store.failAfter == old(store.failAfter)
      ensures !watches ==> store.failAfter == Tick(old(store.failAfter))
                           && r == if Lost(old(store.failAfter)) then Failure(ConnectionLoss)
                                   else StoredDeletable(store.nodes, path)
    {
      var result: Option<bool>;
      if deletable != null {
        result := deletable.value;
      } else {
        var read := ReadScalar(store, DeletablePath(path), DecodeBool);
        if read.Failure? {
          return Failure(read.error);
        }
        result := read.value;
      }
      r := Success(DeletableOrDefault(result));
    }

    /** `setDeletable(b)`: writes through the watched flag; fails when there is none. */
    method SetDeletable(b: bool) returns (r: Outcome<Fault>)
      requires Valid()
      modifies store, deletable, listener
      ensures Valid()
      ensures !watches ==> r == Fail(NullScalar) && store.failAfter == old(store.failAfter)
      ensures watches ==> r == Status(old(store.failAfter), SetFault(old(store.nodes), DeletablePath(path)))
                          && store.failAfter == Tick(old(store.failAfter))
      ensures r.Pass? ==> deletable.value == Some(b)
                          && store.nodes == old(store.nodes)[DeletablePath(path) := Some(EncodeBool(b))]
                          && store.log == old(store.log) + [DataSet(DeletablePath(path), Some(EncodeBool(b)))]
                          && StoredDeletable(store.nodes, path) == Success(b)
      ensures r.Fail? ==> store.nodes == old(store.nodes) && store.log == old(store.log)
                          && (deletable != null ==> deletable.value == old(deletable.value))
      ensures listener != null ==> listener.notifications == old(listener.notifications) + (if r.Pass? then 1 else 0)
      ensures version != null ==> version.value == old(version.value)
    {
      if deletable == null {
        return Fail(NullScalar);
      }
      BoolCodecRoundTrips();
      r := deletable.Set(Some(b));
      if r.Pass? {
        IsDeletableFailsOpen(store.nodes, path);
        FireDataLocationChangeListener();
      }
    }

    /** `setCurrentDomainGroupVersion(v)`: writes through the watched version; fails when there is none. */
    method SetCurrentDomainGroupVersion(v: Option<int32>) returns (r: Outcome<Fault>)
      requires Valid()
      modifies store, version
      ensures Valid()
      ensures !watches ==> r == Fail(NullScalar) && store.failAfter == old(store.failAfter)
      ensures watches ==> r == Status(old(store.failAfter), SetFault(old(store.nodes), VersionPath(path)))
                          && store.failAfter == Tick(old(store.failAfter))
      ensures r.Pass? ==> version.value == v
                          && store.nodes == old(store.nodes)[VersionPath(path) := EncodeData(v, EncodeInt)]
                          && store.log == old(store.log) + [DataSet(VersionPath(path), EncodeData(v, EncodeInt))]
                          && StoredVersion(store.nodes, path) == Success(v)
      ensures r.Fail? ==> store.nodes == old(store.nodes) && store.log == old(store.log)
                          && (version != null ==> version.value == old(version.value))
      ensures deletable != null ==> deletable.value == old(deletable.value)
    {
      if version == null {
        return Fail(NullScalar);
      }
      IntCodecRoundTrips();
      r := version.Set(v);
    }

    /**
     * `delete()`: removes the completion marker, then the whole subtree one
     * node at a time. A failure to remove the marker leaves the tree
     * untouched; a connection lost during the recursive delete leaves part
     * of the subtree behind, but never the marker. `removed` counts the
     * nodes the recursive delete removed.
     */
    method Delete() returns (r: Outcome<Fault>, ghost removed: nat)
      requires Valid()
      modifies store
      ensures Valid()
      ensures Status(old(store.failAfter), DeleteFault(old(store.nodes), MarkerPath(path))).Fail? ==>
                r == Status(old(store.failAfter), DeleteFault(old(store.nodes), MarkerPath(path)))
                && removed == 0 && store.failAfter == Tick(old(store.failAfter))
                && store.nodes == old(store.nodes) && store.log == old(store.log)
      ensures Status(old(store.failAfter), DeleteFault(old(store.nodes), MarkerPath(path))).Pass? ==>
                && store.failAfter == Spend(old(store.failAfter), 1 + removed)
                && (r.Pass? <==> Budget(old(store.failAfter), 1 + |Subtree(old(store.nodes) - {MarkerPath(path)}, path)|))
                && (r.Pass? ==> store.nodes == RemoveTree(old(store.nodes) - {MarkerPath(path)}, path))
                && (r.Fail? ==> r == Fail(ConnectionLoss) && old(store.failAfter) == Some(1 + removed))
                && |Subtree(store.nodes, path)| + removed == |Subtree(old(store.nodes) - {MarkerPath(path)}, path)|
                && MarkerPath(path) !in store.nodes
                && Pruned(store.nodes, old(store.nodes) - {MarkerPath(path)}, path)
                && |store.log| == |old(store.log)| + 1 + removed
                && store.log[..|old(store.log)| + 1] == old(store.log) + [Deleted(MarkerPath(path))]
                && DeletesUnder(store.log[|old(store.log)| + 1..], path)
      ensures r.Pass? ==> forall q | q in store.nodes :: !AtOrUnder(q, path)
    {
      ghost var failAfter0 := store.failAfter;
      r := store.Delete(MarkerPath(path));
      if r.Fail? {
        return r, 0;
      }
      ghost var log1 := store.log;
      SpendOneMore(failAfter0, 0);
      r, removed := store.DeleteRecursive(path);
      SpendOneMore(failAfter0, removed);
      assert store.log[..|log1|] == log1;
      assert store.log[..|log1|][..|log1| - 1] == store.log[..|log1| - 1];
      if r.Fail? {
        assert !Lost(failAfter0) && Tick(failAfter0) == Some(removed);
        assert failAfter0 == Some(1 + removed);
      }
    }

    /** The watch on the deletable flag fired: refresh it and forward the change to the listener. */
    method DeletableChanged() returns (r: Outcome<Fault>)
      requires Valid() && watches
      modifies store`failAfter, deletable, listener
      ensures Valid()
      ensures store.failAfter == Tick(old(store.failAfter))
      ensures r.Pass? <==> !Lost(old(store.failAfter)) && ReadValue(store.nodes, DeletablePath(path), DecodeBool).Success?
      ensures r.Pass? ==> deletable.value == ReadValue(store.nodes, DeletablePath(path), DecodeBool).value
      ensures r.Fail? ==> deletable.value == old(deletable.value)
      ensures listener != null ==> listener.notifications == old(listener.notifications) + (if r.Pass? then 1 else 0)
      ensures version.value == old(version.value)
    {
      r := deletable.Refresh();
      if r.Pass? {
        FireDataLocationChangeListener();
      }
    }

    /** The watch on the serving version fired: refresh it. */
    method VersionChanged() returns (r: Outcome<Fault>)
      requires Valid() && watches
      modifies store`failAfter, version
      ensures Valid()
      ensures store.failAfter == Tick(old(store.failAfter))
      ensures r.Pass? <==> !Lost(old(store.failAfter)) && StoredVersion(store.nodes, path).Success?
      ensures r.Pass? ==> version.value == StoredVersion(store.nodes, path).value
      ensures r.Fail? ==> version.value == old(version.value)
      ensures deletable.value == old(deletable.value)
    {
      r := version.Refresh();
    }

    method FireDataLocationChangeListener()
      modifies listener
      ensures listener != null ==> listener.notifications == old(listener.notifications) + 1
    {
      if listener != null {
        listener.OnDataLocationChange();
      }
    }
  }

  /**
   * The constructor: parses the partition number from the path and, with
   * watches on, attaches the two watched scalars (each reads its node once).
   */
  method Attach(store: Store, path: Path, listener: ChangeListener?, watches: bool) returns (r: Result<Partition, Fault>)
    requires store.Valid()
    modifies store`failAfter
    ensures PartitionNumberOf(path).None? ==> r == Failure(NumberFormat) && store.failAfter == old(store.failAfter)
    ensures PartitionNumberOf(path).Some? && !watches ==> r.Success? && store.failAfter == old(store.failAfter)
    ensures PartitionNumberOf(path).Some? && watches ==>
              store.failAfter == Spend(old(store.failAfter), if StoredVersion(store.nodes, path).Success? then 2 else 1)
    ensures PartitionNumberOf(path).Some? && watches ==>
              (r.Success? <==> && Budget(old(store.failAfter), 2)
                               && StoredVersion(store.nodes, path).Success?
                               && ReadValue(store.nodes, DeletablePath(path), DecodeBool).Success?)
    ensures r.Failure? ==>
              r.error == if PartitionNumberOf(path).None? then NumberFormat
                         else if !Budget(old(store.failAfter), 1) then ConnectionLoss
                         else if StoredVersion(store.nodes, path).Failure? then StoredVersion(store.nodes, path).error
                         else if !Budget(old(store.failAfter), 2) then ConnectionLoss
                         else ReadValue(store.nodes, DeletablePath(path), DecodeBool).error
    ensures r.Success? ==> fresh(r.value) && r.value.Valid()
                           && r.value.store == store && r.value.path == path && r.value.watches == watches
                           && r.value.listener == listener
    ensures r.Success? && watches ==>
              fresh(r.value.version) && fresh(r.value.deletable)
              && StoredVersion(store.nodes, path).Success?
              && ReadValue(store.nodes, DeletablePath(path), DecodeBool).Success?
              && r.value.version.value == StoredVersion(store.nodes, path).value
              && r.value.deletable.value == ReadValue(store.nodes, DeletablePath(path), DecodeBool).value
  {
    var n := PartitionNumberOf(path);
    if n.None? {
      return Failure(NumberFormat);
    }
    if !watches {
      var p := new Partition(store, path, n.value, false, null, null, listener);
      return Success(p);
    }
    ghost var f0 := store.failAfter;
    SpendOneMore(f0, 0);
    SpendOneMore(f0, 1);
    var v := OpenScalar(store, VersionPath(path), EncodeInt, DecodeInt);
    if v.Failure? {
      return Failure(v.error);
    }
    assert Lost(store.failAfter) <==> !Budget(f0, 2);
    var d := OpenScalar(store, DeletablePath(path), EncodeBool, DecodeBool);
    if d.Failure? {
      return Failure(d.error);
    }
    var p := new Partition(store, path, n.value, true, v.value, d.value, listener);
    r := Success(p);
  }

  /** After the first `k` creates of `hdp`'s nodes: the log, the tree and the budget so far. */
  ghost predicate CreatedSoFar(store: Store, hdp: Path, nodes0: Tree, log0: seq<Write>, f0: Option<nat>, k: nat)
    reads store
  {
    && k <= 4
    && store.log == log0 + CreationWrites(hdp)[..k]
    && store.nodes == Replay(nodes0, CreationWrites(hdp)[..k])
    && store.failAfter == Spend(f0, k)
  }

  /**
   * Where the creates of `hdp`'s nodes stop: after `written` writes, with
   * outcome `o`, each budget and fault case as `WritePartitionNodes` states it.
   */
  ghost predicate CreationEnded(store: Store, hdp: Path, nodes0: Tree, log0: seq<Write>, f0: Option<nat>,
                                o: Outcome<Fault>, written: nat)
    reads store
  {
    && written <= 4 && (o.Pass? <==> written == 4)
    && store.log == log0 + CreationWrites(hdp)[..written]
    && store.nodes == Replay(nodes0, CreationWrites(hdp)[..written])
    && store.failAfter == Spend(f0, if written < 4 then written + 1 else 4)
    && (CreateFault(nodes0, hdp).Some? ==> written == 0)
    && (CreateFault(nodes0, hdp).None? && Budget(f0, 4) ==> o.Pass?)
    && (CreateFault(nodes0, hdp).None? && !Budget(f0, 4) ==>
          written == f0.value && o == Fail(ConnectionLoss))
    && (o.Fail? ==> o.error == if Budget(f0, 1) && CreateFault(nodes0, hdp).Some? then CreateFault(nodes0, hdp).value
                               else ConnectionLoss)
  }

  /** One `zk.create` of `createPartition`: the `k`-th of the partition's four writes. */
  method CreateNext(store: Store, p: Path, data: Option<Bytes>,
                    ghost hdp: Path, ghost nodes0: Tree, ghost log0: seq<Write>, ghost f0: Option<nat>, ghost k: nat)
    returns (o: Outcome<Fault>)
    requires store.Valid() && k < 4 && CreatedSoFar(store, hdp, nodes0, log0, f0, k)
    requires CreationWrites(hdp)[k] == Created(p, data)
    requires forall q | q in nodes0 :: q != "" && ParentPresent(nodes0, q)
    requires Budget(f0, k) && (k > 0 ==> CreateFault(nodes0, hdp) == None)
    modifies store
    ensures store.Valid()
    ensures o.Pass? ==> CreatedSoFar(store, hdp, nodes0, log0, f0, k + 1)
                        && Budget(f0, k + 1) && CreateFault(nodes0, hdp) == None
    ensures o.Fail? || k == 3 ==> CreationEnded(store, hdp, nodes0, log0, f0, o, if o.Pass? then 4 else k)
  {
    ghost var ws := CreationWrites(hdp);
    if CreateFault(nodes0, hdp).None? {
      CreationReplay(nodes0, hdp);
      CreationFaultFree(nodes0, hdp);
      assert CreateFault(store.nodes, p) == None;
    }
    o := store.Create(p, data);
    SpendOneMore(f0, k);
    assert ws[..k + 1] == ws[..k] + [ws[k]];
    ReplaySnoc(nodes0, ws[..k], ws[k]);
  }

  /**
   * The writes of `create`: the partition node, its version node (no data),
   * its deletable node ("false") and, last, the completion marker. The first
   * failure stops the sequence; `written` counts the writes that took place.
   */
  method WritePartitionNodes(store: Store, hdp: Path) returns (o: Outcome<Fault>, ghost written: nat)
    requires store.Valid()
    modifies store
    ensures store.Valid()
    ensures written <= 4 && (o.Pass? <==> written == 4)
    ensures store.log == old(store.log) + CreationWrites(hdp)[..written]
    ensures store.nodes == Replay(old(store.nodes), CreationWrites(hdp)[..written])
    ensures store.failAfter == Spend(old(store.failAfter), if written < 4 then written + 1 else 4)
    ensures CreateFault(old(store.nodes), hdp).Some? ==> written == 0
    ensures CreateFault(old(store.nodes), hdp).None? && Budget(old(store.failAfter), 4) ==> o.Pass?
    ensures CreateFault(old(store.nodes), hdp).None? && !Budget(old(store.failAfter), 4) ==>
              written == old(store.failAfter).value && o == Fail(ConnectionLoss)
    ensures o.Fail? ==>
              o.error == if Budget(old(store.failAfter), 1) && CreateFault(old(store.nodes), hdp).Some?
                         then CreateFault(old(store.nodes), hdp).value
                         else ConnectionLoss
  {
    ghost var nodes0, log0, f0 := store.nodes, store.log, store.failAfter;
    assert CreationWrites(hdp)[..0] == [];
    written := 0;
    o := CreateNext(store, hdp, None, hdp, nodes0, log0, f0, 0);
    if o.Fail? {
      return;
    }
    written := 1;
    o := CreateNext(store, VersionPath(hdp), None, hdp, nodes0, log0, f0, 1);
    if o.Fail? {
      return;
    }
    written := 2;
    o := CreateNext(store, DeletablePath(hdp), Some(EncodeBool(false)), hdp, nodes0, log0, f0, 2);
    if o.Fail? {
      return;
    }
    written := 3;
    o := CreateNext(store, MarkerPath(hdp), None, hdp, nodes0, log0, f0, 3);
    if o.Fail? {
      return;
    }
    written := 4;
  }

  /**
   * The last step of `create`: attaching to the partition just written,
   * whose version reads as null and whose flag reads as false.
   */
  method AttachCreated(store: Store, hdp: Path, partNum: int32, listener: ChangeListener?, watches: bool)
    returns (r: Result<Partition, Fault>)
    requires store.Valid() && PartitionNumberOf(hdp) == Some(partNum)
    requires StoredVersion(store.nodes, hdp) == Success(None)
    requires ReadValue(store.nodes, DeletablePath(hdp), DecodeBool) == Success(Some(false))
    modifies store`failAfter
    ensures store.failAfter == Spend(old(store.failAfter), if watches then 2 else 0)
    ensures r.Success? <==> Budget(old(store.failAfter), if watches then 2 else 0)
    ensures r.Failure? ==> r.error == ConnectionLoss
    ensures r.Success? ==> fresh(r.value) && r.value.Valid()
                           && r.value.store == store && r.value.path == hdp
                           && r.value.partNum == partNum && r.value.watches == watches && r.value.listener == listener
    ensures r.Success? && watches ==> r.value.version.value == None && r.value.deletable.value == Some(false)
  {
    r := Attach(store, hdp, listener, watches);
  }

  /**
   * `create(zk, domainPath, partNum, listener)`: writes the partition's four
   * nodes, marker last, then attaches to the new node; every failure is
   * reported. `written` counts the writes that took place.
   */
  method Create(store: Store, domainPath: Path, partNum: int32, listener: ChangeListener?, watches: bool)
    returns (r: Result<Partition, Fault>, ghost written: nat)
    requires store.Valid()
    modifies store
    ensures store.Valid()
    ensures written <= 4
    ensures store.failAfter == Spend(old(store.failAfter), if written < 4 then written + 1 else if watches then 6 else 4)
    ensures store.log == old(store.log) + CreationWrites(PartitionPath(domainPath, partNum))[..written]
    ensures store.nodes == Replay(old(store.nodes), CreationWrites(PartitionPath(domainPath, partNum))[..written])
    ensures CreateFault(old(store.nodes), PartitionPath(domainPath, partNum)).Some? ==> written == 0
    ensures CreateFault(old(store.nodes), PartitionPath(domainPath, partNum)).None? && Budget(old(store.failAfter), 4) ==>
              written == 4
    ensures r.Success? <==> (&& CreateFault(old(store.nodes), PartitionPath(domainPath, partNum)).None?
                             && Budget(old(store.failAfter), if watches then 6 else 4))
    ensures r.Failure? ==>
              r.error == if Budget(old(store.failAfter), 1) && CreateFault(old(store.nodes), PartitionPath(domainPath, partNum)).Some?
                         then CreateFault(old(store.nodes), PartitionPath(domainPath, partNum)).value
                         else ConnectionLoss
    ensures CreateFault(old(store.nodes), PartitionPath(domainPath, partNum)).None? && !Budget(old(store.failAfter), 4) ==>
              written == old(store.failAfter).value && r == Failure(ConnectionLoss)
    ensures r.Success? ==> written == 4 && fresh(r.value) && r.value.Valid()
                           && r.value.store == store && r.value.path == PartitionPath(domainPath, partNum)
                           && r.value.partNum == partNum && r.value.watches == watches && r.value.listener == listener
    ensures r.Success? && watches ==> r.value.version.value == None && r.value.deletable.value == Some(false)
  {
    var hdp := PartitionPath(domainPath, partNum);
    PartitionPathRoundTrip(domainPath, partNum);
    ghost var nodes0 := store.nodes;
    ghost var failAfter0 := store.failAfter;
    var o;
    o, written := WritePartitionNodes(store, hdp);
    if o.Fail? {
      assert written < 4 && store.failAfter == Spend(failAfter0, written + 1);
      return Failure(o.error), written;
    }
    assert CreationWrites(hdp)[..written] == CreationWrites(hdp);
    CreatedTreeReads(nodes0, store.nodes, hdp);
    ghost var attachCalls := if watches then 2 else 0;
    SpendTwice(failAfter0, 4, attachCalls, attachCalls);
    r := AttachCreated(store, hdp, partNum, listener, watches);
    assert store.failAfter == Spend(failAfter0, 4 + attachCalls);
  }
}
