/**
 * The watched-map tests as explicit event orderings: the notification a
 * test waits for becomes a call to `ChildAdded` / `ChildRemoved`, and the
 * detector's delayed callback becomes a call to `Complete`.
 */
module WatchedMapScenarios {
  import opened Wrappers
  import opened JavaText
  import opened ZkPath
  import opened ZkStore
  import opened WatchedMaps

  /** Creates `Append(parent, name)` holding `text`, in a store with a live connection. */
  method CreateChild(store: Store, parent: Path, name: string, data: Option<Bytes>)
    requires store.Valid() && store.failAfter == None
    requires parent in store.nodes && '/' !in name
    requires forall q | q in store.nodes :: |q| <= |parent|
    modifies store
    ensures store.Valid() && store.failAfter == None
    ensures store.nodes == old(store.nodes)[Append(parent, name) := data]
  {
    SplitAppend(parent, name);
    assert Append(parent, name) !in store.nodes by {
      assert |Append(parent, name)| > |parent|;
    }
    var o := store.Create(Append(parent, name), data);
  }

  /** A store whose only node is `root` has no children under `root`. */
  lemma NoChildren(root: Path)
    requires TopLevel(root)
    ensures ChildNames(map[root := None], root) == {}
  {
  }

  /**
   * `testIt`: a map without a detector over an empty node is empty; once a
   * child "first" holding "data" is created and reported, the map holds it.
   */
  method TestIt(colRoot: Path) returns (before: nat, after: nat, value: Option<string>)
    requires TopLevel(colRoot)
    ensures before == 0 && after == 1 && value == Some("data")
  {
    var store := SingleNodeStore(colRoot, None);
    NoChildren(colRoot);
    var m := new WatchedMap(store, colRoot, StringElementLoader, false);
    before := m.Size();
    CreateChild(store, colRoot, "first", Some(StringToBytes("data")));
    BytesRoundTrip("data");
    m.ChildAdded("first");
    after := m.Size();
    value := m.Get("first");
  }

  /**
   * `testCompletionDetector`: a new child is handed to the detector and kept
   * out of the map; once the detector reports it complete, it is in.
   */
  method TestCompletionDetector(root: Path)
    returns (before: nat, asked: seq<string>, whilePending: nat, after: nat, value: Option<string>)
    requires TopLevel(root)
    ensures before == 0 && asked == ["node"] && whilePending == 0 && after == 1 && value == Some("blah")
  {
    var store := SingleNodeStore(root, None);
    NoChildren(root);
    var m := new WatchedMap(store, root, StringElementLoader, true);
    assert m.asked == [] && m.entries == map[] && m.pending == {};
    before := m.Size();
    CreateChild(store, root, "node", Some(StringToBytes("blah")));
    BytesRoundTrip("blah");
    assert StringElementLoader(store.nodes, root, "node") == Some("blah");
    assert m.GetView() == View(map[], {});
    m.ChildAdded("node");
    assert m.GetView() == View(map[], {"node"});
    asked := m.asked;
    whilePending := m.Size();
    m.Complete("node");
    assert m.GetView() == View(map["node" := "blah"], {});
    after := m.Size();
    value := m.Get("node");
  }

  /** The nodes of `testDeletion`: the map node under `root` and its child "1". */
  lemma DeletionTree(root: Path)
    requires TopLevel(root)
    ensures GetParent(Append(root, "map")) == root && GetFilename(Append(root, "map")) == "map"
    ensures GetParent(Append(Append(root, "map"), "1")) == Append(root, "map")
    ensures GetFilename(Append(Append(root, "map"), "1")) == "1"
    ensures ChildNames(map[root := None][Append(root, "map") := None]
                          [Append(Append(root, "map"), "1") := Some(StringToBytes("2"))], Append(root, "map")) == {"1"}
    ensures Loaded(map[root := None][Append(root, "map") := None]
                      [Append(Append(root, "map"), "1") := Some(StringToBytes("2"))], Append(root, "map"),
                   {"1"}, StringElementLoader) == map["1" := "2"]
  {
    var base := Append(root, "map");
    var child := Append(base, "1");
    SplitAppend(root, "map");
    SplitAppend(base, "1");
    var nodes := map[root := None][base := None][child := Some(StringToBytes("2"))];
    assert nodes.Keys == {root, base, child};
    assert GetParent(base) != base by { assert |root| < |base|; }
    BytesRoundTrip("2");
    assert StringElementLoader(nodes, base, "1") == Some("2");
  }

  /**
   * `testDeletion`: a map built over a node with child "1" holding "2" is
   * exactly {"1" -> "2"}; deleting the child empties it.
   */
  method TestDeletion(root: Path) returns (initial: map<string, string>, deleted: Outcome<Fault>, final: map<string, string>)
    requires TopLevel(root)
    ensures initial == map["1" := "2"]
    ensures deleted == Pass && final == map[]
  {
    var store := SingleNodeStore(root, None);
    var base := Append(root, "map");
    var child := Append(base, "1");
    SplitAppend(root, "map");
    CreateChild(store, root, "map", None);
    CreateChild(store, base, "1", Some(StringToBytes("2")));
    DeletionTree(root);
    BytesRoundTrip("2");
    var m := new WatchedMap(store, base, StringElementLoader, false);
    initial := m.entries;
    assert !HasChildren(store.nodes, child) by {
      assert store.nodes.Keys == {root, base, child};
      assert |root| < |base| < |child|;
    }
    deleted := store.Delete(child);
    m.ChildRemoved("1");
    final := m.entries;
  }

  /**
   * A child deleted before its detector reports it complete never appears:
   * the late completion finds nothing pending and is ignored.
   */
  method DeletedBeforeCompletion(root: Path) returns (after: nat)
    requires TopLevel(root)
    ensures after == 0
  {
    var store := SingleNodeStore(root, None);
    NoChildren(root);
    var m := new WatchedMap(store, root, StringElementLoader, true);
    CreateChild(store, root, "node", Some(StringToBytes("blah")));
    m.ChildAdded("node");
    m.ChildRemoved("node");
    m.Complete("node");
    after := m.Size();
  }
}
