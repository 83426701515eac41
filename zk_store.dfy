/**
 * The remote tree store the coordination layer talks to (a ZooKeeper
 * ensemble reached through `ZooKeeperPlus`), reduced to what the partition
 * entity and the watched map use: a map from paths to optional data,
 * with create, get, set, delete and recursive delete. Each call either
 * succeeds, fails because of the tree's shape (a `KeeperException`), or
 * fails because the connection is gone.
 */
module ZkStore {
  import opened Wrappers
  import opened JavaText
  import opened ZkPath

  /** Why an operation failed; the partition entity reports each as an `IOException` wrapping it. */
  datatype Fault =
    | NoNode          // the node (or the parent of a node to create) does not exist
    | NodeExists      // the node to create is already there
    | NotEmpty        // the node to delete still has children
    | ConnectionLoss  // the session with the store is gone
    | MalformedData   // a node's data does not decode to the expected type
    | NumberFormat    // `Integer.parseInt` rejected a path segment
    | NullScalar      // a write through a watched value that was never set up

  /** A successful write, as recorded in the store's log. */
  datatype Write =
    | Created(path: Path, data: Option<Bytes>)
    | DataSet(path: Path, data: Option<Bytes>)
    | Deleted(path: Path)

  type Tree = map<Path, Option<Bytes>>

  predicate ParentPresent(nodes: Tree, p: Path) {
    GetParent(p) == "" || GetParent(p) in nodes
  }

  predicate HasChildren(nodes: Tree, p: Path) {
    exists q | q in nodes :: GetParent(q) == p
  }

  /** Every node of `nodes` except `root` and the nodes beneath it. */
  function RemoveTree(nodes: Tree, root: Path): (r: Tree)
    ensures forall q | q in r :: !AtOrUnder(q, root)
    ensures forall q | q in nodes && !AtOrUnder(q, root) :: q in r && r[q] == nodes[q]
  {
    map q | q in nodes && !AtOrUnder(q, root) :: nodes[q]
  }

  function Apply(nodes: Tree, w: Write): Tree {
    match w
    case Created(p, d) => nodes[p := d]
    case DataSet(p, d) => nodes[p := d]
    case Deleted(p) => nodes - {p}
  }

  /** The tree that results from applying the writes `ws`, in order, to `nodes`. */
  function Replay(nodes: Tree, ws: seq<Write>): Tree
    decreases |ws|
  {
    if ws == [] then nodes else Apply(Replay(nodes, ws[..|ws| - 1]), ws[|ws| - 1])
  }

  lemma ReplaySnoc(nodes: Tree, ws: seq<Write>, w: Write)
    ensures Replay(nodes, ws + [w]) == Apply(Replay(nodes, ws), w)
  {
    assert (ws + [w])[..|ws|] == ws;
  }

  /** The nodes of `nodes` at or under `root`: what a recursive delete of `root` removes. */
  function Subtree(nodes: Tree, root: Path): set<Path> {
    set q | q in nodes && AtOrUnder(q, root)
  }

  /** A longest path of a non-empty set of paths. */
  lemma {:induction false} Longest(s: set<Path>) returns (q: Path)
    requires s != {}
    ensures q in s
    ensures forall x | x in s :: |x| <= |q|
  {
    var x :| x in s;
    if s == {x} {
      q := x;
    } else {
      var y := Longest(s - {x});
      q := if |x| <= |y| then y else x;
    }
  }

  /**
   * In a tree where every node's parent is present, a non-empty subtree has
   * a leaf: its longest node has no children, since a child would be longer
   * and lie in the same subtree.
   */
  lemma SubtreeHasLeaf(nodes: Tree, root: Path) returns (q: Path)
    requires forall x | x in nodes :: x != "" && ParentPresent(nodes, x)
    requires Subtree(nodes, root) != {}
    ensures q in Subtree(nodes, root) && !HasChildren(nodes, q)
  {
    q := Longest(Subtree(nodes, root));
    forall c | c in nodes
      ensures GetParent(c) != q
    {
      var i := LastSlash(c);
      if i >= 0 {
        assert c[i] == '/';
        assert |GetParent(c)| < |c|;
        if AtOrUnder(GetParent(c), root) {
          ChildOfUnder(c, root);
          assert c in Subtree(nodes, root);
        }
      }
    }
  }

  /**
   * `nodes` is what remains of `nodes0` while the subtree at `root` is being
   * removed: no node was added or changed, and no node outside it is gone.
   */
  predicate Pruned(nodes: Tree, nodes0: Tree, root: Path) {
    && (forall q | q in nodes :: q in nodes0 && nodes[q] == nodes0[q])
    && (forall q | q in nodes0 && !AtOrUnder(q, root) :: q in nodes)
  }

  /** What is left of a subtree during its removal is part of what was there at the start. */
  lemma PrunedSubtree(nodes: Tree, nodes0: Tree, root: Path)
    requires Pruned(nodes, nodes0, root)
    ensures Subtree(nodes, root) <= Subtree(nodes0, root)
  {
  }

  /** Removing one node of the subtree keeps the tree pruned and shrinks the subtree by that node. */
  lemma PruneOne(nodes: Tree, nodes0: Tree, root: Path, q: Path)
    requires Pruned(nodes, nodes0, root) && q in Subtree(nodes, root)
    ensures Pruned(nodes - {q}, nodes0, root)
    ensures Subtree(nodes - {q}, root) == Subtree(nodes, root) - {q}
    ensures |Subtree(nodes - {q}, root)| == |Subtree(nodes, root)| - 1
  {
    assert Subtree(nodes - {q}, root) == Subtree(nodes, root) - {q};
  }

  /** Once nothing of the subtree is left, a pruned tree is the tree with the subtree removed. */
  lemma PrunedAll(nodes: Tree, nodes0: Tree, root: Path)
    requires Pruned(nodes, nodes0, root) && Subtree(nodes, root) == {}
    ensures nodes == RemoveTree(nodes0, root)
  {
    forall q | q in nodes
      ensures !AtOrUnder(q, root)
    {
      assert q !in Subtree(nodes, root);
    }
  }

  /** Every write of `ws` deletes one node at or under `root`. */
  predicate DeletesUnder(ws: seq<Write>, root: Path) {
    forall i | 0 <= i < |ws| :: ws[i].Deleted? && AtOrUnder(ws[i].path, root)
  }

  /**
   * `nodes`, `log` and `failAfter` are partway through a recursive delete
   * of `root` that started from `nodes0`, `log0` and `failAfter0`: the
   * writes since are `deletes`, one `delete` of a node under `root` each,
   * and each spent one call of the budget.
   */
  predicate Partway(nodes: Tree, log: seq<Write>, failAfter: Option<nat>, root: Path,
                    nodes0: Tree, log0: seq<Write>, failAfter0: Option<nat>, deletes: seq<Write>)
  {
    && failAfter == Spend(failAfter0, |deletes|)
    && (failAfter0.Some? ==> |deletes| <= failAfter0.value)
    && |Subtree(nodes, root)| + |deletes| == |Subtree(nodes0, root)|
    && Pruned(nodes, nodes0, root)
    && log == log0 + deletes
    && DeletesUnder(deletes, root)
    && nodes == Replay(nodes0, deletes)
  }

  /**
   * Deleting a node of the subtree keeps the delete partway; a call the
   * connection refuses changes nothing, and is refused only once the budget
   * is used up.
   */
  lemma PartwayStep(nodes: Tree, log: seq<Write>, failAfter: Option<nat>, root: Path,
                    nodes0: Tree, log0: seq<Write>, failAfter0: Option<nat>, deletes: seq<Write>, q: Path)
    requires Partway(nodes, log, failAfter, root, nodes0, log0, failAfter0, deletes)
    requires q in Subtree(nodes, root)
    ensures !Lost(failAfter) ==>
              Partway(nodes - {q}, log + [Deleted(q)], Tick(failAfter), root, nodes0, log0, failAfter0, deletes + [Deleted(q)])
    ensures Lost(failAfter) ==>
              failAfter0 == Some(|deletes|) && Partway(nodes, log, Tick(failAfter), root, nodes0, log0, failAfter0, deletes)
  {
    PruneOne(nodes, nodes0, root, q);
    SpendOneMore(failAfter0, |deletes|);
    ReplaySnoc(nodes0, deletes, Deleted(q));
    var ws := deletes + [Deleted(q)];
    assert DeletesUnder(ws, root) by {
      forall i | 0 <= i < |ws| ensures ws[i].Deleted? && AtOrUnder(ws[i].path, root) {
        if i < |deletes| {
          assert ws[i] == deletes[i];
        }
      }
    }
  }

  /** The fault `create(p)` meets in `nodes`, if any. */
  function CreateFault(nodes: Tree, p: Path): Option<Fault> {
    if p == "" || p in nodes then Some(NodeExists)
    else if !ParentPresent(nodes, p) then Some(NoNode)
    else None
  }

  /** The fault `delete(p, -1)` meets in `nodes`, if any. */
  function DeleteFault(nodes: Tree, p: Path): Option<Fault> {
    if p !in nodes then Some(NoNode)
    else if HasChildren(nodes, p) then Some(NotEmpty)
    else None
  }

  /** The fault `setData(p)` meets in `nodes`, if any. */
  function SetFault(nodes: Tree, p: Path): Option<Fault> {
    if p !in nodes then Some(NoNode) else None
  }

  /** The connection is lost once the budget of successful calls is spent. */
  predicate Lost(failAfter: Option<nat>) {
    failAfter == Some(0)
  }

  /** The budget after one more call. */
  function Tick(failAfter: Option<nat>): Option<nat> {
    if failAfter.Some? && failAfter.value > 0 then Some(failAfter.value - 1) else failAfter
  }

  /** The budget after `n` more calls; a budget already spent stays at zero. */
  function Spend(failAfter: Option<nat>, n: nat): Option<nat> {
    if failAfter.None? then None
    else if failAfter.value >= n then Some(failAfter.value - n)
    else Some(0)
  }

  /** One more call after `n` spends `n + 1`; the connection is lost exactly once the budget is used up. */
  lemma SpendOneMore(failAfter: Option<nat>, n: nat)
    ensures Tick(Spend(failAfter, n)) == Spend(failAfter, n + 1)
    ensures Spend(Tick(failAfter), n) == Spend(failAfter, n + 1)
    ensures Lost(Spend(failAfter, n)) <==> failAfter.Some? && failAfter.value <= n
  {
  }

  /** Spending `m` and then `n` calls spends `m + n`; a budget of `m + k` leaves `k` after `m`. */
  lemma SpendTwice(failAfter: Option<nat>, m: nat, n: nat, k: nat)
    ensures Spend(Spend(failAfter, m), n) == Spend(failAfter, m + n)
    ensures Budget(failAfter, m + k) ==> Budget(Spend(failAfter, m), k)
  {
  }

  /** At least `k` more calls will reach the store. */
  predicate Budget(failAfter: Option<nat>, k: nat) {
    failAfter.None? || failAfter.value >= k
  }

  /** How a call ends, given the connection budget and the fault the tree raises. */
  function Status(failAfter: Option<nat>, fault: Option<Fault>): (r: Outcome<Fault>)
    ensures r.Pass? <==> !Lost(failAfter) && fault.None?
  {
    if Lost(failAfter) then Fail(ConnectionLoss)
    else if fault.Some? then Fail(fault.value)
    else Pass
  }

  class Store {
    /** The nodes of the tree; the root ("") is implicit and always present. */
    var nodes: Tree
    /** Every successful write, oldest first. */
    var log: seq<Write>
    /**
     * Connection loss, injected: `Some(k)` lets `k` more calls reach the
     * store and fails every later one; `None` never loses the connection.
     */
    var failAfter: Option<nat>

    /** Every node other than the implicit root has its parent. */
    ghost predicate Valid()
      reads this
    {
      forall p | p in nodes :: p != "" && ParentPresent(nodes, p)
    }

    constructor (failAfter: Option<nat>)
      ensures Valid()
      ensures nodes == map[] && log == [] && this.failAfter == failAfter
    {
      nodes := map[];
      log := [];
      this.failAfter := failAfter;
    }

    method Record(w: Write)
      requires Valid()
      requires forall p | p in Apply(nodes, w) :: p != "" && ParentPresent(Apply(nodes, w), p)
      modifies this`nodes, this`log
      ensures Valid()
      ensures nodes == Apply(old(nodes), w) && log == old(log) + [w]
    {
      nodes := Apply(nodes, w);
      log := log + [w];
    }

    /** `zk.create(p, data)`. */
    method Create(p: Path, data: Option<Bytes>) returns (r: Outcome<Fault>)
      requires Valid()
      modifies this
      ensures Valid()
      ensures failAfter == Tick(old(failAfter))
      ensures r == Status(old(failAfter), CreateFault(old(nodes), p))
      ensures r.Pass? ==> nodes == old(nodes)[p := data] && log == old(log) + [Created(p, data)]
      ensures r.Fail? ==> nodes == old(nodes) && log == old(log)
    {
      r := Status(failAfter, CreateFault(nodes, p));
      failAfter := Tick(failAfter);
      if r.Pass? {
        Record(Created(p, data));
      }
    }

    /** `zk.getData(p)`: the node's data, which may be null. */
    method GetData(p: Path) returns (r: Result<Option<Bytes>, Fault>)
      requires Valid()
      modifies this`failAfter
      ensures failAfter == Tick(old(failAfter))
      ensures Lost(old(failAfter)) ==> r == Failure(ConnectionLoss)
      ensures !Lost(old(failAfter)) ==> r == if p in nodes then Success(nodes[p]) else Failure(NoNode)
    {
      if Lost(failAfter) {
        r := Failure(ConnectionLoss);
      } else if p in nodes {
        r := Success(nodes[p]);
      } else {
        r := Failure(NoNode);
      }
      failAfter := Tick(failAfter);
    }

    /** `zk.setData(p, data, -1)`. */
    method SetData(p: Path, data: Option<Bytes>) returns (r: Outcome<Fault>)
      requires Valid()
      modifies this
      ensures Valid()
      ensures failAfter == Tick(old(failAfter))
      ensures r == Status(old(failAfter), SetFault(old(nodes), p))
      ensures r.Pass? ==> nodes == old(nodes)[p := data] && log == old(log) + [DataSet(p, data)]
      ensures r.Fail? ==> nodes == old(nodes) && log == old(log)
    {
      r := Status(failAfter, SetFault(nodes, p));
      failAfter := Tick(failAfter);
      if r.Pass? {
        Record(DataSet(p, data));
      }
    }

    /** `zk.delete(p, -1)`: removes one node that has no children. */
    method Delete(p: Path) returns (r: Outcome<Fault>)
      requires Valid()
      modifies this
      ensures Valid()
      ensures failAfter == Tick(old(failAfter))
      ensures r == Status(old(failAfter), DeleteFault(old(nodes), p))
      ensures r.Pass? ==> nodes == old(nodes) - {p} && log == old(log) + [Deleted(p)]
      ensures r.Fail? ==> nodes == old(nodes) && log == old(log)
    {
      r := Status(failAfter, DeleteFault(nodes, p));
      failAfter := Tick(failAfter);
      if r.Pass? {
        forall q | q in nodes - {p}
          ensures ParentPresent(nodes - {p}, q)
        {
          assert GetParent(q) != p;
        }
        Record(Deleted(p));
      }
    }

    /** One step of a recursive delete: `delete` a node of the subtree at `p` that has no children. */
    method DeleteLeaf(p: Path, ghost nodes0: Tree, ghost log0: seq<Write>, ghost failAfter0: Option<nat>,
                      ghost deletes: seq<Write>)
      returns (o: Outcome<Fault>, ghost deletes': seq<Write>)
      requires Valid() && Partway(nodes, log, failAfter, p, nodes0, log0, failAfter0, deletes)
      requires Subtree(nodes, p) != {}
      modifies this
      ensures Valid() && Partway(nodes, log, failAfter, p, nodes0, log0, failAfter0, deletes')
      ensures o.Pass? ==> |deletes'| == |deletes| + 1
      ensures o.Fail? ==> deletes' == deletes && failAfter0 == Some(|deletes|) && o == Fail(ConnectionLoss)
    {
      ghost var leaf := SubtreeHasLeaf(nodes, p);
      var q :| q in Subtree(nodes, p) && !HasChildren(nodes, q);
      PartwayStep(nodes, log, failAfter, p, nodes0, log0, failAfter0, deletes, q);
      o := Delete(q);
      deletes' := if o.Pass? then deletes + [Deleted(q)] else deletes;
    }

    /**
     * `zk.deleteNodeRecursively(p)`: removes `p` and every node beneath it,
     * one `delete` per node, always a node without children. A lost
     * connection stops it partway: the nodes removed so far stay removed.
     * `removed` counts the deletes that took place.
     */
    method DeleteRecursive(p: Path) returns (r: Outcome<Fault>, ghost removed: nat)
      requires Valid()
      modifies this
      ensures Valid()
      ensures failAfter == Spend(old(failAfter), removed)
      ensures r.Pass? <==> Budget(old(failAfter), |Subtree(old(nodes), p)|)
      ensures r.Pass? ==> nodes == RemoveTree(old(nodes), p) && removed == |Subtree(old(nodes), p)|
      ensures r.Fail? ==> r == Fail(ConnectionLoss) && old(failAfter) == Some(removed)
                          && removed < |Subtree(old(nodes), p)|
      ensures |Subtree(nodes, p)| + removed == |Subtree(old(nodes), p)|
      ensures Pruned(nodes, old(nodes), p)
      ensures |log| == |old(log)| + removed && log[..|old(log)|] == old(log)
      ensures DeletesUnder(log[|old(log)|..], p)
      ensures nodes == Replay(old(nodes), log[|old(log)|..])
    {
      ghost var nodes0, log0, failAfter0 := nodes, log, failAfter;
      ghost var deletes: seq<Write> := [];
      assert log == log0 + deletes;
      while Subtree(nodes, p) != {}
        invariant Valid() && Partway(nodes, log, failAfter, p, nodes0, log0, failAfter0, deletes)
        decreases |Subtree(nodes0, p)| - |deletes|
      {
        var o;
        o, deletes := DeleteLeaf(p, nodes0, log0, failAfter0, deletes);
        if o.Fail? {
          assert log[|log0|..] == deletes;
          return o, |deletes|;
        }
      }
      r, removed := Pass, |deletes|;
      PrunedAll(nodes, nodes0, p);
      assert log[|log0|..] == deletes;
    }
  }

  /** A store holding one top-level node with no data, after `failAfter` let its create through. */
  method SingleNodeStore(p: Path, failAfter: Option<nat>) returns (store: Store)
    requires TopLevel(p) && !Lost(failAfter)
    ensures fresh(store) && store.Valid()
    ensures store.nodes == map[p := None] && store.failAfter == Tick(failAfter)
  {
    store := new Store(failAfter);
    var o := store.Create(p, None);
  }
}
