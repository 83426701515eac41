/**
 * A watched map (`WatchedMap<T>`): the children of one node mirrored
 * locally as a map from child name to a value parsed by an element loader.
 * Without a completion detector a child appears as soon as it is seen;
 * with one, a new child is held back as pending until the detector calls
 * `completed(name)`. A removed child is evicted at once, pending or not.
 * The store's notifications become explicit event calls.
 */
module WatchedMaps {
  import opened Wrappers
  import opened JavaText
  import opened ZkPath
  import opened ZkStore

  /**
   * `ElementLoader<T>.load(zk, basePath, relPath)`: parses one child's
   * content; `None` stands for the exception a failed load throws, which
   * keeps the child out of the map.
   */
  type ElementLoader<T> = (Tree, Path, string) -> Option<T>

  /**
   * The tests' `StringElementLoader`: the child's data read as text. A
   * missing node (`getData` throws) or a node without data (`new String(null)`
   * throws) fails the load.
   */
  function StringElementLoader(nodes: Tree, basePath: Path, relPath: string): (r: Option<string>)
    ensures r.Some? <==> Append(basePath, relPath) in nodes && nodes[Append(basePath, relPath)].Some?
    ensures r.Some? ==> |r.value| == |nodes[Append(basePath, relPath)].value|
    ensures r.Some? ==> forall i | 0 <= i < |r.value| :: r.value[i] as int == nodes[Append(basePath, relPath)].value[i] as int
  {
    var p := Append(basePath, relPath);
    if p in nodes && nodes[p].Some? then Some(BytesToString(nodes[p].value)) else None
  }

  /** The names of the children of `basePath` present in `nodes`. */
  function ChildNames(nodes: Tree, basePath: Path): set<string> {
    set q | q in nodes && GetParent(q) == basePath :: GetFilename(q)
  }

  /** The entries a map over `names` holds once each is loaded: the names whose load succeeds. */
  function Loaded<T>(nodes: Tree, basePath: Path, names: set<string>, load: ElementLoader<T>): map<string, T> {
    map n | n in names && load(nodes, basePath, n).Some? :: load(nodes, basePath, n).value
  }

  /** What a watched map exposes (`entries`) and what it holds back (`pending`). */
  datatype View<T> = View(entries: map<string, T>, pending: set<string>)

  /** A child is never both exposed and pending. */
  predicate Disjoint<T>(v: View<T>) {
    v.entries.Keys !! v.pending
  }

  /** A child name the map already knows about, exposed or pending. */
  predicate Known<T>(v: View<T>, name: string) {
    name in v.entries || name in v.pending
  }

  /**
   * A new child `name` was seen, and loading it gives `loaded`. With a
   * detector it becomes pending; without one it is exposed at once when
   * the load succeeds. A child already known is left as it is.
   */
  function Added<T>(v: View<T>, name: string, loaded: Option<T>, detect: bool): View<T> {
    if Known(v, name) then v
    else if detect then View(v.entries, v.pending + {name})
    else if loaded.Some? then View(v.entries[name := loaded.value], v.pending)
    else v
  }

  /**
   * `awaiter.completed(name)`: a pending child moves into the map with the
   * value loaded now. A completion for a child that is not pending (never
   * seen, already removed, or already complete) changes nothing.
   */
  function Completed<T>(v: View<T>, name: string, loaded: Option<T>): View<T> {
    if name !in v.pending then v
    else View(if loaded.Some? then v.entries[name := loaded.value] else v.entries, v.pending - {name})
  }

  /** The child `name` disappeared: it is evicted whether or not it was complete. */
  function Removed<T>(v: View<T>, name: string): View<T> {
    View(v.entries - {name}, v.pending - {name})
  }

  /** One notification or callback the map reacts to, with the load result it would see. */
  datatype Event<T> =
    | ChildAdded(name: string, loaded: Option<T>)
    | ChildCompleted(name: string, loaded: Option<T>)
    | ChildRemoved(name: string)

  function Step<T>(v: View<T>, e: Event<T>, detect: bool): View<T> {
    match e
    case ChildAdded(n, x) => Added(v, n, x, detect)
    case ChildCompleted(n, x) => Completed(v, n, x)
    case ChildRemoved(n) => Removed(v, n)
  }

  /** The view after the events `evs`, in order. */
  function Run<T>(v: View<T>, evs: seq<Event<T>>, detect: bool): View<T>
    decreases |evs|
  {
    if evs == [] then v else Run(Step(v, evs[0], detect), evs[1..], detect)
  }

  predicate CompletesName<T>(e: Event<T>, name: string) {
    e.ChildCompleted? && e.name == name
  }

  predicate AddsName<T>(e: Event<T>, name: string) {
    e.ChildAdded? && e.name == name
  }

  /** Every event keeps exposed and pending children apart. */
  lemma StepKeepsDisjoint<T>(v: View<T>, e: Event<T>, detect: bool)
    requires Disjoint(v)
    ensures Disjoint(Step(v, e, detect))
  {
  }

  lemma {:induction false} RunKeepsDisjoint<T>(v: View<T>, evs: seq<Event<T>>, detect: bool)
    requires Disjoint(v)
    ensures Disjoint(Run(v, evs, detect))
    decreases |evs|
  {
    if evs != [] {
      StepKeepsDisjoint(v, evs[0], detect);
      RunKeepsDisjoint(Step(v, evs[0], detect), evs[1..], detect);
    }
  }

  /** Without a detector nothing is ever pending. */
  lemma {:induction false} UngatedNeverPending<T>(v: View<T>, evs: seq<Event<T>>)
    requires v.pending == {}
    ensures Run(v, evs, false).pending == {}
    decreases |evs|
  {
    if evs != [] {
      UngatedNeverPending(Step(v, evs[0], false), evs[1..]);
    }
  }

  /**
   * With a detector, a child that is not exposed stays out of the map until
   * a completion for it arrives: being added is not enough.
   */
  lemma {:induction false} GatedUntilCompleted<T>(v: View<T>, evs: seq<Event<T>>, name: string)
    requires name !in v.entries
    requires forall i | 0 <= i < |evs| :: !CompletesName(evs[i], name)
    ensures name !in Run(v, evs, true).entries
    decreases |evs|
  {
    if evs != [] {
      GatedUntilCompleted(Step(v, evs[0], true), evs[1..], name);
    }
  }

  /**
   * A child that is neither exposed nor pending, and is not added again,
   * never appears, whatever completions arrive for it: a completion that
   * comes after the child was removed is ignored.
   */
  lemma {:induction false} RemovedStaysAbsent<T>(v: View<T>, evs: seq<Event<T>>, name: string, detect: bool)
    requires !Known(v, name)
    requires forall i | 0 <= i < |evs| :: !AddsName(evs[i], name)
    ensures !Known(Run(v, evs, detect), name)
    decreases |evs|
  {
    if evs != [] {
      RemovedStaysAbsent(Step(v, evs[0], detect), evs[1..], name, detect);
    }
  }

  /** Removing a child that was just added restores the view it was added to. */
  lemma AddedThenRemoved<T>(v: View<T>, name: string, loaded: Option<T>, detect: bool)
    requires !Known(v, name)
    ensures Removed(Added(v, name, loaded, detect), name) == v
  {
  }

  /**
   * With a detector, adding a child and then completing it ends where
   * adding it without a detector ends: the gate delays a child, it does not
   * change what is exposed.
   */
  lemma CompletedMatchesUngated<T>(v: View<T>, name: string, loaded: Option<T>)
    requires !Known(v, name)
    ensures Completed(Added(v, name, loaded, true), name, loaded) == Added(v, name, loaded, false)
    ensures Added(v, name, loaded, true).entries == v.entries
  {
  }

  /**
   * The children of `basePath` in `nodes`, loaded one at a time: the
   * initial population of a map without a detector.
   */
  method LoadAll<T>(nodes: Tree, basePath: Path, names: set<string>, load: ElementLoader<T>)
    returns (entries: map<string, T>)
    ensures entries.Keys <= names
    ensures forall n | n in names :: (n in entries <==> load(nodes, basePath, n).Some?)
    ensures forall n | n in entries :: entries[n] == load(nodes, basePath, n).value
  {
    var todo := names;
    entries := map[];
    while todo != {}
      invariant todo <= names
      invariant entries.Keys <= names - todo
      invariant forall n | n in names - todo :: (n in entries <==> load(nodes, basePath, n).Some?)
      invariant forall n | n in entries :: entries[n] == load(nodes, basePath, n).value
      decreases |todo|
    {
      var n :| n in todo;
      var x := load(nodes, basePath, n);
      if x.Some? {
        entries := entries[n := x.value];
      }
      todo := todo - {n};
    }
  }

  /** `LoadAll` builds exactly the loaded map of its names. */
  lemma LoadAllIsLoaded<T>(nodes: Tree, basePath: Path, names: set<string>, load: ElementLoader<T>, entries: map<string, T>)
    requires entries.Keys <= names
    requires forall n | n in names :: (n in entries <==> load(nodes, basePath, n).Some?)
    requires forall n | n in entries :: entries[n] == load(nodes, basePath, n).value
    ensures entries == Loaded(nodes, basePath, names, load)
  {
  }

  /**
   * The children of `basePath` handed to the detector one at a time: the
   * initial population of a map with a detector. `asked` lists them in the
   * order the detector is invoked, each once.
   */
  method DetectAll(names: set<string>) returns (pending: set<string>, asked: seq<string>)
    ensures pending == names
    ensures |asked| == |names| && multiset(asked) == multiset(names)
    ensures forall n | n in names :: n in asked
  {
    var todo := names;
    pending := {};
    asked := [];
    while todo != {}
      invariant todo <= names && pending == names - todo
      invariant multiset(asked) == multiset(pending)
      decreases |todo|
    {
      var n :| n in todo;
      assert multiset(asked + [n]) == multiset(asked) + multiset{n};
      pending := pending + {n};
      asked := asked + [n];
      todo := todo - {n};
    }
    assert |multiset(asked)| == |asked| && |multiset(names)| == |names|;
    assert forall n | n in names :: n in multiset(asked);
  }

  class WatchedMap<T> {
    const store: Store
    const basePath: Path
    const load: ElementLoader<T>
    /** Whether a `CompletionDetector` was supplied. */
    const hasDetector: bool
    /** The exposed entries: the children recognised as complete. */
    var entries: map<string, T>
    /** The children seen but not yet signalled complete. */
    var pending: set<string>
    /** The children the detector was asked about, in order. */
    var asked: seq<string>

    ghost predicate Valid()
      reads this
    {
      && Disjoint(View(entries, pending))
      && (!hasDetector ==> pending == {})
      && (forall n | n in pending :: n in asked)
    }

    function GetView(): View<T>
      reads this
    {
      View(entries, pending)
    }

    /**
     * `new WatchedMap(zk, basePath, loader[, detector])`: scans the existing
     * children. Without a detector each is loaded and exposed; with one each
     * becomes pending and the detector is asked about it.
     */
    constructor (store: Store, basePath: Path, load: ElementLoader<T>, hasDetector: bool)
      ensures Valid()
      ensures this.store == store && this.basePath == basePath && this.load == load && this.hasDetector == hasDetector
      ensures !hasDetector ==> entries == Loaded(store.nodes, basePath, ChildNames(store.nodes, basePath), load)
                               && pending == {} && asked == []
      ensures hasDetector ==> entries == map[] && pending == ChildNames(store.nodes, basePath)
                              && |asked| == |pending| && multiset(asked) == multiset(pending)
    {
      this.store := store;
      this.basePath := basePath;
      this.load := load;
      this.hasDetector := hasDetector;
      var names := ChildNames(store.nodes, basePath);
      if hasDetector {
        var p, a := DetectAll(names);
        entries := map[];
        pending := p;
        asked := a;
      } else {
        var e := LoadAll(store.nodes, basePath, names, load);
        LoadAllIsLoaded(store.nodes, basePath, names, load, e);
        entries := e;
        pending := {};
        asked := [];
      }
    }

    /** `size()`: the number of exposed children; pending children are not counted. */
    function Size(): (n: nat)
      reads this
      ensures n == 0 <==> entries == map[]
      ensures Disjoint(GetView()) ==> n + |pending| == |entries.Keys + pending|
    {
      assert Disjoint(GetView()) ==> entries.Keys * pending == {};
      |entries|
    }

    /** `get(name)`: the exposed value, or null when `name` is not exposed. */
    function Get(name: string): (r: Option<T>)
      reads this
      ensures r.Some? <==> name in entries
      ensures r.Some? ==> r.value == entries[name]
    {
      if name in entries then Some(entries[name]) else None
    }

    /** The store reported a new child `name`. */
    method ChildAdded(name: string)
      requires Valid()
      modifies this
      ensures Valid()
      ensures GetView() == Added(old(GetView()), name, load(store.nodes, basePath, name), hasDetector)
      ensures asked == old(asked) + (if hasDetector && !Known(old(GetView()), name) then [name] else [])
    {
      if name in entries || name in pending {
        return;
      }
      if hasDetector {
        pending := pending + {name};
        asked := asked + [name];
      } else {
        var x := load(store.nodes, basePath, name);
        if x.Some? {
          entries := entries[name := x.value];
        }
      }
    }

    /** The detector called `awaiter.completed(name)`. */
    method Complete(name: string)
      requires Valid()
      modifies this
      ensures Valid()
      ensures GetView() == Completed(old(GetView()), name, load(store.nodes, basePath, name))
      ensures asked == old(asked)
    {
      if name in pending {
        var x := load(store.nodes, basePath, name);
        if x.Some? {
          entries := entries[name := x.value];
        }
        pending := pending - {name};
      }
    }

    /** The store reported that child `name` is gone. */
    method ChildRemoved(name: string)
      requires Valid()
      modifies this
      ensures Valid()
      ensures GetView() == Removed(old(GetView()), name)
      ensures asked == old(asked)
    {
      entries := entries - {name};
      pending := pending - {name};
    }
  }
}
