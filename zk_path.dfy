/**
 * Slash-delimited node paths: joining a parent path with a child name and
 * splitting a path back into its parent and its last segment.
 */
module ZkPath {

  type Path = string

  /** The parent path followed by one child name. */
  function Append(parent: Path, child: string): Path {
    parent + "/" + child
  }

  /** The index of the last '/' in `p`, or -1 when there is none. */
  function LastSlash(p: Path): (i: int)
    ensures -1 <= i < |p|
    ensures i >= 0 ==> p[i] == '/'
    ensures forall j | i < j < |p| :: p[j] != '/'
    decreases |p|
  {
    if |p| == 0 then -1
    else if p[|p| - 1] == '/' then |p| - 1
    else LastSlash(p[..|p| - 1])
  }

  /** The last segment of `p`: everything after its last '/'. */
  function GetFilename(p: Path): string {
    p[LastSlash(p) + 1..]
  }

  /** Everything before the last '/' of `p` ("" for a top-level node or a path without '/'). */
  function GetParent(p: Path): Path {
    if LastSlash(p) < 0 then "" else p[..LastSlash(p)]
  }

  /** Splitting an appended path gives back the parent and the child name. */
  lemma SplitAppend(parent: Path, child: string)
    requires '/' !in child
    ensures GetFilename(Append(parent, child)) == child
    ensures GetParent(Append(parent, child)) == parent
  {
    var p := Append(parent, child);
    var i := LastSlash(p);
    assert p[|parent|] == '/';
    assert forall j | |parent| < j < |p| :: p[j] == child[j - |parent| - 1];
  }

  /** A path with a '/' is its parent with its last segment appended. */
  lemma AppendSplit(p: Path)
    requires '/' in p
    ensures Append(GetParent(p), GetFilename(p)) == p
  {
    var k :| 0 <= k < |p| && p[k] == '/';
    assert LastSlash(p) >= 0;
  }

  /** A node directly beneath the implicit root, such as "/d". */
  predicate TopLevel(p: Path) {
    p != "" && GetParent(p) == ""
  }

  /** `p` is `root` itself or lies somewhere beneath it. */
  predicate AtOrUnder(p: Path, root: Path) {
    p == root || (|p| > |root| && p[..|root| + 1] == root + "/")
  }

  /** A node whose parent lies at or under `root` lies strictly under `root`. */
  lemma ChildOfUnder(q: Path, root: Path)
    requires '/' in q
    requires AtOrUnder(GetParent(q), root)
    ensures q != root && AtOrUnder(q, root)
  {
    var r := GetParent(q);
    var i := LastSlash(q);
    assert i >= 0;
    assert q[..i] == r && q[i] == '/';
    if r == root {
      assert q[..|root| + 1] == root + "/";
    } else {
      assert q[..|root| + 1] == r[..|root| + 1];
    }
  }

  /** Contrapositive use of `ChildOfUnder`: a node outside `root` has no parent at or under `root`. */
  lemma ParentOutside(q: Path, root: Path)
    requires !AtOrUnder(q, root)
    ensures !AtOrUnder(GetParent(q), root) || LastSlash(q) < 0
  {
    if LastSlash(q) >= 0 {
      assert q[LastSlash(q)] == '/';
      if AtOrUnder(GetParent(q), root) {
        ChildOfUnder(q, root);
      }
    }
  }
}
