/** Where a migration may read and write: no link on the way to a root or to the output, and no output inside a root. */
module Placement {

  /** The names of an absolute path, from the top. */
  type Path = seq<string>

  datatype Kind = RealDirectory | Link | OtherKind | Hidden

  /** What can be looked at without following links; `Hidden` cannot be looked at for another reason than absence. */
  type Tree = map<Path, Kind>

  /** Every path that is there hangs in paths that are there. */
  ghost predicate Grown(tree: Tree) {
    forall p, k :: p in tree && 0 < k < |p| ==> p[..k] in tree
  }

  /** The first n steps exist. */
  predicate Exists(tree: Tree, p: Path, n: nat)
    requires n <= |p|
  {
    forall k :: 0 < k <= n ==> p[..k] in tree
  }

  /** As far as the path exists it is made of real directories. */
  predicate ClearWay(tree: Tree, p: Path) {
    forall k :: 0 < k <= |p| && Exists(tree, p, k) ==> tree[p[..k]].RealDirectory?
  }

  /** The walk from the top, which ends at the first missing step. */
  method Walk(tree: Tree, p: Path) returns (ok: bool)
    ensures ok <==> ClearWay(tree, p)
  {
    for k := 0 to |p|
      invariant Exists(tree, p, k) && forall j :: 0 < j <= k ==> tree[p[..j]].RealDirectory?
    {
      if p[..k + 1] !in tree {
        return true;
      }
      assert Exists(tree, p, k + 1);
      if !tree[p[..k + 1]].RealDirectory? {
        return false;
      }
    }
    return true;
  }

  /** In a tree that hangs together, nothing on the way or at its end redirects: whatever is there is a directory. */
  lemma ClearWayRedirectsNowhere(tree: Tree, p: Path)
    requires Grown(tree)
    ensures ClearWay(tree, p) <==> forall k :: 0 < k <= |p| && p[..k] in tree ==> tree[p[..k]].RealDirectory?
  {
    forall k | 0 < k <= |p| && p[..k] in tree ensures Exists(tree, p, k) {
      forall j | 0 < j <= k ensures p[..j] in tree {
        assert p[..k][..j] == p[..j];
      }
    }
  }

  function ParentOf(p: Path): Path {
    if p == [] then [] else p[..|p| - 1]
  }

  lemma ParentOfEntry(directory: Path, name: string)
    ensures ParentOf(directory + [name]) == directory
  {}

  /** The roots are reached without a link, the output is in none of them, and its parent is reached without a link. */
  predicate Admitted(tree: Tree, roots: seq<Path>, output: Path) {
    && (forall root <- roots :: ClearWay(tree, root) && !(root <= output))
    && ClearWay(tree, ParentOf(output))
  }

  method Validate(tree: Tree, roots: seq<Path>, output: Path) returns (ok: bool)
    ensures ok <==> Admitted(tree, roots, output)
  {
    hide ClearWay;
    for i := 0 to |roots|
      invariant forall k :: 0 <= k < i ==> ClearWay(tree, roots[k]) && !(roots[k] <= output)
    {
      var clear := Walk(tree, roots[i]);
      if !clear || roots[i] <= output {
        assert roots[i] in roots;
        return false;
      }
    }
    ok := Walk(tree, ParentOf(output));
  }

  lemma PrefixesNest(p: Path, q: Path, whole: Path)
    requires p <= whole && q <= whole
    ensures p <= q || q < p
  {
    assert p == whole[..|p|] && q == whole[..|q|];
  }

  /** Whatever is written beside or below the output is in no root, unless the whole root lies beneath the parent. */
  lemma WritesStayOutside(tree: Tree, roots: seq<Path>, output: Path, root: Path, written: Path)
    requires Admitted(tree, roots, output) && root in roots && ParentOf(output) <= written
    ensures root <= written ==> ParentOf(output) < root
  {
    assert ParentOf(output) <= output;
    if root <= written {
      PrefixesNest(root, ParentOf(output), written);
    }
  }
}
