/**
 * The folder objects. A `Folder` has a fixed name and a dictionary from
 * subfolder name to subfolder that `GetOrAddSubfolder` extends in place;
 * `GetFormattedTree` appends the folder's rendering to a shared list of lines.
 * `ProcessPath` and `Solve` build the tree from the input paths and render it.
 *
 * The folders reachable from a root are described by a ghost map `node` from
 * each path (the names leading down from the root) to the folder at its end.
 * `IsTree(node)` says that this map really is the tree hanging off `node[[]]`:
 * the subfolders of every listed folder are listed under the extended path,
 * every listed folder hangs off its parent under its own name, and no folder
 * is listed twice. The folder at `p` then has the shape
 * `Shape(node.Keys, p, name)`, a `Tree` value computed from the listed paths
 * alone, which is what the pure layer reasons about.
 */
module DiskTree {
  import opened Ordinal
  import opened PathSplit
  import opened FolderTree
  import opened TreeFormat
  import opened DiskTreeSpec

  /** A list of output lines that rendering appends to. */
  class Lines {
    var items: seq<string>

    constructor ()
      ensures items == []
    {
      items := [];
    }

    method Add(line: string)
      modifies this
      ensures items == old(items) + [line]
    {
      items := items + [line];
    }
  }

  class Folder {
    const name: string
    var subfolders: map<string, Folder>

    /** A new folder with the given name and no subfolders. */
    constructor (name: string)
      ensures this.name == name && subfolders == map[]
    {
      this.name := name;
      subfolders := map[];
    }

    /** Every key of the dictionary maps to a subfolder of that name. */
    predicate KeysMatchNames()
      reads this
    {
      forall k :: k in subfolders ==> subfolders[k].name == k
    }

    /** The subfolder named `subfolderName`: the existing one, or a new empty one added under that name. */
    method GetOrAddSubfolder(subfolderName: string) returns (subfolder: Folder)
      modifies this
      ensures subfolderName in old(subfolders) ==>
        subfolder == old(subfolders)[subfolderName] && subfolders == old(subfolders)
      ensures subfolderName !in old(subfolders) ==>
        && fresh(subfolder) && subfolder.name == subfolderName && subfolder.subfolders == map[]
        && subfolders == old(subfolders)[subfolderName := subfolder]
      ensures old(KeysMatchNames()) ==> KeysMatchNames()
    {
      if subfolderName in subfolders {
        subfolder := subfolders[subfolderName];
      } else {
        subfolder := new Folder(subfolderName);
        subfolders := subfolders[subfolderName := subfolder];
      }
    }

    /** The subfolders, in ascending ordinal order of their names. */
    function SortedSubfolders(): (r: seq<Folder>)
      reads this
      ensures |r| == |subfolders|
      ensures forall i :: 0 <= i < |r| ==>
        SortedKeys(subfolders.Keys)[i] in subfolders && r[i] == subfolders[SortedKeys(subfolders.Keys)[i]]
    {
      var m := subfolders;
      var ks := SortedKeys(m.Keys);
      assert |ks| == |m.Keys| == |m|;
      assert forall i :: 0 <= i < |ks| ==> ks[i] in ks;
      seq(|ks|, i requires 0 <= i < |ks| => m[ks[i]])
    }

    /**
     * The sorted subfolders list every subfolder, and once the keys are the
     * names, the names strictly ascend, so no subfolder is listed twice.
     */
    lemma SortedSubfoldersOrder()
      ensures forall f :: f in subfolders.Values ==> f in SortedSubfolders()
      ensures KeysMatchNames() ==> forall i, j :: 0 <= i < j < |SortedSubfolders()| ==>
        Less(SortedSubfolders()[i].name, SortedSubfolders()[j].name)
    {
      ValuesInOrder(subfolders, SortedKeys(subfolders.Keys), SortedSubfolders());
    }

    /**
     * Appends the rendering of this folder at `depth` to `result`: its own line
     * unless `depth` is the root sentinel -1, then each subfolder in name order
     * one level deeper. `p` is the path of this folder in the tree `node`.
     */
    method GetFormattedTree(depth: int, result: Lines, ghost node: map<Path, Folder>, ghost p: Path)
      returns (r: Lines)
      requires depth >= -1
      requires IsTree(node) && p in node && node[p] == this
      modifies result
      ensures r == result
      ensures result.items == old(result.items) + Format(Shape(node.Keys, p, name), depth)
      decreases Below(node.Keys, p)
    {
      ghost var t := Shape(node.Keys, p, name);
      ghost var before := result.items;
      if depth != -1 {
        result.Add(Indent(depth) + name);
      }
      ghost var ks := SortedKeys(subfolders.Keys);
      ShapeAt(node, p, ks);
      var sorted := SortedSubfolders();
      assert FormatKids(t, ks[..0], depth + 1) == [];
      for i := 0 to |sorted|
        invariant result.items == before + OwnLine(name, depth) + FormatKids(t, ks[..i], depth + 1)
      {
        ghost var k := ks[i];
        BelowShrinks(node.Keys, p, k);
        var _ := sorted[i].GetFormattedTree(depth + 1, result, node, p + [k]);
        RenderStep(before + OwnLine(name, depth), t, ks, i, depth + 1);
      }
      RenderAll(before, t, ks, depth);
      r := result;
    }
  }

  /**
   * Gets or adds the chain of subfolders named by the segments of `fullPath`
   * below `currentFolder`, the root of the tree `node`; `node'` lists the grown
   * tree: the old folders under their old paths, plus every prefix of the segments.
   */
  method ProcessPath(currentFolder: Folder, fullPath: string, ghost node: map<Path, Folder>)
    returns (ghost node': map<Path, Folder>)
    requires IsTree(node) && Injective(node) && node[[]] == currentFolder
    modifies node.Values
    ensures IsTree(node') && Injective(node') && node'[[]] == currentFolder
    ensures node'.Keys == node.Keys + Prefixes(Split(fullPath, Separator))
    ensures forall q :: q in node ==> node'[q] == node[q]
    ensures forall f :: f in node'.Values ==> f in node.Values || fresh(f)
    ensures Prefixes(Split(fullPath, Separator)) <= node.Keys ==> node' == node
  {
    var subfolderNames := Split(fullPath, Separator);
    var current := currentFolder;
    ghost var q: Path := [];
    node' := node;
    assert Prefixes(subfolderNames[..0]) == {[]} by {
      InPrefixes(subfolderNames[..0], []);
    }
    for i := 0 to |subfolderNames|
      invariant IsTree(node') && Injective(node') && node'[[]] == currentFolder
      invariant q == subfolderNames[..i] && q in node' && node'[q] == current
      invariant node'.Keys == node.Keys + Prefixes(subfolderNames[..i])
      invariant forall x :: x in node ==> node'[x] == node[x]
      invariant forall f :: f in node'.Values ==> f in node.Values || fresh(f)
    {
      var k := subfolderNames[i];
      label Step:
      current := current.GetOrAddSubfolder(k);
      IsTreeGrow@Step(node', q, k, current);
      GrowKeys(node.Keys, node', subfolderNames, i, current);
      node' := node'[q + [k] := current];
      q := q + [k];
    }
    assert subfolderNames[..|subfolderNames|] == subfolderNames;
    if Prefixes(subfolderNames) <= node.Keys {
      assert node'.Keys == node.Keys;
    }
  }

  /**
   * Builds the tree of `directoryPaths` from a root named "" and returns its
   * rendering from the root sentinel depth -1.
   */
  method Solve(directoryPaths: seq<string>) returns (lines: seq<string>)
    ensures lines == SolveSpec(directoryPaths)
  {
    var rootFolder := new Folder("");
    ghost var node: map<Path, Folder> := map[[] := rootFolder];
    assert IsTree(node);
    for i := 0 to |directoryPaths|
      invariant IsTree(node) && Injective(node) && node[[]] == rootFolder
      invariant node.Keys == {[]} + FolderPaths(directoryPaths[..i])
      invariant forall f :: f in node.Values ==> fresh(f)
    {
      node := ProcessPath(rootFolder, directoryPaths[i], node);
      FolderPathsSnoc(directoryPaths, i);
    }
    assert directoryPaths[..|directoryPaths|] == directoryPaths;
    var result := new Lines();
    var r := rootFolder.GetFormattedTree(-1, result, node, []);
    assert PrefixClosed(node.Keys);
    ShapeIsBuild(node.Keys, directoryPaths);
    lines := r.items;
  }

  /** Looking up the names `ks` (each key once, ascending) in `m` lists each value once, in name order. */
  lemma ValuesInOrder(m: map<string, Folder>, ks: seq<string>, r: seq<Folder>)
    requires |r| == |ks| && StrictlyAscending(ks)
    requires forall k :: k in ks <==> k in m
    requires forall i :: 0 <= i < |ks| ==> r[i] == m[ks[i]]
    ensures forall f :: f in m.Values ==> f in r
    ensures (forall k :: k in m ==> m[k].name == k) ==>
      forall i, j :: 0 <= i < j < |r| ==> Less(r[i].name, r[j].name)
  {
    forall f | f in m.Values
      ensures f in r
    {
      var k :| k in m && m[k] == f;
      var i :| 0 <= i < |ks| && ks[i] == k;
      assert r[i] == f;
    }
  }

  /** After the lines of subfolders `ks[..i]`, those of subfolder `ks[i]` give the lines of `ks[..i + 1]`. */
  lemma RenderStep(head: seq<string>, t: Tree, ks: seq<string>, i: nat, depth: nat)
    requires i < |ks| && forall k :: k in ks ==> k in t.kids
    ensures head + FormatKids(t, ks[..i], depth) + Format(t.kids[ks[i]], depth) == head + FormatKids(t, ks[..i + 1], depth)
  {
    FormatKidsSnoc(t, ks, i, depth);
    assert head + FormatKids(t, ks[..i], depth) + Format(t.kids[ks[i]], depth)
      == head + (FormatKids(t, ks[..i], depth) + Format(t.kids[ks[i]], depth));
  }

  /** Own line followed by the lines of every subfolder in order is the rendering of `t`. */
  lemma RenderAll(before: seq<string>, t: Tree, ks: seq<string>, depth: int)
    requires depth >= -1 && ks == SortedKeys(t.kids.Keys) && forall k :: k in ks ==> k in t.kids
    ensures before + OwnLine(t.name, depth) + FormatKids(t, ks[..|ks|], depth + 1) == before + Format(t, depth)
  {
    assert ks[..|ks|] == ks;
    FormatUnfold(t, ks, depth);
    assert before + OwnLine(t.name, depth) + FormatKids(t, ks, depth + 1)
      == before + (OwnLine(t.name, depth) + FormatKids(t, ks, depth + 1));
  }

  /** Rendering one more subfolder appends its lines. */
  lemma FormatKidsSnoc(t: Tree, ks: seq<string>, i: nat, depth: nat)
    requires i < |ks| && forall k :: k in ks ==> k in t.kids
    ensures FormatKids(t, ks[..i + 1], depth) == FormatKids(t, ks[..i], depth) + Format(t.kids[ks[i]], depth)
  {
    assert ks[..i + 1][..i] == ks[..i];
  }

  /** Every subfolder of a listed folder is listed under the extended path. */
  ghost predicate ChildrenListed(node: map<Path, Folder>)
    reads node.Values
  {
    forall p, k {:trigger k in node[p].subfolders} :: p in node && k in node[p].subfolders ==>
      p + [k] in node && node[p + [k]] == node[p].subfolders[k]
  }

  /** Every listed folder but the root hangs off its parent, under its own name. */
  ghost predicate ParentsListed(node: map<Path, Folder>)
    reads node.Values
  {
    forall q, k {:trigger q + [k] in node} :: q + [k] in node ==>
      q in node && k in node[q].subfolders && node[q + [k]].name == k
  }

  /** No folder is listed under two paths. */
  ghost predicate Injective(node: map<Path, Folder>)
  {
    forall p, q :: p in node && q in node && node[p] == node[q] ==> p == q
  }

  /** `node` lists the folders below `node[[]]`, each under its path. */
  ghost predicate IsTree(node: map<Path, Folder>)
    reads node.Values
  {
    [] in node && ChildrenListed(node) && ParentsListed(node)
  }

  /** The paths of `s` that pass through `p`. */
  ghost function Below(s: set<Path>, p: Path): set<Path>
  {
    set q | q in s && p <= q
  }

  lemma BelowShrinks(s: set<Path>, p: Path, k: string)
    requires p in s
    ensures Below(s, p + [k]) < Below(s, p)
  {
    assert p in Below(s, p);
    forall q | q in Below(s, p + [k])
      ensures q in Below(s, p)
    {
      assert q[..|p|] == (p + [k])[..|p|] == p;
    }
  }

  /** The last segments of the paths of `s` one level below `p`. */
  ghost function KidNames(s: set<Path>, p: Path): set<string>
  {
    set q | q in Children(s, p) :: Last(q)
  }

  /** The paths of `s` one level below `p`. */
  ghost function Children(s: set<Path>, p: Path): (r: set<Path>)
    ensures forall q :: q in r ==> q != []
  {
    set q | q in s && |q| == |p| + 1 && p <= q
  }

  lemma InKidNames(s: set<Path>, p: Path, k: string)
    ensures k in KidNames(s, p) <==> p + [k] in s
  {
    if k in KidNames(s, p) {
      var q :| q in Children(s, p) && Last(q) == k;
      assert q == p + [k];
    }
    if p + [k] in s {
      assert p + [k] in Children(s, p);
      assert Last(p + [k]) == k;
    }
  }

  /**
   * The tree of the paths of `s` that extend `p`: its root is named `name`,
   * every other folder is named by the last segment of its path.
   */
  ghost function Shape(s: set<Path>, p: Path, name: string): Tree
    requires p in s
    decreases Below(s, p)
  {
    Node(name, map k {:trigger k in KidNames(s, p)} | k in KidNames(s, p) ::
      InKidNames(s, p, k); BelowShrinks(s, p, k); Shape(s, p + [k], k))
  }

  /** Every path of `s` has its parent in `s`. */
  ghost predicate PrefixClosed(s: set<Path>)
  {
    forall q, k {:trigger q + [k] in s} :: q + [k] in s ==> q in s
  }

  /** Every prefix of a path of a prefix-closed set is in the set. */
  lemma {:induction false} AncestorIn(s: set<Path>, x: Path, n: nat)
    requires PrefixClosed(s) && x in s && n <= |x|
    ensures x[..n] in s
    decreases |x| - n
  {
    if n < |x| {
      AncestorIn(s, x, n + 1);
      assert x[..n + 1] == x[..n] + [x[n]];
    } else {
      assert x[..n] == x;
    }
  }

  /**
   * The shape at `p` is well keyed, and its paths are exactly the paths of `s`
   * that extend `p`.
   */
  lemma {:induction false} ShapeFacts(s: set<Path>, p: Path, name: string)
    requires PrefixClosed(s) && p in s
    ensures Shape(s, p, name).name == name
    ensures WellKeyed(Shape(s, p, name))
    ensures forall q :: q in Paths(Shape(s, p, name)) <==> p + q in s
    decreases Below(s, p)
  {
    var t := Shape(s, p, name);
    forall k | k in t.kids
      ensures p + [k] in s && t.kids[k] == Shape(s, p + [k], k)
      ensures WellKeyed(t.kids[k]) && t.kids[k].name == k
      ensures forall q :: q in Paths(t.kids[k]) <==> p + [k] + q in s
    {
      InKidNames(s, p, k);
      BelowShrinks(s, p, k);
      ShapeFacts(s, p + [k], k);
    }
    forall q
      ensures q in Paths(t) <==> p + q in s
    {
      InPaths(t, q);
      if q == [] {
        assert p + q == p;
      } else {
        var k := q[0];
        assert p + [k] + q[1..] == p + q;
        if p + q in s {
          AncestorIn(s, p + q, |p| + 1);
          assert (p + q)[..|p| + 1] == p + [k];
          InKidNames(s, p, k);
        }
      }
    }
  }

  /**
   * The shape at `p` has the name of the folder at `p` and its subfolder names,
   * which `ks` lists; the subfolder named `ks[i]` is listed at `p + [ks[i]]`,
   * and its shape is entry `ks[i]` of the shape at `p`.
   */
  lemma ShapeAt(node: map<Path, Folder>, p: Path, ks: seq<string>)
    requires IsTree(node) && p in node
    requires ks == SortedKeys(node[p].subfolders.Keys)
    ensures Shape(node.Keys, p, node[p].name).name == node[p].name
    ensures ks == SortedKeys(Shape(node.Keys, p, node[p].name).kids.Keys)
    ensures forall k :: k in ks ==> k in Shape(node.Keys, p, node[p].name).kids
    ensures forall i :: 0 <= i < |ks| ==>
      && p + [ks[i]] in node && node[p + [ks[i]]] == node[p].subfolders[ks[i]]
      && node[p + [ks[i]]].name == ks[i]
      && Shape(node.Keys, p, node[p].name).kids[ks[i]] == Shape(node.Keys, p + [ks[i]], ks[i])
  {
    var t := Shape(node.Keys, p, node[p].name);
    forall k
      ensures k in t.kids <==> k in node[p].subfolders
    {
      InKidNames(node.Keys, p, k);
    }
    assert t.kids.Keys == node[p].subfolders.Keys;
    forall i | 0 <= i < |ks|
      ensures p + [ks[i]] in node && node[p + [ks[i]]] == node[p].subfolders[ks[i]]
      ensures node[p + [ks[i]]].name == ks[i]
    {
      assert ks[i] in ks;
    }
  }

  /**
   * Getting or adding subfolder `k` of the folder at `q` keeps the tree, with
   * the subfolder listed at `q + [k]`.
   */
  twostate lemma IsTreeGrow(node: map<Path, Folder>, new q: Path, new k: string, new f: Folder)
    requires old(IsTree(node)) && Injective(node) && q in node
    requires forall g :: g in node.Values && g != node[q] ==> unchanged(g)
    requires k in old(node[q].subfolders) ==>
      f == old(node[q].subfolders[k]) && node[q].subfolders == old(node[q].subfolders)
    requires k !in old(node[q].subfolders) ==>
      && fresh(f) && f.name == k && f.subfolders == map[]
      && node[q].subfolders == old(node[q].subfolders)[k := f]
    ensures IsTree(node[q + [k] := f]) && Injective(node[q + [k] := f])
    ensures forall g :: g in node[q + [k] := f].Values ==> g in node.Values || fresh(g)
    ensures q + [k] in node ==> node[q + [k]] == f
  {
    var n := node[q + [k] := f];
    forall x | x in node && x != q
      ensures node[x].subfolders == old(node[x].subfolders)
    {
      assert node[x] != node[q] && node[x] in node.Values;
    }
    if k in old(node[q].subfolders) {
      assert old(q + [k] in node && node[q + [k]] == node[q].subfolders[k]);
      assert n == node;
    } else {
      assert q + [k] !in node;
      forall x, j | x in n && j in n[x].subfolders
        ensures x + [j] in n && n[x + [j]] == n[x].subfolders[j]
      {
        if x == q && j != k {
          assert old(j in node[q].subfolders);
        } else if x != q && x != q + [k] {
          assert old(j in node[x].subfolders);
        }
      }
      forall x, j | x + [j] in n
        ensures x in n && j in n[x].subfolders && n[x + [j]].name == j
      {
        if x + [j] == q + [k] {
          assert x == (x + [j])[..|x|] == (q + [k])[..|q|] == q;
        } else {
          assert old(x in node && j in node[x].subfolders);
        }
      }
      assert f !in node.Values;
    }
  }

  /** Listing the folder for one more segment lists one more prefix of the segments. */
  lemma GrowKeys(keys: set<Path>, node: map<Path, Folder>, s: Path, i: nat, f: Folder)
    requires i < |s| && node.Keys == keys + Prefixes(s[..i])
    ensures s[..i] + [s[i]] == s[..i + 1]
    ensures node[s[..i] + [s[i]] := f].Keys == keys + Prefixes(s[..i + 1])
  {
    PrefixesSnoc(s, i);
  }

  /** One more segment adds one more prefix. */
  lemma PrefixesSnoc(s: Path, i: nat)
    requires i < |s|
    ensures Prefixes(s[..i + 1]) == Prefixes(s[..i]) + {s[..i] + [s[i]]}
  {
    assert s[..i + 1] == s[..i] + [s[i]];
    forall x
      ensures x in Prefixes(s[..i + 1]) <==> x in Prefixes(s[..i]) + {s[..i] + [s[i]]}
    {
      InPrefixes(s[..i + 1], x);
      InPrefixes(s[..i], x);
      if x <= s[..i + 1] && |x| <= i {
        assert x == s[..i + 1][..|x|] == s[..i][..|x|];
      }
      if x <= s[..i] {
        assert x == s[..i][..|x|] == s[..i + 1][..|x|];
      }
      if x <= s[..i + 1] && |x| == i + 1 {
        assert x == s[..i + 1][..i + 1] == s[..i + 1];
      }
    }
  }

  /** One more input path adds the non-root prefixes of its segments. */
  lemma FolderPathsSnoc(ps: seq<string>, i: nat)
    requires i < |ps|
    ensures {[]} + FolderPaths(ps[..i + 1]) == {[]} + FolderPaths(ps[..i]) + Prefixes(Split(ps[i], Separator))
  {
    var segs := Split(ps[i], Separator);
    assert ps[..i + 1] == ps[..i] + [ps[i]];
    InPrefixes(segs, []);
    forall x | x in FolderPaths(ps[..i + 1])
      ensures x in FolderPaths(ps[..i]) || x in Prefixes(segs)
    {
      var p :| p in ps[..i + 1] && x in Prefixes(Split(p, Separator)) && x != [];
      if p != ps[i] { assert p in ps[..i]; }
    }
    forall x | x in Prefixes(segs) && x != []
      ensures x in FolderPaths(ps[..i + 1])
    {
      assert ps[i] in ps[..i + 1];
    }
    forall x | x in FolderPaths(ps[..i])
      ensures x in FolderPaths(ps[..i + 1])
    {
      var p :| p in ps[..i] && x in Prefixes(Split(p, Separator)) && x != [];
      assert p in ps[..i + 1];
    }
  }

  /** The tree of the root and the folder paths of `paths` is the tree the pure builder computes. */
  lemma ShapeIsBuild(s: set<Path>, paths: seq<string>)
    requires PrefixClosed(s) && s == {[]} + FolderPaths(paths)
    ensures Shape(s, [], "") == Build(paths)
  {
    ShapeFacts(s, [], "");
    BuildPaths(paths);
    forall q
      ensures q in Paths(Shape(s, [], "")) <==> q in Paths(Build(paths))
    {
      assert [] + q == q;
    }
    Extensionality(Shape(s, [], ""), Build(paths));
  }
}
