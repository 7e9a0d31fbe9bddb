/**
 * The folder tree as a value. A folder is its name and the map from each
 * subfolder name to that subfolder. Building the tree from paths is a fold
 * of `InsertPath`, which descends from the root one segment at a time and
 * gets or adds the subfolder for each segment.
 *
 * A tree is also described by the set of paths (sequences of names) that lead
 * from its root to one of its folders; the root's path is `[]`. For trees
 * whose keys are their children's names (`WellKeyed`), the root name and the
 * path set fix the tree (`Extensionality`), so facts about the path set
 * settle facts about the tree, such as independence of the input order.
 */
module FolderTree {
  import opened PathSplit

  /** The separator the builder splits paths on: a backslash. */
  const Separator: char := '\\'

  type Path = seq<string>

  datatype Tree = Node(name: string, kids: map<string, Tree>)

  /** A new folder: a name and no subfolders. */
  function Leaf(name: string): Tree
  {
    Node(name, map[])
  }

  /** Every key in the tree maps to a folder of that name. */
  ghost predicate WellKeyed(t: Tree)
  {
    forall k :: k in t.kids ==> t.kids[k].name == k && WellKeyed(t.kids[k])
  }

  /** The subfolder named `k` that get-or-add yields: the existing one, or a new empty one. */
  function Child(t: Tree, k: string): Tree
  {
    if k in t.kids then t.kids[k] else Leaf(k)
  }

  /** Get or add the chain of subfolders `segs` below `t`. */
  function InsertPath(t: Tree, segs: Path): Tree
    decreases |segs|
  {
    if segs == [] then t
    else
      var k := segs[0];
      Node(t.name, t.kids[k := InsertPath(Child(t, k), segs[1..])])
  }

  /** The tree that processing `ps` in order builds from a root named "". */
  function Build(ps: seq<string>): Tree
    decreases |ps|
  {
    if ps == [] then Leaf("")
    else InsertPath(Build(ps[..|ps| - 1]), Split(ps[|ps| - 1], Separator))
  }

  /** The paths from the root of `t` to each of its folders, the root itself included. */
  ghost function Paths(t: Tree): set<Path>
  {
    {[]} + set k, q | k in t.kids && q in Paths(t.kids[k]) :: [k] + q
  }

  /** All prefixes of `s`, from `[]` to `s` itself. */
  function Prefixes(s: Path): set<Path>
  {
    set i | 0 <= i <= |s| :: s[..i]
  }

  /** The paths of the folders that processing `ps` creates (the root excluded). */
  ghost function FolderPaths(ps: seq<string>): set<Path>
  {
    set p, x | p in ps && x in Prefixes(Split(p, Separator)) && x != [] :: x
  }

  lemma InPrefixes(s: Path, p: Path)
    ensures p in Prefixes(s) <==> p <= s
  {
    if p <= s { assert p == s[..|p|]; }
  }

  /** A path of `t` is empty or a key of `t` followed by a path of that subfolder. */
  lemma InPaths(t: Tree, p: Path)
    ensures p in Paths(t) <==> p == [] || (p[0] in t.kids && p[1..] in Paths(t.kids[p[0]]))
  {
    if p != [] {
      if p in Paths(t) {
        var k, q :| k in t.kids && q in Paths(t.kids[k]) && p == [k] + q;
        assert p[0] == k && p[1..] == q;
      }
      if p[0] in t.kids && p[1..] in Paths(t.kids[p[0]]) {
        assert p == [p[0]] + p[1..];
      }
    }
  }

  lemma PathsOfLeaf(name: string)
    ensures Paths(Leaf(name)) == {[]}
  {
  }

  /** Get-or-add keeps names as keys, and the new tree keeps the root's name. */
  lemma {:induction false} InsertPathWellKeyed(t: Tree, segs: Path)
    requires WellKeyed(t)
    ensures WellKeyed(InsertPath(t, segs))
    ensures InsertPath(t, segs).name == t.name
    decreases |segs|
  {
    if segs != [] {
      InsertPathWellKeyed(Child(t, segs[0]), segs[1..]);
    }
  }

  /** Inserting a path adds exactly its prefixes to the tree's paths. */
  lemma {:induction false} InsertPathPaths(t: Tree, segs: Path)
    ensures Paths(InsertPath(t, segs)) == Paths(t) + Prefixes(segs)
    decreases |segs|
  {
    if segs == [] {
      assert segs[..0] == [];
      forall p | p in Prefixes(segs) ensures p == [] { InPrefixes(segs, p); }
    } else {
      var k := segs[0];
      var c := Child(t, k);
      InsertPathPaths(c, segs[1..]);
      var u := InsertPath(t, segs);
      forall p
        ensures p in Paths(u) <==> p in Paths(t) + Prefixes(segs)
      {
        InPaths(u, p);
        InPaths(t, p);
        InPrefixes(segs, p);
        if p == [] {
          assert segs[..0] == [];
        } else if p[0] == k {
          InPrefixes(segs[1..], p[1..]);
          assert p <= segs <==> p[1..] <= segs[1..];
          if k !in t.kids {
            PathsOfLeaf(k);
          }
        }
      }
    }
  }

  /** Inserting a path the tree already has changes nothing. */
  lemma {:induction false} InsertPathPresent(t: Tree, segs: Path)
    requires segs in Paths(t)
    ensures InsertPath(t, segs) == t
    decreases |segs|
  {
    if segs != [] {
      InPaths(t, segs);
      InsertPathPresent(t.kids[segs[0]], segs[1..]);
      assert t.kids[segs[0] := t.kids[segs[0]]] == t.kids;
    }
  }

  /** Processing the same path twice gives the same tree as processing it once. */
  lemma InsertPathIdempotent(t: Tree, segs: Path)
    ensures InsertPath(InsertPath(t, segs), segs) == InsertPath(t, segs)
  {
    InsertPathPaths(t, segs);
    InPrefixes(segs, segs);
    InsertPathPresent(InsertPath(t, segs), segs);
  }

  /** Two well-keyed trees with the same root name and the same paths are equal. */
  lemma {:induction false} Extensionality(t1: Tree, t2: Tree)
    requires WellKeyed(t1) && WellKeyed(t2)
    requires t1.name == t2.name
    requires Paths(t1) == Paths(t2)
    ensures t1 == t2
    decreases t1
  {
    forall k
      ensures k in t1.kids <==> k in t2.kids
    {
      InPaths(t1, [k]);
      InPaths(t2, [k]);
      assert [k][1..] == [];
    }
    forall k | k in t1.kids
      ensures t1.kids[k] == t2.kids[k]
    {
      forall q
        ensures q in Paths(t1.kids[k]) <==> q in Paths(t2.kids[k])
      {
        InPaths(t1, [k] + q);
        InPaths(t2, [k] + q);
        assert ([k] + q)[0] == k && ([k] + q)[1..] == q;
      }
      Extensionality(t1.kids[k], t2.kids[k]);
    }
    assert t1.kids == t2.kids;
  }

  /** Inserting two paths in either order gives the same tree. */
  lemma InsertPathCommutes(t: Tree, a: Path, b: Path)
    requires WellKeyed(t)
    ensures InsertPath(InsertPath(t, a), b) == InsertPath(InsertPath(t, b), a)
  {
    var ab := InsertPath(InsertPath(t, a), b);
    var ba := InsertPath(InsertPath(t, b), a);
    InsertPathWellKeyed(t, a);
    InsertPathWellKeyed(InsertPath(t, a), b);
    InsertPathWellKeyed(t, b);
    InsertPathWellKeyed(InsertPath(t, b), a);
    InsertPathPaths(t, a);
    InsertPathPaths(InsertPath(t, a), b);
    InsertPathPaths(t, b);
    InsertPathPaths(InsertPath(t, b), a);
    Extensionality(ab, ba);
  }

  /** The built tree: root named "", names as keys, one folder per prefix of a split path. */
  lemma {:induction false} BuildPaths(ps: seq<string>)
    ensures WellKeyed(Build(ps)) && Build(ps).name == ""
    ensures Paths(Build(ps)) == {[]} + FolderPaths(ps)
    decreases |ps|
  {
    if ps != [] {
      var init, last := ps[..|ps| - 1], ps[|ps| - 1];
      BuildPaths(init);
      InsertPathWellKeyed(Build(init), Split(last, Separator));
      InsertPathPaths(Build(init), Split(last, Separator));
      assert ps == init + [last];
      forall x
        ensures x in FolderPaths(ps) <==> x in FolderPaths(init) + (Prefixes(Split(last, Separator)) - {[]})
      {
        if x in FolderPaths(ps) {
          var p :| p in ps && x in Prefixes(Split(p, Separator)) && x != [];
          if p != last { assert p in init; }
        }
      }
      assert [] in Prefixes(Split(last, Separator)) by {
        assert Split(last, Separator)[..0] == [];
      }
    }
  }

  /** Only the set of input paths matters: order and repetitions do not change the tree. */
  lemma BuildOrderIndependent(ps: seq<string>, qs: seq<string>)
    requires forall x :: x in ps <==> x in qs
    ensures Build(ps) == Build(qs)
  {
    BuildPaths(ps);
    BuildPaths(qs);
    assert FolderPaths(ps) == FolderPaths(qs);
    Extensionality(Build(ps), Build(qs));
  }
}
