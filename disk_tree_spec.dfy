/**
 * What solving a list of directory paths produces, as a function of the
 * paths, and the properties of that output: one line per distinct folder,
 * folders in path order (a folder before its subfolders, siblings by ordinal
 * name, each subtree contiguous), indentation equal to depth, and
 * independence from the order and repetition of the input paths.
 */
module DiskTreeSpec {
  import opened Ordinal
  import opened PathSplit
  import opened FolderTree
  import opened TreeFormat

  /** The lines for `paths`: build the tree from a root named "", render it from the root sentinel. */
  function SolveSpec(paths: seq<string>): seq<string>
  {
    Format(Build(paths), -1)
  }

  /** The folders behind the lines, as paths from the root, in output order. */
  function Listing(paths: seq<string>): seq<Path>
  {
    Preorder(Build(paths))
  }

  function Last(p: Path): string
    requires p != []
  {
    p[|p| - 1]
  }

  /**
   * The output lists every folder that the paths create exactly once, in path
   * order, and line `i` is `depth` spaces and the name of the `i`-th folder,
   * where `depth` is the number of folders above it (0 for the root's subfolders).
   */
  lemma SolveListing(paths: seq<string>)
    ensures PathAscending(Listing(paths))
    ensures forall x :: x in Listing(paths) <==> x in FolderPaths(paths)
    ensures |SolveSpec(paths)| == |Listing(paths)|
    ensures forall i :: 0 <= i < |Listing(paths)| ==>
      Listing(paths)[i] != [] &&
      SolveSpec(paths)[i] == Indent(|Listing(paths)[i]| - 1) + Last(Listing(paths)[i])
  {
    var t := Build(paths);
    BuildPaths(paths);
    PreorderFacts(t);
    FormatLines(t, -1);
  }

  /** One line per non-root folder; no paths give no lines. */
  lemma SolveCount(paths: seq<string>)
    ensures |SolveSpec(paths)| == |FolderPaths(paths)|
    ensures paths == [] ==> SolveSpec(paths) == []
  {
    SolveListing(paths);
    AscendingCard(Listing(paths));
    assert (set x | x in Listing(paths)) == FolderPaths(paths);
  }

  /** Reordering or repeating input paths does not change the output. */
  lemma SolveOrderIndependent(ps: seq<string>, qs: seq<string>)
    requires forall x :: x in ps <==> x in qs
    ensures SolveSpec(ps) == SolveSpec(qs)
  {
    BuildOrderIndependent(ps, qs);
  }

  /** Feeding the same path a second time right away changes nothing. */
  lemma SolveRepeatedPath(ps: seq<string>, p: string)
    ensures SolveSpec(ps + [p, p]) == SolveSpec(ps + [p])
  {
    assert (ps + [p, p])[..|ps| + 1] == ps + [p];
    assert (ps + [p])[..|ps|] == ps;
    InsertPathIdempotent(Build(ps), Split(p, Separator));
  }

  /** Sibling folders are listed in strictly ascending ordinal order of their names. */
  lemma SolveSiblingsAscending(paths: seq<string>, i: nat, j: nat, r: Path, a: string, b: string)
    requires i < j < |Listing(paths)|
    requires Listing(paths)[i] == r + [a] && Listing(paths)[j] == r + [b]
    ensures Less(a, b)
  {
    var l := Listing(paths);
    SolveListing(paths);
    assert r + [a] == r + [a] + [] && r + [b] == r + [b] + [];
    if a == b {
      PathLessIrreflexive(l[i]);
    } else {
      PathLessSiblings(r, a, b, [], []);
    }
  }

  /** A folder is listed before every folder below it. */
  lemma SolveParentFirst(paths: seq<string>, i: nat, j: nat)
    requires i < |Listing(paths)| && j < |Listing(paths)|
    requires Listing(paths)[i] < Listing(paths)[j]
    ensures i < j
  {
    var l := Listing(paths);
    SolveListing(paths);
    var x, y := l[i], l[j];
    assert y == x + y[|x|..];
    PathLessExtension(x, y[|x|..]);
    if j < i {
      PathLessAsymmetric(y, x);
    }
  }

  /** The folders below a folder are listed right after it, with nothing else in between. */
  lemma SolveSubtreeContiguous(paths: seq<string>, i: nat, j: nat, k: nat)
    requires i < j < k < |Listing(paths)|
    requires Listing(paths)[i] <= Listing(paths)[k]
    ensures Listing(paths)[i] <= Listing(paths)[j]
  {
    var l := Listing(paths);
    SolveListing(paths);
    var x, z := l[i], l[k];
    assert z == x + z[|x|..];
    PathLessBetween(x, z[|x|..], l[j]);
  }

  lemma SplitOne(a: char)
    requires a != Separator
    ensures Split([a], Separator) == [[a]]
  {
    assert [a][1..] == [] && Split([], Separator) == [""];
    assert [a] + "" == [a] && [""][1..] == [];
  }

  lemma SplitTwo(a: char, b: char)
    requires a != Separator && b != Separator
    ensures Split([a, Separator, b], Separator) == [[a], [b]]
  {
    SplitOne(b);
    assert [Separator, b][1..] == [b];
    assert Split([Separator, b], Separator) == ["", [b]];
    assert [a, Separator, b][1..] == [Separator, b];
    assert [a] + "" == [a] && ["", [b]][1..] == [[b]];
  }

  lemma SplitThree(a: char, b: char, c: char)
    requires a != Separator && b != Separator && c != Separator
    ensures Split([a, Separator, b, Separator, c], Separator) == [[a], [b], [c]]
  {
    SplitTwo(b, c);
    assert [Separator, b, Separator, c][1..] == [b, Separator, c];
    assert Split([Separator, b, Separator, c], Separator) == ["", [b], [c]];
    assert [a, Separator, b, Separator, c][1..] == [Separator, b, Separator, c];
    assert [a] + "" == [a] && ["", [b], [c]][1..] == [[b], [c]];
  }

  lemma SortedPair(x: string, y: string)
    requires Less(x, y)
    ensures SortedKeys({x, y}) == [x, y]
  {
    assert (set z | z in [x, y]) == {x, y};
    SortedKeysOfAscending([x, y]);
  }

  lemma FormatLeaf(n: string, depth: nat)
    ensures Format(Leaf(n), depth) == [Indent(depth) + n]
  {
    assert SortedKeys(Leaf(n).kids.Keys) == [];
  }

  lemma FormatKidsPair(t: Tree, a: string, b: string, depth: nat)
    requires a in t.kids && b in t.kids
    ensures FormatKids(t, [a, b], depth) == Format(t.kids[a], depth) + Format(t.kids[b], depth)
  {
    assert [a, b][..1] == [a] && [a][..0] == [];
    assert FormatKids(t, [a], depth) == Format(t.kids[a], depth);
  }

  /** A folder renders as its own line, if any, then its subfolders in sorted order. */
  lemma FormatUnfold(t: Tree, ks: seq<string>, depth: int)
    requires depth >= -1
    requires ks == SortedKeys(t.kids.Keys)
    ensures Format(t, depth) == OwnLine(t.name, depth) + FormatKids(t, ks, depth + 1)
  {
  }

  /** A folder with one subfolder renders as its own line, then that subfolder's lines. */
  lemma FormatOne(n: string, a: string, ta: Tree, depth: int)
    requires depth >= -1
    ensures Format(Node(n, map[a := ta]), depth) == OwnLine(n, depth) + Format(ta, depth + 1)
  {
    var t := Node(n, map[a := ta]);
    assert t.kids.Keys == {a};
    assert SortedKeys(t.kids.Keys) == [a];
    FormatUnfold(t, [a], depth);
    assert [a][..0] == [];
    assert FormatKids(t, [a], depth + 1) == Format(ta, depth + 1);
  }

  /** A folder with two subfolders `a` < `b` renders its line, then `a`'s lines, then `b`'s. */
  lemma FormatTwo(n: string, a: string, ta: Tree, b: string, tb: Tree, depth: int)
    requires depth >= -1
    requires Less(a, b)
    ensures Format(Node(n, map[a := ta, b := tb]), depth)
      == OwnLine(n, depth) + Format(ta, depth + 1) + Format(tb, depth + 1)
  {
    var t := Node(n, map[a := ta, b := tb]);
    LessIrreflexive(a);
    assert t.kids.Keys == {a, b};
    SortedPair(a, b);
    FormatUnfold(t, [a, b], depth);
    FormatKidsPair(t, a, b, depth + 1);
    assert t.kids[a] == ta && t.kids[b] == tb;
  }

  /** Processing `a\b` then `a\c` gives one folder `a` holding `b` and `c`. */
  lemma BuildSiblings(a: char, b: char, c: char)
    requires a != Separator && b != Separator && c != Separator
    ensures Build([[a, Separator, b], [a, Separator, c]]) ==
      Node("", map[[a] := Node([a], map[[b] := Leaf([b]), [c] := Leaf([c])])])
  {
    var ps := [[a, Separator, b], [a, Separator, c]];
    SplitTwo(a, b);
    SplitTwo(a, c);
    assert ps[..1] == [[a, Separator, b]] && ps[..1][..0] == [];
    assert [[a], [b]][1..] == [[b]] && [[b]][1..] == [];
    assert [[a], [c]][1..] == [[c]] && [[c]][1..] == [];
    assert InsertPath(Leaf([a]), [[b]]) == Node([a], map[[b] := Leaf([b])]);
    var t1 := Node("", map[[a] := Node([a], map[[b] := Leaf([b])])]);
    assert Build(ps[..1]) == t1;
    assert InsertPath(t1.kids[[a]], [[c]]) == Node([a], map[[b] := Leaf([b]), [c] := Leaf([c])]);
  }

  /** Two paths `a\b` and `a\c` with `b` before `c` give `a`, then ` b`, then ` c`. */
  lemma SolveSiblings(a: char, b: char, c: char)
    requires a != Separator && b != Separator && c != Separator
    requires Less([b], [c])
    ensures SolveSpec([[a, Separator, b], [a, Separator, c]]) == [[a], [' ', b], [' ', c]]
  {
    BuildSiblings(a, b, c);
    FormatLeaf([b], 1);
    FormatLeaf([c], 1);
    FormatTwo([a], [b], Leaf([b]), [c], Leaf([c]), 0);
    FormatOne("", [a], Node([a], map[[b] := Leaf([b]), [c] := Leaf([c])]), -1);
    assert Indent(0) + [a] == [a];
    assert Indent(1) + [b] == [' ', b] && Indent(1) + [c] == [' ', c];
  }

  /** Processing `a\b\c` then `a\d` gives `a` holding `b` (holding `c`) and `d`. */
  lemma BuildNested(a: char, b: char, c: char, d: char)
    requires a != Separator && b != Separator && c != Separator && d != Separator
    requires b != d
    ensures Build([[a, Separator, b, Separator, c], [a, Separator, d]]) ==
      Node("", map[[a] := Node([a], map[[b] := Node([b], map[[c] := Leaf([c])]), [d] := Leaf([d])])])
  {
    var ps := [[a, Separator, b, Separator, c], [a, Separator, d]];
    SplitThree(a, b, c);
    SplitTwo(a, d);
    assert ps[..1] == [[a, Separator, b, Separator, c]] && ps[..1][..0] == [];
    assert [[a], [b], [c]][1..] == [[b], [c]] && [[b], [c]][1..] == [[c]] && [[c]][1..] == [];
    assert [[a], [d]][1..] == [[d]] && [[d]][1..] == [];
    var nb := Node([b], map[[c] := Leaf([c])]);
    assert InsertPath(Leaf([b]), [[c]]) == nb;
    assert InsertPath(Leaf([a]), [[b], [c]]) == Node([a], map[[b] := nb]);
    var t1 := Node("", map[[a] := Node([a], map[[b] := nb])]);
    assert Build(ps[..1]) == t1;
    assert InsertPath(t1.kids[[a]], [[d]]) == Node([a], map[[b] := nb, [d] := Leaf([d])]);
  }

  /** Folder `a` holding `b` (holding `c`) and `d`, at depth 0, with `b` before `d`. */
  lemma FormatNested(a: char, b: char, c: char, d: char)
    requires Less([b], [d])
    ensures Format(Node([a], map[[b] := Node([b], map[[c] := Leaf([c])]), [d] := Leaf([d])]), 0)
      == [[a], [' ', b], [' ', ' ', c], [' ', d]]
  {
    var nb := Node([b], map[[c] := Leaf([c])]);
    FormatLeaf([c], 2);
    FormatLeaf([d], 1);
    FormatOne([b], [c], Leaf([c]), 1);
    assert Indent(1) + [b] == [' ', b] && Indent(2) + [c] == [' ', ' ', c];
    assert Format(nb, 1) == [[' ', b], [' ', ' ', c]];
    assert Indent(1) + [d] == [' ', d];
    assert Format(Leaf([d]), 1) == [[' ', d]];
    FormatTwo([a], [b], nb, [d], Leaf([d]), 0);
    assert Indent(0) + [a] == [a];
  }

  /** Paths `a\b\c` and `a\d` with `b` before `d` give `a`, ` b`, `  c`, ` d`. */
  lemma SolveNested(a: char, b: char, c: char, d: char)
    requires a != Separator && b != Separator && c != Separator && d != Separator
    requires Less([b], [d])
    ensures SolveSpec([[a, Separator, b, Separator, c], [a, Separator, d]])
      == [[a], [' ', b], [' ', ' ', c], [' ', d]]
  {
    LessIrreflexive([b]);
    BuildNested(a, b, c, d);
    var ta := Node([a], map[[b] := Node([b], map[[c] := Leaf([c])]), [d] := Leaf([d])]);
    FormatOne("", [a], ta, -1);
    FormatNested(a, b, c, d);
  }

  /** Two single-segment paths `b`, `a` with `a` before `b` give `a`, then `b`. */
  lemma SolveReversed(a: char, b: char)
    requires a != Separator && b != Separator
    requires Less([a], [b])
    ensures SolveSpec([[b], [a]]) == [[a], [b]]
  {
    var ps := [[b], [a]];
    LessIrreflexive([a]);
    SplitOne(a);
    SplitOne(b);
    assert ps[..1] == [[b]] && ps[..1][..0] == [];
    assert [[b]][1..] == [] && [[a]][1..] == [];
    assert InsertPath(Leaf(""), [[b]]) == Node("", map[[b] := Leaf([b])]);
    assert Build(ps[..1]) == Node("", map[[b] := Leaf([b])]);
    assert InsertPath(Node("", map[[b] := Leaf([b])]), [[a]]) == Node("", map[[b] := Leaf([b]), [a] := Leaf([a])]);
    assert Build(ps) == Node("", map[[b] := Leaf([b]), [a] := Leaf([a])]);
    assert map[[b] := Leaf([b]), [a] := Leaf([a])] == map[[a] := Leaf([a]), [b] := Leaf([b])];
    FormatLeaf([a], 0);
    FormatLeaf([b], 0);
    FormatTwo("", [a], Leaf([a]), [b], Leaf([b]), -1);
    assert Indent(0) + [a] == [a] && Indent(0) + [b] == [b];
  }

  /** Input ["a\\b", "a\\c"] gives ["a", " b", " c"]. */
  lemma Example1()
    ensures SolveSpec(["a\\b", "a\\c"]) == ["a", " b", " c"]
  {
    LessOneChar('b', 'c');
    SolveSiblings('a', 'b', 'c');
  }

  /** Input ["a\\b\\c", "a\\d"] gives ["a", " b", "  c", " d"]. */
  lemma Example2()
    ensures SolveSpec(["a\\b\\c", "a\\d"]) == ["a", " b", "  c", " d"]
  {
    LessOneChar('b', 'd');
    SolveNested('a', 'b', 'c', 'd');
  }

  /** Input ["b", "a"] gives ["a", "b"]: sorted whatever the input order. */
  lemma Example4()
    ensures SolveSpec(["b", "a"]) == ["a", "b"]
  {
    LessOneChar('a', 'b');
    SolveReversed('a', 'b');
  }

  /**
   * Input ["\U{FF01}", "\U{1F600}"] gives ["\U{1F600}", "\U{FF01}"]: although
   * U+1F600 is the larger code point, its first code unit is the high
   * surrogate D83D, below FF01.
   */
  lemma ExampleSurrogates()
    ensures SolveSpec(["\U{FF01}", "\U{1F600}"]) == ["\U{1F600}", "\U{FF01}"]
  {
    var a, b := '\U{1F600}', '\U{FF01}';
    assert "\U{1F600}" == [a] && "\U{FF01}" == [b];
    SurrogatePairFirst();
    SolveReversed(a, b);
  }
}
