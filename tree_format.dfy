/**
 * Rendering a folder tree as indented lines. `Format(t, depth)` is the list of
 * lines a folder appends: its own line (`depth` spaces, then its name) unless
 * `depth` is the root sentinel -1, then each subfolder's lines at `depth + 1`,
 * subfolders taken in ascending ordinal order of their names.
 *
 * Independently of that recursion, `Preorder(t)` lists the paths of the
 * folders below `t` in the order they are rendered. The lemmas here show that
 * this list holds each such path exactly once, in ascending `PathLess` order
 * (a folder before everything below it, siblings by name), and that line `i`
 * is entry `i` of that list indented by its depth.
 */
module TreeFormat {
  import opened Ordinal
  import opened FolderTree

  /** `n` space characters. */
  function Indent(n: nat): (s: string)
    ensures |s| == n && forall i :: 0 <= i < n ==> s[i] == ' '
  {
    seq(n, _ => ' ')
  }

  /** The line of a folder named `name` at `depth`; none at the root sentinel -1. */
  function OwnLine(name: string, depth: int): seq<string>
    requires depth >= -1
  {
    if depth != -1 then [Indent(depth) + name] else []
  }

  /** The lines folder `t` appends when rendered at `depth` (-1 for the root). */
  function Format(t: Tree, depth: int): seq<string>
    requires depth >= -1
    decreases t, 1
  {
    OwnLine(t.name, depth) + FormatKids(t, SortedKeys(t.kids.Keys), depth + 1)
  }

  /** The lines of the subfolders `ks` of `t`, in the order of `ks`, each at `depth`. */
  function FormatKids(t: Tree, ks: seq<string>, depth: nat): seq<string>
    requires forall k :: k in ks ==> k in t.kids
    decreases t, 0, |ks|
  {
    if ks == [] then []
    else FormatKids(t, ks[..|ks| - 1], depth) + Format(t.kids[ks[|ks| - 1]], depth)
  }

  /** Path order: segment by segment in ordinal order, a proper prefix first. */
  predicate PathLess(p: Path, q: Path)
  {
    if |p| == 0 then |q| > 0
    else if |q| == 0 then false
    else if p[0] != q[0] then Less(p[0], q[0])
    else PathLess(p[1..], q[1..])
  }

  predicate PathAscending(s: seq<Path>)
  {
    forall i, j {:trigger PathLess(s[i], s[j])} :: 0 <= i < j < |s| ==> PathLess(s[i], s[j])
  }

  /** The paths below `t`, relative to `t`, in rendering order. */
  function Preorder(t: Tree): seq<Path>
    decreases t, 1
  {
    PreorderKids(t, SortedKeys(t.kids.Keys))
  }

  function PreorderKids(t: Tree, ks: seq<string>): seq<Path>
    requires forall k :: k in ks ==> k in t.kids
    decreases t, 0, |ks|
  {
    if ks == [] then []
    else
      var k := ks[|ks| - 1];
      PreorderKids(t, ks[..|ks| - 1]) + Block(k, Preorder(t.kids[k]))
  }

  /** Subfolder `k` followed by the paths below it. */
  function Block(k: string, qs: seq<Path>): (r: seq<Path>)
  {
    [[k]] + seq(|qs|, i requires 0 <= i < |qs| => [k] + qs[i])
  }

  /** The line of the folder at relative path `q` below a folder whose subfolders sit at `depth`. */
  function Line(depth: nat, q: Path): string
    requires |q| > 0
  {
    Indent(depth + |q| - 1) + q[|q| - 1]
  }

  /** `lines` renders `paths` one for one, at `depth`. */
  predicate Renders(lines: seq<string>, paths: seq<Path>, depth: nat)
  {
    && |lines| == |paths|
    && forall i :: 0 <= i < |paths| ==> paths[i] != [] && lines[i] == Line(depth, paths[i])
  }

  lemma RendersConcat(la: seq<string>, pa: seq<Path>, lb: seq<string>, pb: seq<Path>, depth: nat)
    requires Renders(la, pa, depth) && Renders(lb, pb, depth)
    ensures Renders(la + lb, pa + pb, depth)
  {
    var l, p := la + lb, pa + pb;
    forall i | 0 <= i < |p|
      ensures p[i] != [] && l[i] == Line(depth, p[i])
    {
      if i >= |pa| {
        assert p[i] == pb[i - |pa|] && l[i] == lb[i - |pa|];
      } else {
        assert p[i] == pa[i] && l[i] == la[i];
      }
    }
  }

  /** A subfolder's own line and the lines below it render its block. */
  lemma RendersBlock(k: string, rest: seq<string>, qs: seq<Path>, depth: nat)
    requires Renders(rest, qs, depth + 1)
    ensures Renders([Indent(depth) + k] + rest, Block(k, qs), depth)
  {
    var l, b := [Indent(depth) + k] + rest, Block(k, qs);
    forall i | 0 <= i < |b|
      ensures b[i] != [] && l[i] == Line(depth, b[i])
    {
      if i == 0 {
        assert b[0] == [k];
      } else {
        var q := qs[i - 1];
        assert b[i] == [k] + q && l[i] == rest[i - 1];
        assert Line(depth, [k] + q) == Line(depth + 1, q);
      }
    }
  }

  lemma {:induction false} PathLessIrreflexive(p: Path)
    ensures !PathLess(p, p)
  {
    if |p| > 0 { PathLessIrreflexive(p[1..]); }
  }

  lemma {:induction false} PathLessAsymmetric(p: Path, q: Path)
    ensures !(PathLess(p, q) && PathLess(q, p))
  {
    if |p| > 0 && |q| > 0 {
      if p[0] == q[0] {
        PathLessAsymmetric(p[1..], q[1..]);
      } else {
        LessAsymmetric(p[0], q[0]);
      }
    }
  }

  /** Paths with a common first segment compare as their remainders. */
  lemma PathLessCons(k: string, p: Path, q: Path)
    ensures PathLess([k] + p, [k] + q) == PathLess(p, q)
  {
    assert ([k] + p)[1..] == p && ([k] + q)[1..] == q;
  }

  /** A folder's path sorts before the paths below it. */
  lemma {:induction false} PathLessExtension(p: Path, q: Path)
    requires q != []
    ensures PathLess(p, p + q)
  {
    if p != [] {
      assert (p + q)[0] == p[0] && (p + q)[1..] == p[1..] + q;
      PathLessExtension(p[1..], q);
    }
  }

  /**
   * Siblings sort by name: two paths that agree up to one segment and differ
   * there are ordered by those two names, whatever follows.
   */
  lemma {:induction false} PathLessSiblings(r: Path, a: string, b: string, p: Path, q: Path)
    requires a != b
    ensures PathLess(r + [a] + p, r + [b] + q) <==> Less(a, b)
  {
    if r == [] {
      assert r + [a] + p == [a] + p && r + [b] + q == [b] + q;
    } else {
      assert (r + [a] + p)[0] == r[0] && (r + [a] + p)[1..] == r[1..] + [a] + p;
      assert (r + [b] + q)[0] == r[0] && (r + [b] + q)[1..] == r[1..] + [b] + q;
      PathLessSiblings(r[1..], a, b, p, q);
    }
  }

  /**
   * Path order keeps subtrees contiguous: whatever sorts between a path and
   * one of its extensions is itself an extension of it.
   */
  lemma {:induction false} PathLessBetween(p: Path, q: Path, x: Path)
    requires PathLess(p, x) && PathLess(x, p + q)
    ensures p <= x
  {
    if p != [] {
      assert x != [];
      assert (p + q)[0] == p[0] && (p + q)[1..] == p[1..] + q;
      if x[0] != p[0] {
        LessAsymmetric(p[0], x[0]);
      } else {
        PathLessBetween(p[1..], q, x[1..]);
        assert x == [x[0]] + x[1..];
      }
    }
  }

  /** A block is ascending, and its entries are `k` and `k` followed by a path of `qs`. */
  lemma BlockFacts(k: string, qs: seq<Path>)
    requires PathAscending(qs)
    requires forall i :: 0 <= i < |qs| ==> qs[i] != []
    ensures PathAscending(Block(k, qs))
    ensures forall x :: x in Block(k, qs) <==> x != [] && x[0] == k && (x[1..] == [] || x[1..] in qs)
  {
    var b := Block(k, qs);
    forall i, j | 0 <= i < j < |b|
      ensures PathLess(b[i], b[j])
    {
      if i == 0 {
        PathLessExtension([k], qs[j - 1]);
      } else {
        PathLessCons(k, qs[i - 1], qs[j - 1]);
      }
    }
    forall x
      ensures x in b <==> x != [] && x[0] == k && (x[1..] == [] || x[1..] in qs)
    {
      if x in b {
        var i :| 0 <= i < |b| && b[i] == x;
        if i > 0 { assert x[1..] == qs[i - 1]; }
      }
      if x != [] && x[0] == k {
        if x[1..] == [] {
          assert x == [k];
          assert b[0] == x;
        } else if x[1..] in qs {
          var i :| 0 <= i < |qs| && qs[i] == x[1..];
          assert x == [k] + qs[i];
          assert b[i + 1] == x;
        }
      }
    }
  }

  /** Concatenating ascending lists where all of the first sorts before all of the second. */
  lemma AscendingConcat(a: seq<Path>, b: seq<Path>)
    requires PathAscending(a) && PathAscending(b)
    requires forall x, y :: x in a && y in b ==> PathLess(x, y)
    ensures PathAscending(a + b)
  {
    var c := a + b;
    forall i, j | 0 <= i < j < |c|
      ensures PathLess(c[i], c[j])
    {
      if j < |a| {
        assert c[i] == a[i] && c[j] == a[j];
      } else if i >= |a| {
        assert c[i] == b[i - |a|] && c[j] == b[j - |a|];
      } else {
        assert c[i] in a && c[j] in b;
      }
    }
  }

  /** Every path headed by an earlier name sorts before every path headed by a later one. */
  lemma HeadsOrdered(a: seq<Path>, init: seq<string>, b: seq<Path>, k: string)
    requires forall x :: x in a ==> x != [] && x[0] in init
    requires forall y :: y in b ==> y != [] && y[0] == k
    requires forall n :: n in init ==> Less(n, k)
    ensures forall x, y :: x in a && y in b ==> PathLess(x, y)
  {
    forall x, y | x in a && y in b
      ensures PathLess(x, y)
    {
      LessIrreflexive(k);
    }
  }

  /**
   * The render order of the subfolders `ks` (strictly ascending names): ascending
   * in path order and holding exactly the non-root paths below those subfolders.
   */
  lemma {:induction false} PreorderKidsFacts(t: Tree, ks: seq<string>)
    requires forall k :: k in ks ==> k in t.kids
    requires StrictlyAscending(ks)
    ensures PathAscending(PreorderKids(t, ks))
    ensures forall x :: x in PreorderKids(t, ks) <==>
      x != [] && x[0] in ks && x[1..] in Paths(t.kids[x[0]])
    decreases t, 0, |ks|
  {
    if ks != [] {
      var init, k := ks[..|ks| - 1], ks[|ks| - 1];
      var c := t.kids[k];
      var a := PreorderKids(t, init);
      PreorderKidsFacts(t, init);
      PreorderFacts(c);
      var qs := Preorder(c);
      BlockFacts(k, qs);
      var b := Block(k, qs);
      assert forall n :: n in init ==> Less(n, k) by {
        forall n | n in init ensures Less(n, k) {
          var i :| 0 <= i < |init| && init[i] == n;
        }
      }
      HeadsOrdered(a, init, b, k);
      AscendingConcat(a, b);
      assert PreorderKids(t, ks) == a + b;
      forall x
        ensures x in a + b <==> x != [] && x[0] in ks && x[1..] in Paths(t.kids[x[0]])
      {
        if x != [] && x[0] in ks && x[0] != k {
          var i :| 0 <= i < |ks| && ks[i] == x[0];
          assert x[0] in init by { assert i < |ks| - 1; }
        }
        if x != [] && x[0] == k {
          InPaths(c, x[1..]);
        }
        assert k in ks;
      }
    }
  }

  /** `Preorder(t)` is ascending and holds exactly the non-empty paths of `t`. */
  lemma {:induction false} PreorderFacts(t: Tree)
    ensures PathAscending(Preorder(t))
    ensures forall x :: x in Preorder(t) <==> x in Paths(t) && x != []
    ensures forall i :: 0 <= i < |Preorder(t)| ==> Preorder(t)[i] != []
    decreases t, 1
  {
    var ks := SortedKeys(t.kids.Keys);
    PreorderKidsFacts(t, ks);
    forall x
      ensures x in Preorder(t) <==> x in Paths(t) && x != []
    {
      InPaths(t, x);
    }
    assert forall i :: 0 <= i < |Preorder(t)| ==> Preorder(t)[i] in Preorder(t);
  }

  /**
   * The lines of subfolders `ks` are, one for one, the entries of their render
   * order, each the last name of its path indented by the path's depth.
   */
  lemma {:induction false} FormatKidsLines(t: Tree, ks: seq<string>, depth: nat)
    requires WellKeyed(t)
    requires forall k :: k in ks ==> k in t.kids
    ensures Renders(FormatKids(t, ks, depth), PreorderKids(t, ks), depth)
    decreases t, |ks|
  {
    if ks != [] {
      var init, k := ks[..|ks| - 1], ks[|ks| - 1];
      var c := t.kids[k];
      var cks := SortedKeys(c.kids.Keys);
      FormatKidsLines(t, init, depth);
      FormatKidsLines(c, cks, depth + 1);
      assert c.name == k;
      RendersBlock(k, FormatKids(c, cks, depth + 1), Preorder(c), depth);
      RendersConcat(FormatKids(t, init, depth), PreorderKids(t, init),
                    Format(c, depth), Block(k, Preorder(c)), depth);
    }
  }

  /** The lines of `t` at `depth`: its own line (not for the root), then one per path below it. */
  lemma FormatLines(t: Tree, depth: int)
    requires WellKeyed(t)
    requires depth >= -1
    ensures depth == -1 ==> Renders(Format(t, depth), Preorder(t), 0)
    ensures depth >= 0 ==> Format(t, depth)[0] == Indent(depth) + t.name
    ensures depth >= 0 ==> Renders(Format(t, depth)[1..], Preorder(t), depth + 1)
  {
    FormatKidsLines(t, SortedKeys(t.kids.Keys), depth + 1);
    if depth >= 0 {
      assert Format(t, depth)[1..] == FormatKids(t, SortedKeys(t.kids.Keys), depth + 1);
    }
  }

  /** Distinct entries: an ascending list has as many elements as entries. */
  lemma {:induction false} AscendingCard(s: seq<Path>)
    requires PathAscending(s)
    ensures |set x | x in s| == |s|
  {
    if s != [] {
      var tail := s[1..];
      AscendingCard(tail);
      assert s[0] !in tail by {
        if s[0] in tail {
          var j :| 0 <= j < |tail| && tail[j] == s[0];
          assert PathLess(s[0], s[j + 1]);
          PathLessIrreflexive(s[0]);
        }
      }
      assert (set x | x in s) == {s[0]} + (set x | x in tail) by {
        assert s == [s[0]] + tail;
      }
    }
  }
}
