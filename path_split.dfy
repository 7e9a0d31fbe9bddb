/**
 * `String.Split(char)` as the path builder uses it: a string is cut at every
 * occurrence of the separator, and nothing is dropped, so consecutive, leading
 * or trailing separators give empty segments and the empty string gives one
 * empty segment.
 */
module PathSplit {

  /** The segments of `s` between occurrences of `d`, in order. */
  function Split(s: string, d: char): (r: seq<string>)
    ensures |r| >= 1
    ensures forall i :: 0 <= i < |r| ==> d !in r[i]
    decreases |s|
  {
    if |s| == 0 then [""]
    else
      var rest := Split(s[1..], d);
      if s[0] == d then [""] + rest
      else [[s[0]] + rest[0]] + rest[1..]
  }

  /** The segments glued back together with `d` between neighbours. */
  function Join(segs: seq<string>, d: char): string
  {
    if |segs| == 0 then ""
    else if |segs| == 1 then segs[0]
    else segs[0] + [d] + Join(segs[1..], d)
  }

  /** The number of occurrences of `d` in `s`. */
  function Count(s: string, d: char): nat
  {
    if |s| == 0 then 0
    else (if s[0] == d then 1 else 0) + Count(s[1..], d)
  }

  /** Splitting loses nothing: joining the segments gives the string back. */
  lemma {:induction false} JoinSplit(s: string, d: char)
    ensures Join(Split(s, d), d) == s
  {
    if |s| > 0 {
      var rest := Split(s[1..], d);
      JoinSplit(s[1..], d);
      if s[0] == d {
        assert ([""] + rest)[1..] == rest;
      } else {
        var r := [[s[0]] + rest[0]] + rest[1..];
        if |rest| > 1 {
          assert r[1..] == rest[1..];
        }
      }
    }
  }

  /** Splitting a string that starts with a separator-free part `x`. */
  lemma {:induction false} SplitFreePrefix(x: string, y: string, d: char)
    requires d !in x
    ensures Split(x + y, d) == [x + Split(y, d)[0]] + Split(y, d)[1..]
    decreases |x|
  {
    if |x| > 0 {
      assert (x + y)[0] == x[0];
      assert (x + y)[1..] == x[1..] + y;
      SplitFreePrefix(x[1..], y, d);
      assert [x[0]] + (x[1..] + Split(y, d)[0]) == x + Split(y, d)[0];
    } else {
      var r := Split(y, d);
      assert x + y == y && x + r[0] == r[0];
      assert r == [r[0]] + r[1..];
    }
  }

  /** Joining separator-free segments and splitting again gives the segments back. */
  lemma {:induction false} SplitJoin(segs: seq<string>, d: char)
    requires |segs| >= 1
    requires forall i :: 0 <= i < |segs| ==> d !in segs[i]
    ensures Split(Join(segs, d), d) == segs
  {
    if |segs| == 1 {
      SplitFreePrefix(segs[0], "", d);
      assert segs[0] + "" == segs[0];
    } else {
      var tail := Join(segs[1..], d);
      SplitJoin(segs[1..], d);
      assert segs[0] + [d] + tail == segs[0] + ([d] + tail);
      SplitFreePrefix(segs[0], [d] + tail, d);
      assert ([d] + tail)[1..] == tail;
      assert Split([d] + tail, d) == [""] + segs[1..];
      assert segs[0] + "" == segs[0];
      assert segs == [segs[0]] + segs[1..];
    }
  }

  /** One segment more than there are separators. */
  lemma {:induction false} SplitLength(s: string, d: char)
    ensures |Split(s, d)| == Count(s, d) + 1
  {
    if |s| > 0 {
      SplitLength(s[1..], d);
    }
  }
}
