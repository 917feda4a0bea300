/** The JavaScript string operations the bridge relies on, over UTF-16 code
    units, each taken as one `char`: `lastIndexOf`, `substring` and `Array.join`,
    plus a `split` that serves as `join`'s inverse. */
module Text {

  /** `p` occurs in `s` starting at index `i`. */
  predicate Occurs(s: string, p: string, i: int) {
    0 <= i && i + |p| <= |s| && s[i..i + |p|] == p
  }

  /** The largest index `i <= k` at which `p` occurs, or -1. */
  function LastOccurrenceAtOrBefore(s: string, p: string, k: int): (r: int)
    requires -1 <= k && k + |p| <= |s|
    ensures -1 <= r <= k
    ensures r >= 0 ==> Occurs(s, p, r)
    ensures forall i :: r < i <= k ==> !Occurs(s, p, i)
    decreases k + 1
  {
    if k < 0 then -1
    else if s[k..k + |p|] == p then k
    else LastOccurrenceAtOrBefore(s, p, k - 1)
  }

  /** JavaScript `s.lastIndexOf(p, from)`: `from` is clamped into
      `[0, |s|]`, so a negative `from` still inspects index 0. */
  function LastIndexOfFrom(s: string, p: string, from: int): (r: int)
    ensures -1 <= r
    ensures r >= 0 ==> r <= if from < 0 then 0 else from
    ensures r >= 0 ==> Occurs(s, p, r)
    ensures forall i :: r < i <= (if from < 0 then 0 else from) ==> !Occurs(s, p, i)
  {
    var start := if from < 0 then 0 else if from > |s| then |s| else from;
    var k := if start + |p| <= |s| then start else |s| - |p|;
    if k < 0 then -1 else LastOccurrenceAtOrBefore(s, p, k)
  }

  /** JavaScript `s.lastIndexOf(p)`: the last occurrence anywhere. */
  function LastIndexOf(s: string, p: string): (r: int)
    ensures -1 <= r
    ensures r == -1 <==> forall i :: !Occurs(s, p, i)
    ensures r >= 0 ==> Occurs(s, p, r) && forall i :: Occurs(s, p, i) ==> i <= r
  {
    LastIndexOfFrom(s, p, |s|)
  }

  /** JavaScript `s.substring(a, b)`: both ends are clamped into `[0, |s|]`
      and swapped when out of order. */
  function Substring(s: string, a: int, b: int): (r: string)
    ensures 0 <= a <= b <= |s| ==> r == s[a..b]
    ensures 0 <= b <= a <= |s| ==> r == s[b..a]
    ensures |r| <= |s|
  {
    var x := if a < 0 then 0 else if a > |s| then |s| else a;
    var y := if b < 0 then 0 else if b > |s| then |s| else b;
    if x <= y then s[x..y] else s[y..x]
  }

  /** JavaScript `xs.join(sep)`. */
  function Join(xs: seq<string>, sep: string): (r: string)
    ensures xs == [] ==> r == ""
    ensures |xs| == 1 ==> r == xs[0]
  {
    if xs == [] then ""
    else if |xs| == 1 then xs[0]
    else xs[0] + sep + Join(xs[1..], sep)
  }

  /** JavaScript `s.split(c)` for a one-character separator. */
  function Split(s: string, c: char): (r: seq<string>)
    ensures |r| >= 1
    decreases |s|
  {
    if |s| == 0 then [""]
    else
      var rest := Split(s[1..], c);
      if s[0] == c then [""] + rest else [[s[0]] + rest[0]] + rest[1..]
  }

  lemma {:induction false} SplitAfterPiece(x: string, c: char, y: string)
    requires c !in x
    ensures Split(x + [c] + y, c) == [x] + Split(y, c)
    decreases |x|
  {
    if x == [] {
      assert (x + [c] + y)[1..] == y;
    } else {
      assert (x + [c] + y)[1..] == x[1..] + [c] + y;
      SplitAfterPiece(x[1..], c, y);
      assert [x[0]] + x[1..] == x;
    }
  }

  lemma {:induction false} SplitNoSeparator(x: string, c: char)
    requires c !in x
    ensures Split(x, c) == [x]
    decreases |x|
  {
    if x != [] {
      SplitNoSeparator(x[1..], c);
      assert [x[0]] + x[1..] == x;
    }
  }

  /** Splitting a join on its separator gives the pieces back, provided
      no piece contains the separator and there is at least one piece. */
  lemma {:induction false} SplitJoin(xs: seq<string>, c: char)
    requires |xs| >= 1
    requires forall k :: 0 <= k < |xs| ==> c !in xs[k]
    ensures Split(Join(xs, [c]), c) == xs
    decreases |xs|
  {
    if |xs| == 1 {
      SplitNoSeparator(xs[0], c);
    } else {
      SplitJoin(xs[1..], c);
      SplitAfterPiece(xs[0], c, Join(xs[1..], [c]));
      assert [xs[0]] + xs[1..] == xs;
    }
  }
}
