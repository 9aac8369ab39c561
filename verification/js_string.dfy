/** The handful of JavaScript string primitives `strPad` is built from,
    written out with their ECMAScript index-normalisation rules, and the
    string `<` that orders file names. Strings are
    sequences of characters; JavaScript counts UTF-16 code units, which
    coincides for the ASCII text this model is applied to. */
module JsString {
  import opened Seqs

  /** `new Array(n + 1).join(s)`: n + 1 empty slots glued together with
      `s` between neighbours, i.e. `n` copies of `s`: it opens with `s`
      and repeats with period `|s|`. */
  function Repeat(s: string, n: nat): (r: string)
    ensures |r| == n * |s|
    ensures |s| > 0 ==> |r| >= n
    ensures n > 0 ==> r[..|s|] == s
    ensures forall i :: |s| <= i < |r| ==> r[i] == r[i - |s|]
    ensures |s| == 1 ==> r == Replicate(s[0], n)
  {
    if n == 0 then []
    else
      var rest := Repeat(s, n - 1);
      var r := s + rest;
      assert forall i :: |s| <= i < |r| ==> r[i] == rest[i - |s|];
      r
  }

  /** How `slice` turns a possibly negative argument into a position:
      negative values count back from the end, and the result is clamped
      into `[0, len]`. */
  function SlicePosition(len: nat, k: int): (r: nat)
    ensures r <= len
    ensures 0 <= k <= len ==> r == k
    ensures 0 - len <= k < 0 ==> r == len + k
  {
    if k < 0 then (if len + k < 0 then 0 else len + k)
    else if k > len then len
    else k
  }

  /** `s.slice(start, end)`. */
  function Slice(s: string, start: int, end: int): (r: string)
    ensures |r| <= |s|
    ensures 0 <= start <= end <= |s| ==> r == s[start..end]
    ensures 0 <= end <= start ==> r == []
    // an end past the length stops at the end of the string
    ensures 0 <= start <= |s| <= end ==> r == s[start..]
    // negative positions count back from the end
    ensures 0 - |s| <= start < 0 && |s| <= end ==> r == s[|s| + start..]
    ensures 0 <= start <= |s| + end && 0 - |s| <= end < 0 ==> r == s[start..|s| + end]
    // a start before the beginning counts as 0
    ensures start < 0 - |s| && 0 <= end <= |s| ==> r == s[..end]
  {
    var from := SlicePosition(|s|, start);
    var to := SlicePosition(|s|, end);
    if from < to then s[from..to] else []
  }

  /** `s.slice(start)`: the end defaults to the length. */
  function SliceFrom(s: string, start: int): (r: string)
    ensures 0 <= start <= |s| ==> r == s[start..]
    ensures 0 - |s| <= start < 0 ==> r == s[|s| + start..]
    ensures start < 0 - |s| ==> r == s
  {
    Slice(s, start, |s|)
  }

  /** How `substring` turns an argument into a position: negative values
      count as 0 and values past the end as the length. */
  function SubstringPosition(len: nat, k: int): (r: nat)
    ensures r <= len
  {
    if k < 0 then 0 else if k > len then len else k
  }

  /** `s.substring(start, end)`: unlike `slice`, swapped arguments are put
      back in order. */
  function Substring(s: string, start: int, end: int): (r: string)
    ensures |r| <= |s|
    ensures 0 <= start <= end <= |s| ==> r == s[start..end]
    ensures 0 <= end <= start <= |s| ==> r == s[end..start]
    ensures 0 <= start <= |s| <= end ==> r == s[start..]
  {
    var a := SubstringPosition(|s|, start);
    var b := SubstringPosition(|s|, end);
    if a <= b then s[a..b] else s[b..a]
  }

  /** `Math.ceil(x / 2)` on an integer `x`: the least integer whose double
      reaches `x`. */
  function CeilHalf(x: int): (r: int)
    ensures x <= 2 * r <= x + 1
  {
    (x + 1) / 2
  }

  /** `a < b` on two strings: character-by-character comparison, where a
      proper prefix orders first. */
  predicate LessThan(a: string, b: string)
    decreases |a|
  {
    if a == [] then b != []
    else b != [] && (a[0] < b[0] || (a[0] == b[0] && LessThan(a[1..], b[1..])))
  }
}
