/** `strPad(input, padLength, padString = ' ', padType = 'right')` from
    src/imagine.ts: pads the string form of `input` up to `padLength`
    characters on the left, on both sides, or on the right. */
module Padding {
  import opened Wrappers
  import opened Seqs
  import opened JsString

  /** The padding side. The `switch` only recognises `'left'` and `'both'`;
      `'right'` and every other value land on the right-padding default. */
  datatype PadType = Left | Both | Right

  /** Reads the `padType` argument; an omitted argument takes the default
      `'right'`. */
  function ParsePadType(name: Option<string>): (t: PadType)
    ensures t == Left <==> name == Some("left")
    ensures t == Both <==> name == Some("both")
  {
    match name
    case None => Right
    case Some(s) => if s == "left" then Left else if s == "both" then Both else Right
  }

  /** The padding call on the string form `str` of the input. */
  function StrPad(str: string, padLength: int, padString: string, padType: PadType): (r: string)
    // padding never truncates
    ensures padLength <= |str| ==> r == str
    // an empty pad string leaves the input alone whatever the mode
    ensures padString == [] ==> r == str
    // a non-empty pad string reaches the requested width exactly
    ensures padString != [] && |str| < padLength ==> |r| == padLength
    ensures padString != [] && |str| < padLength && padType == Left ==> r[padLength - |str|..] == str
    ensures padString != [] && |str| < padLength && padType == Right ==> r[..|str|] == str
    ensures padString != [] && |str| < padLength && padType == Both ==>
      r[(padLength - |str|) / 2..(padLength - |str|) / 2 + |str|] == str
    // the filler is taken from `padString` repeated `padLength` times
    ensures padString != [] && |str| < padLength ==>
      var pad := Repeat(padString, padLength);
      var gap := padLength - |str|;
      && (padType == Left ==> r == pad[|pad| - gap..] + str)
      && (padType == Both ==> r == pad[..gap / 2] + str + pad[..gap - gap / 2])
      && (padType == Right ==> r == str + pad[..gap])
  {
    if |str| >= padLength then str
    else
      var pad := Repeat(padString, padLength);
      match padType
      case Left => PadLeft(str, padLength, pad)
      case Both => PadBoth(str, padLength, pad)
      case Right => PadRight(str, padLength, pad)
  }

  /** `case 'left'`: the last `padLength` characters of `pad + str`. */
  function PadLeft(str: string, padLength: int, pad: string): (r: string)
    requires |str| < padLength
    requires pad == [] || |pad| >= padLength
    ensures pad == [] ==> r == str
    ensures pad != [] ==> |r| == padLength && r[padLength - |str|..] == str
    // the gap is filled with the last `gap` characters of `pad`
    ensures pad != [] ==> r == pad[|pad| - (padLength - |str|)..] + str
  {
    var whole := pad + str;
    var r := SliceFrom(whole, -padLength);
    if pad == [] then
      assert whole == str;
      r
    else
      assert r == whole[|whole| - padLength..];
      assert r[padLength - |str|..] == whole[|pad|..];
      r
  }

  /** `case 'both'`: `ceil(gap / 2)` pad characters on the right and the
      rest on the left, cut to `padLength`. */
  function PadBoth(str: string, padLength: int, pad: string): (r: string)
    requires |str| < padLength
    requires pad == [] || |pad| >= padLength
    ensures pad == [] ==> r == str
    ensures pad != [] ==> |r| == padLength
    ensures pad != [] ==> r[(padLength - |str|) / 2..(padLength - |str|) / 2 + |str|] == str
    // both sides are filled from the start of `pad`
    ensures pad != [] ==> var gap := padLength - |str|;
      r == pad[..gap / 2] + str + pad[..gap - gap / 2]
  {
    var gap := padLength - |str|;
    var right := CeilHalf(gap);
    var left := gap - right;
    assert 0 <= left <= right <= gap;
    var before := Slice(pad, 0, left);
    var after := Slice(pad, 0, right);
    var joined := before + str + after;
    if pad == [] then
      assert before == [] && after == [];
      assert joined == str;
      Slice(joined, 0, padLength)
    else
      assert SlicePosition(|pad|, left) == left && SlicePosition(|pad|, right) == right;
      assert before == pad[..left] && after == pad[..right];
      assert |joined| == padLength;
      assert Slice(joined, 0, padLength) == joined;
      assert joined[left..left + |str|] == str;
      Slice(joined, 0, padLength)
  }

  /** `case 'right'` and `default`: the first `padLength` characters of
      `str + pad`. */
  function PadRight(str: string, padLength: int, pad: string): (r: string)
    requires |str| < padLength
    requires pad == [] || |pad| >= padLength
    ensures pad == [] ==> r == str
    ensures pad != [] ==> |r| == padLength && r[..|str|] == str
    // the gap is filled with the first `gap` characters of `pad`
    ensures pad != [] ==> r == str + pad[..padLength - |str|]
  {
    var whole := str + pad;
    if pad == [] then
      assert whole == str;
      Substring(whole, 0, padLength)
    else
      assert Substring(whole, 0, padLength) == whole[..padLength];
      Substring(whole, 0, padLength)
  }

  /** `strPad(input, padLength)` with both optional arguments omitted. */
  function StrPadDefault(str: string, padLength: int): (r: string)
    ensures |r| == if |str| < padLength then padLength else |str|
    ensures r[..|str|] == str
    ensures forall i :: |str| <= i < |r| ==> r[i] == ' '
  {
    var r := StrPad(str, padLength, " ", ParsePadType(None));
    if |str| < padLength then
      SingleCharPadLayout(str, padLength, ' ', Right);
      r
    else
      r
  }

  /** With a one-character pad every mode is `gap` pad characters split
      around the input: all before it (left), all after it (right), or
      `floor(gap / 2)` before and `ceil(gap / 2)` after (both), so in both
      mode the right side is never shorter than the left and longer by at
      most one. */
  lemma SingleCharPadLayout(str: string, padLength: int, c: char, padType: PadType)
    requires |str| < padLength
    ensures padType == Left ==>
      StrPad(str, padLength, [c], padType) == Replicate(c, padLength - |str|) + str
    ensures padType == Right ==>
      StrPad(str, padLength, [c], padType) == str + Replicate(c, padLength - |str|)
    ensures padType == Both ==>
      StrPad(str, padLength, [c], padType)
        == Replicate(c, (padLength - |str|) / 2) + str + Replicate(c, padLength - |str| - (padLength - |str|) / 2)
    ensures (padLength - |str|) / 2 <= padLength - |str| - (padLength - |str|) / 2 <= (padLength - |str|) / 2 + 1
  {
    var pad := Repeat([c], padLength);
    assert pad == Replicate(c, padLength);
    match padType
    case Left => LeftLayout(str, padLength, c);
    case Both => BothLayout(str, padLength, c);
    case Right => RightLayout(str, padLength, c);
  }

  lemma LeftLayout(str: string, padLength: int, c: char)
    requires |str| < padLength
    ensures PadLeft(str, padLength, Replicate(c, padLength)) == Replicate(c, padLength - |str|) + str
  {
    var whole := Replicate(c, padLength) + str;
    assert SliceFrom(whole, -padLength) == whole[|whole| - padLength..];
    assert whole[|whole| - padLength..] == Replicate(c, padLength - |str|) + str;
  }

  lemma BothLayout(str: string, padLength: int, c: char)
    requires |str| < padLength
    ensures var gap := padLength - |str|;
      PadBoth(str, padLength, Replicate(c, padLength)) == Replicate(c, gap / 2) + str + Replicate(c, gap - gap / 2)
  {
    var pad := Replicate(c, padLength);
    var gap := padLength - |str|;
    var right := CeilHalf(gap);
    var left := gap - right;
    assert left == gap / 2;
    assert Slice(pad, 0, left) == Replicate(c, left);
    assert Slice(pad, 0, right) == Replicate(c, right);
  }

  lemma RightLayout(str: string, padLength: int, c: char)
    requires |str| < padLength
    ensures PadRight(str, padLength, Replicate(c, padLength)) == str + Replicate(c, padLength - |str|)
  {
    var whole := str + Replicate(c, padLength);
    assert whole[..padLength] == str + Replicate(c, padLength - |str|);
  }

  /** The first and third examples of the doc-comment above `strPad` hold. */
  lemma DocExamplesLeftAndRight()
    ensures StrPad("5", 4, "0", ParsePadType(Some("left"))) == "0005"
    ensures StrPad("world", 10, "*", ParsePadType(None)) == "world*****"
  {
    SingleCharPadLayout("5", 4, '0', Left);
    SingleCharPadLayout("world", 10, '*', Right);
  }

  /** The second doc-comment example does NOT hold: both mode hands the odd
      pad character to the right, giving `--hello---` rather than the
      documented `---hello--`. */
  lemma DocExampleBothDisagrees()
    ensures StrPad("hello", 10, "-", Both) == "--hello---"
    ensures StrPad("hello", 10, "-", Both) != "---hello--"
  {
    BothLayout("hello", 10, '-');
    assert Repeat("-", 10) == Replicate('-', 10);
    assert Replicate('-', 2) == "--" && Replicate('-', 3) == "---";
  }

  /** A longer pad string is cut, not rounded to whole copies: padding
      `x` to 4 with `ab` on the left takes the tail `bab` of the pad. */
  lemma MultiCharPadLeft()
    ensures StrPad("x", 4, "ab", Left) == "babx"
  {
    AbPad();
    var pad := Repeat("ab", 4);
    assert pad[5..] == "bab";
  }

  /** … on both sides it takes `a` before and `ab` after. */
  lemma MultiCharPadBoth()
    ensures StrPad("x", 4, "ab", Both) == "axab"
  {
    AbPad();
    var pad := Repeat("ab", 4);
    assert StrPad("x", 4, "ab", Both) == pad[..3 / 2] + "x" + pad[..3 - 3 / 2];
    assert pad[..1] == "a" && pad[..2] == "ab";
  }

  /** … on the right it takes the head `aba`. */
  lemma MultiCharPadRight()
    ensures StrPad("x", 4, "ab", Right) == "xaba"
  {
    AbPad();
    var pad := Repeat("ab", 4);
    assert pad[..3] == "aba";
  }

  /** The pad `strPad("x", 4, "ab", …)` builds. */
  lemma AbPad()
    ensures Repeat("ab", 4) == "abababab"
  {
    assert Repeat("ab", 0) == [];
    assert Repeat("ab", 1) == "ab";
    assert Repeat("ab", 2) == "abab";
    assert Repeat("ab", 3) == "ababab";
  }

  /** An unrecognised mode behaves exactly like `'right'`. */
  lemma UnknownModeIsRight(str: string, padLength: int, padString: string, name: string)
    requires name != "left" && name != "both"
    ensures StrPad(str, padLength, padString, ParsePadType(Some(name)))
         == StrPad(str, padLength, padString, ParsePadType(Some("right")))
  {
  }
}
