/** Where the downloaded picture is written: `dest_dir + sep + file_prefix +
    strPad(sequence, 3, "0", "left") + '.png'`, with the prefix and the
    destination directory defaulted from the command-line arguments. */
module OutputPath {
  import opened Wrappers
  import opened Decimal
  import opened Padding
  import opened JsString

  /** The folder used when no destination is given. */
  const DefaultDestDir: string := "pics"

  /** The width the sequence number is zero-padded to. */
  const SequenceWidth: nat := 3

  /** `(argv.prefix || "") ? `${argv.prefix}-` : ""`: a missing or empty
      prefix contributes nothing, any other prefix is followed by a dash. */
  function FilePrefix(prefix: Option<string>): (r: string)
    ensures r == [] <==> prefix.None? || prefix.value == []
    ensures r != [] ==> r[..|r| - 1] == prefix.value && r[|r| - 1] == '-'
  {
    match prefix
    case Some(p) => if p != [] then p + "-" else ""
    case None => ""
  }

  /** `argv.dest ? argv.dest : "pics"`: a missing or empty destination falls
      back to the default folder, so the directory is never empty. */
  function DestDir(dest: Option<string>): (r: string)
    ensures r != []
    ensures dest.Some? && dest.value != [] ==> r == dest.value
    ensures dest.None? || dest.value == [] ==> r == DefaultDestDir
  {
    match dest
    case Some(d) => if d != [] then d else DefaultDestDir
    case None => DefaultDestDir
  }

  /** `strPad(sequence, 3, "0", "left")`: below 1000 the sequence number is
      exactly three zero-padded digits; from 1000 on it is the plain decimal,
      neither padded nor truncated. Either way it reads back as `n`. */
  function SequenceLabel(n: nat): (r: string)
    ensures n < 1000 <==> |r| == SequenceWidth
    ensures n >= 1000 ==> r == DecimalString(n)
    ensures AllDigits(r)
    ensures ParseDecimal(r) == n
  {
    var s := DecimalString(n);
    var r := StrPad(s, SequenceWidth, "0", Left);
    DecimalLength(n, SequenceWidth);
    assert Pow10(3) == 1000;
    if |s| < SequenceWidth then
      SingleCharPadLayout(s, SequenceWidth, '0', Left);
      LeadingZerosIgnored(SequenceWidth - |s|, s);
      r
    else
      r
  }

  /** The full output path. */
  function BuildOutputPath(dest: Option<string>, sep: char, prefix: Option<string>, sequence: nat): (r: string)
    ensures |r| > |DestDir(dest)| + 4
    ensures r[..|DestDir(dest)| + 1] == DestDir(dest) + [sep]
    ensures r[|r| - 4..] == ".png"
    ensures r[|DestDir(dest)| + 1..] == FileName(prefix, sequence)
  {
    DestDir(dest) + [sep] + FileName(prefix, sequence)
  }

  /** The part of the path after the directory separator. */
  function FileName(prefix: Option<string>, sequence: nat): (name: string)
  {
    FilePrefix(prefix) + SequenceLabel(sequence) + ".png"
  }

  /** The file name contains a dash exactly when a non-empty prefix was
      given: with no prefix the name is only digits and `.png`. */
  lemma DashIffPrefix(prefix: Option<string>, sequence: nat)
    ensures '-' in FileName(prefix, sequence) <==> prefix.Some? && prefix.value != []
  {
    var f := FilePrefix(prefix);
    var digits := SequenceLabel(sequence);
    var name := FileName(prefix, sequence);
    assert name == f + digits + ".png";
    if f == [] {
      assert name == digits + ".png";
      forall i | 0 <= i < |name|
        ensures name[i] != '-'
      {
        if i < |digits| {
          assert IsDigit(digits[i]);
        }
      }
    } else {
      assert name[|f| - 1] == '-';
    }
  }

  /** Distinct sequence numbers never collide on one path. */
  lemma PathInjective(dest: Option<string>, sep: char, prefix: Option<string>, n: nat, m: nat)
    requires BuildOutputPath(dest, sep, prefix, n) == BuildOutputPath(dest, sep, prefix, m)
    ensures n == m
  {
    var k := |DestDir(dest)| + 1;
    var a := FileName(prefix, n);
    var b := FileName(prefix, m);
    assert a == BuildOutputPath(dest, sep, prefix, n)[k..];
    assert b == BuildOutputPath(dest, sep, prefix, m)[k..];
    var f := FilePrefix(prefix);
    assert SequenceLabel(n) == a[|f|..|a| - 4];
    assert SequenceLabel(m) == b[|f|..|b| - 4];
  }

  /** Sequence 7 renders as `007`. */
  lemma SevenIsZeroPadded()
    ensures SequenceLabel(7) == "007"
  {
    assert DecimalString(7) == "7";
    SingleCharPadLayout("7", 3, '0', Left);
  }

  /** Sequence 1000 is kept whole. */
  lemma ThousandIsKeptWhole()
    ensures SequenceLabel(1000) == "1000"
  {
    assert DecimalString(1) == "1";
    assert DecimalString(10) == "10";
    assert DecimalString(100) == "100";
    assert DecimalString(1000) == "1000";
  }

  /** End-to-end example: prefix "fox", sequence 7, destination "out". */
  lemma FoxExamplePath()
    ensures BuildOutputPath(Some("out"), '/', Some("fox"), 7) == "out/fox-007.png"
  {
    SevenIsZeroPadded();
    assert FilePrefix(Some("fox")) == "fox-";
    assert DestDir(Some("out")) == "out";
    assert FileName(Some("fox"), 7) == "fox-" + "007" + ".png";
  }

  /** With no destination and an empty prefix: the default folder and no dash. */
  lemma DefaultsExamplePath()
    ensures BuildOutputPath(None, '/', Some(""), 1000) == "pics/1000.png"
  {
    ThousandIsKeptWhole();
    assert FilePrefix(Some("")) == "";
    assert DestDir(None) == "pics";
    assert FileName(Some(""), 1000) == "" + "1000" + ".png";
  }

  /** A three-character digit string reads as hundreds, tens and units. */
  lemma ReadThreeDigits(r: string)
    requires |r| == 3 && AllDigits(r)
    ensures ParseDecimal(r) == 100 * DigitValue(r[0]) + 10 * DigitValue(r[1]) + DigitValue(r[2])
  {
    assert r[..2][..1] == r[..1] && r[..1][..0] == [];
    assert ParseDecimal(r[..1]) == DigitValue(r[0]);
    assert ParseDecimal(r[..2]) == 10 * DigitValue(r[0]) + DigitValue(r[1]);
  }

  /** The digits of a number below 1000 are unique. */
  lemma DigitsUnique(n: nat, a: nat, b: nat, c: nat)
    requires a < 10 && b < 10 && c < 10 && n == 100 * a + 10 * b + c
    ensures a == n / 100 && b == n / 10 % 10 && c == n % 10
  {
    assert n == 10 * (10 * a + b) + c;
    assert n / 10 == 10 * a + b && n % 10 == c;
    assert n / 10 % 10 == b && n / 10 / 10 == a;
    assert n / 100 == n / 10 / 10;
  }

  /** A label below 1000 is the three digits of `n`, hundreds first. */
  lemma ThreeDigitLabel(n: nat)
    requires n < 1000
    ensures SequenceLabel(n) == [DigitChar(n / 100), DigitChar(n / 10 % 10), DigitChar(n % 10)]
  {
    var r := SequenceLabel(n);
    ReadThreeDigits(r);
    DigitsUnique(n, DigitValue(r[0]), DigitValue(r[1]), DigitValue(r[2]));
    DigitCharOfValue(r[0]);
    DigitCharOfValue(r[1]);
    DigitCharOfValue(r[2]);
  }

  lemma DigitCharOfValue(c: char)
    requires IsDigit(c)
    ensures DigitChar(DigitValue(c)) == c
  {
  }

  lemma DigitCharOrder(a: nat, d: nat)
    requires a < 10 && d < 10
    ensures DigitChar(a) < DigitChar(d) <==> a < d
    ensures DigitChar(a) == DigitChar(d) <==> a == d
  {
  }

  /** Three-digit strings compare digit by digit, hundreds first. */
  lemma CompareThreeDigits(a: nat, b: nat, c: nat, d: nat, e: nat, f: nat)
    requires a < 10 && b < 10 && c < 10 && d < 10 && e < 10 && f < 10
    ensures LessThan([DigitChar(a), DigitChar(b), DigitChar(c)], [DigitChar(d), DigitChar(e), DigitChar(f)])
        <==> a < d || (a == d && (b < e || (b == e && c < f)))
  {
    DigitCharOrder(a, d);
    DigitCharOrder(b, e);
    DigitCharOrder(c, f);
    var x := [DigitChar(a), DigitChar(b), DigitChar(c)];
    var y := [DigitChar(d), DigitChar(e), DigitChar(f)];
    assert x[1..] == [DigitChar(b), DigitChar(c)] && y[1..] == [DigitChar(e), DigitChar(f)];
    assert x[1..][1..] == [DigitChar(c)] && y[1..][1..] == [DigitChar(f)];
    assert x[1..][1..][1..] == [] && y[1..][1..][1..] == [];
    assert LessThan(x[1..][1..], y[1..][1..]) <==> c < f;
    assert LessThan(x[1..], y[1..]) <==> b < e || (b == e && c < f);
  }

  /** `n` below 1000 is its hundreds, tens and units digits recombined. */
  lemma SplitDigits(n: nat)
    requires n < 1000
    ensures n / 100 < 10 && n / 10 % 10 < 10 && n % 10 < 10
    ensures n == 100 * (n / 100) + 10 * (n / 10 % 10) + n % 10
  {
    var t := n / 10;
    assert n == 10 * t + n % 10;
    assert t == 10 * (t / 10) + t % 10;
    assert t / 10 == n / 100;
  }

  /** Below 1000 the labels sort as strings the way the sequence numbers
      sort as numbers, so a directory listing shows the pictures in order. */
  lemma LabelsSortNumerically(n: nat, m: nat)
    requires n < 1000 && m < 1000
    ensures n < m <==> LessThan(SequenceLabel(n), SequenceLabel(m))
  {
    ThreeDigitLabel(n);
    ThreeDigitLabel(m);
    SplitDigits(n);
    SplitDigits(m);
    CompareThreeDigits(n / 100, n / 10 % 10, n % 10, m / 100, m / 10 % 10, m % 10);
  }
}
