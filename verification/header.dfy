/**
 The feature-name list and the header file: the synthetic names `ohe0`,
 `ohe1`, ... of the encoded columns, and the file that holds one name per
 line, written by a loop of `f.write(f'{col}\n')`.
 */
module Header {
  import opened Tables

  predicate IsDigit(c: char) {
    '0' <= c <= '9'
  }

  function Digit(d: nat): (c: char)
    requires d < 10
    ensures IsDigit(c) && c as int - '0' as int == d
  {
    "0123456789"[d]
  }

  /** Python's `str(n)` for a non-negative integer. */
  function Decimal(n: nat): (s: string)
    ensures |s| >= 1 && forall i :: 0 <= i < |s| ==> IsDigit(s[i])
    ensures |s| == 1 <==> n < 10
    ensures s[0] == '0' ==> n == 0
  {
    if n < 10 then [Digit(n)] else Decimal(n / 10) + [Digit(n % 10)]
  }

  /** The number a string of decimal digits denotes. */
  function DecimalValue(s: string): nat
    requires forall i :: 0 <= i < |s| ==> IsDigit(s[i])
  {
    if s == [] then 0
    else
      assert IsDigit(s[|s| - 1]);
      DecimalValue(s[..|s| - 1]) * 10 + (s[|s| - 1] as int - '0' as int)
  }

  lemma {:induction false} DecimalRoundTrip(n: nat)
    ensures DecimalValue(Decimal(n)) == n
  {
    if n >= 10 {
      DecimalRoundTrip(n / 10);
      var s := Decimal(n);
      assert s[..|s| - 1] == Decimal(n / 10);
    }
  }

  /** `f'ohe{i}'` */
  function OheName(i: nat): string {
    "ohe" + Decimal(i)
  }

  /** `[f'ohe{i}' for i in range(k)]` */
  function OheNames(k: nat): (ns: seq<string>)
    ensures |ns| == k
  {
    seq(k, i requires 0 <= i < k => OheName(i))
  }

  /** The encoded columns get pairwise different names, the i-th being `ohe`
      followed by the digits of i without leading zeros; no name breaks a line. */
  lemma OheNamesDistinct(k: nat)
    ensures Distinct(OheNames(k))
    ensures forall i :: 0 <= i < k ==>
              && OheNames(k)[i][..3] == "ohe" && |OheNames(k)[i]| > 3
              && DecimalValue(OheNames(k)[i][3..]) == i
              && (OheNames(k)[i][3] == '0' ==> OheNames(k)[i] == "ohe0")
    ensures forall i :: 0 <= i < k ==> NoLineBreak(OheNames(k)[i])
  {
    forall i | 0 <= i < k
      ensures OheNames(k)[i][..3] == "ohe" && |OheNames(k)[i]| > 3 && DecimalValue(OheNames(k)[i][3..]) == i
      ensures OheNames(k)[i][3] == '0' ==> OheNames(k)[i] == "ohe0"
    {
      assert OheNames(k)[i][3..] == Decimal(i);
      DecimalRoundTrip(i);
      if OheNames(k)[i][3] == '0' {
        assert i == 0;
        assert Decimal(0) == "0";
      }
    }
    forall i | 0 <= i < k ensures NoLineBreak(OheNames(k)[i]) {
      assert OheNames(k)[i] == "ohe" + Decimal(i);
      assert forall j :: 0 <= j < |Decimal(i)| ==> !IsLineBreak(Decimal(i)[j]);
    }
  }

  /** The header file's text: every name followed by a newline. */
  function HeaderText(names: seq<string>): string {
    if names == [] then "" else names[0] + "\n" + HeaderText(names[1..])
  }

  lemma {:induction false} HeaderTextSnoc(names: seq<string>, x: string)
    ensures HeaderText(names + [x]) == HeaderText(names) + x + "\n"
  {
    if names != [] {
      assert (names + [x])[1..] == names[1..] + [x];
      HeaderTextSnoc(names[1..], x);
    }
  }

  /** Characters that end a line when a file is read in text mode: `\n`, `\r`,
      and the pair `\r\n`, which ends one line. */
  predicate IsLineBreak(c: char) {
    c == '\n' || c == '\r'
  }

  predicate NoLineBreak(s: string) {
    forall i :: 0 <= i < |s| ==> !IsLineBreak(s[i])
  }

  /** Position of the first line break of `text`, or its length when there is none. */
  function LineEnd(text: string): (k: nat)
    ensures k <= |text|
    ensures forall i :: 0 <= i < k ==> !IsLineBreak(text[i])
    ensures k < |text| ==> IsLineBreak(text[k])
  {
    if text == [] || IsLineBreak(text[0]) then 0 else 1 + LineEnd(text[1..])
  }

  /** How long the line break at `k` is: two for `\r\n`, one otherwise. */
  function BreakLength(text: string, k: nat): (n: nat)
    requires k < |text| && IsLineBreak(text[k])
    ensures 1 <= n <= 2 && k + n <= |text|
    ensures n == 2 <==> text[k] == '\r' && k + 1 < |text| && text[k + 1] == '\n'
  {
    if text[k] == '\r' && k + 1 < |text| && text[k + 1] == '\n' then 2 else 1
  }

  /** Reading a text file back line by line with Python's universal newlines,
      each line without its line break; a last line without a break still counts. */
  function Lines(text: string): seq<string>
    decreases |text|
  {
    if text == [] then []
    else
      var k := LineEnd(text);
      [text[..k]] + (if k < |text| then Lines(text[k + BreakLength(text, k)..]) else [])
  }

  /** Reading the header file gives back the names written, provided no name
      holds a line break. */
  lemma {:induction false} HeaderRoundTrip(names: seq<string>)
    requires forall i :: 0 <= i < |names| ==> NoLineBreak(names[i])
    ensures Lines(HeaderText(names)) == names
  {
    if names != [] {
      var text := HeaderText(names);
      var a := names[0];
      assert text == a + "\n" + HeaderText(names[1..]);
      assert text[|a|] == '\n';
      var k := LineEnd(text);
      assert k == |a|;
      assert BreakLength(text, k) == 1;
      assert text[..k] == a;
      assert text[k + 1..] == HeaderText(names[1..]);
      HeaderRoundTrip(names[1..]);
    }
  }

  /** A text file opened for writing. */
  class TextFile {
    var text: string

    constructor ()
      ensures text == ""
    {
      text := "";
    }

    /** `open(path, 'w')` empties the file. */
    method Truncate()
      modifies this
      ensures text == ""
    {
      text := "";
    }

    /** `f.write(s)` */
    method Write(s: string)
      modifies this
      ensures text == old(text) + s
    {
      text := text + s;
    }
  }

  /** `with open(path, 'w') as f: for col in names: f.write(f'{col}\n')` */
  method WriteHeader(f: TextFile, names: seq<string>)
    modifies f
    ensures f.text == HeaderText(names)
  {
    f.Truncate();
    var i := 0;
    while i < |names|
      invariant 0 <= i <= |names|
      invariant f.text == HeaderText(names[..i])
    {
      f.Write(names[i] + "\n");
      HeaderTextSnoc(names[..i], names[i]);
      assert names[..i + 1] == names[..i] + [names[i]];
      i := i + 1;
    }
    assert names[..i] == names;
  }
}
