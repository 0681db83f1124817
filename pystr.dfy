/** Python string semantics the bot relies on: whitespace, strip(), ASCII case
    mapping, prefix tests, substring search, split and int() parsing, and the
    decimal rendering of counters inside button labels. Strings are sequences
    of Unicode code points, as Python's str is. */
module PyStr {

  datatype Option<T> = None | Some(value: T)

  /** str.isspace() for one code point. */
  predicate IsSpace(c: char) {
    || c == ' '
    || ('\t' <= c <= '\r')
    || ('\U{1C}' <= c <= '\U{1F}')
    || c == '\U{85}' || c == '\U{A0}' || c == '\U{1680}'
    || ('\U{2000}' <= c <= '\U{200A}')
    || c == '\U{2028}' || c == '\U{2029}' || c == '\U{202F}' || c == '\U{205F}' || c == '\U{3000}'
  }

  predicate IsDigit(c: char) {
    '0' <= c <= '9'
  }

  /** str.lstrip() with no argument. */
  function LStrip(s: string): (r: string)
    ensures |r| <= |s|
  {
    if s == [] || !IsSpace(s[0]) then s else LStrip(s[1..])
  }

  /** lstrip() removes a run of leading whitespace and stops at the first
      non-space character. */
  lemma {:induction false} LStripSpec(s: string)
    ensures LStrip(s) == s[|s| - |LStrip(s)|..]
    ensures LStrip(s) == [] || !IsSpace(LStrip(s)[0])
    ensures forall i :: 0 <= i < |s| - |LStrip(s)| ==> IsSpace(s[i])
  {
    if s != [] && IsSpace(s[0]) {
      LStripSpec(s[1..]);
      forall i | 0 <= i < |s| - |LStrip(s)| ensures IsSpace(s[i]) {
        if i > 0 {
          assert s[i] == s[1..][i - 1];
        }
      }
    }
  }

  /** str.rstrip() with no argument. */
  function RStrip(s: string): (r: string)
    ensures |r| <= |s|
  {
    if s == [] || !IsSpace(s[|s| - 1]) then s else RStrip(s[..|s| - 1])
  }

  /** rstrip() removes a run of trailing whitespace and stops at the last
      non-space character. */
  lemma {:induction false} RStripSpec(s: string)
    ensures RStrip(s) == s[..|RStrip(s)|]
    ensures RStrip(s) == [] || !IsSpace(RStrip(s)[|RStrip(s)| - 1])
    ensures forall i :: |RStrip(s)| <= i < |s| ==> IsSpace(s[i])
  {
    if s != [] && IsSpace(s[|s| - 1]) {
      RStripSpec(s[..|s| - 1]);
      assert s[..|s| - 1][..|RStrip(s)|] == s[..|RStrip(s)|];
    }
  }

  /** str.strip() with no argument. */
  function Strip(s: string): (r: string)
    ensures |r| <= |s|
    ensures r == [] || (!IsSpace(r[0]) && !IsSpace(r[|r| - 1]))
  {
    LStripSpec(s);
    RStripSpec(LStrip(s));
    RStrip(LStrip(s))
  }

  /** A string that starts and ends with a non-space character is its own strip(). */
  lemma StripKeeps(s: string)
    requires s != [] && !IsSpace(s[0]) && !IsSpace(s[|s| - 1])
    ensures Strip(s) == s
  {
    assert LStrip(s) == s;
  }

  /** A string of spaces strips to the empty string, and only such a string does. */
  lemma StripEmptyIff(s: string)
    ensures Strip(s) == [] <==> forall i :: 0 <= i < |s| ==> IsSpace(s[i])
  {
    LStripSpec(s);
    var t := LStrip(s);
    RStripSpec(t);
    if t != [] {
      assert s[|s| - |t|] == t[0];
    }
  }

  function LowerChar(c: char): char {
    if 'A' <= c <= 'Z' then (c as int + 32) as char else c
  }

  function UpperChar(c: char): char {
    if 'a' <= c <= 'z' then (c as int - 32) as char else c
  }

  /** str.lower(), restricted to the ASCII letters. */
  function Lower(s: string): (r: string)
    ensures |r| == |s| && forall i :: 0 <= i < |s| ==> r[i] == LowerChar(s[i])
  {
    seq(|s|, i requires 0 <= i < |s| => LowerChar(s[i]))
  }

  /** str.upper(), restricted to the ASCII letters. */
  function Upper(s: string): (r: string)
    ensures |r| == |s| && forall i :: 0 <= i < |s| ==> r[i] == UpperChar(s[i])
  {
    seq(|s|, i requires 0 <= i < |s| => UpperChar(s[i]))
  }

  /** s[:n] in Python: the first n code points, or all of s when it is shorter. */
  function Take(s: string, n: nat): (r: string)
    ensures |r| == if |s| < n then |s| else n
    ensures r == s[..|r|]
  {
    if |s| <= n then s else s[..n]
  }

  /** s[n:] in Python. */
  function Drop(s: string, n: nat): (r: string)
    ensures |r| == if |s| < n then 0 else |s| - n
    ensures r == s[|s| - |r|..]
  {
    if |s| <= n then [] else s[n..]
  }

  /** str.startswith(p). */
  predicate StartsWith(s: string, p: string) {
    |p| <= |s| && s[..|p|] == p
  }

  /** str.endswith(p). */
  predicate EndsWith(s: string, p: string) {
    |p| <= |s| && s[|s| - |p|..] == p
  }

  predicate OccursAt(s: string, p: string, i: nat) {
    i + |p| <= |s| && s[i..i + |p|] == p
  }

  /** Dropping the first character shifts every occurrence one to the left. */
  lemma OccursShift(s: string, p: string)
    requires s != []
    ensures forall j :: 1 <= j <= |s| ==> OccursAt(s, p, j) == OccursAt(s[1..], p, j - 1)
  {
    forall j | 1 <= j <= |s| ensures OccursAt(s, p, j) == OccursAt(s[1..], p, j - 1) {
      if j + |p| <= |s| {
        var a, b := s[j..j + |p|], s[1..][j - 1..j - 1 + |p|];
        assert |a| == |b|;
        forall k | 0 <= k < |a| ensures a[k] == b[k] {
          assert a[k] == s[j + k] && b[k] == s[1..][j - 1 + k];
        }
        assert a == b;
      }
    }
  }

  /** The index of the first occurrence of p in s (str.find without the -1). */
  function IndexOf(s: string, p: string): (r: Option<nat>)
    ensures r.Some? ==> OccursAt(s, p, r.value)
    ensures r.Some? ==> forall j :: 0 <= j < r.value ==> !OccursAt(s, p, j)
    ensures r.None? ==> forall j :: 0 <= j <= |s| ==> !OccursAt(s, p, j)
    decreases |s|
  {
    if |s| < |p| then None
    else if s[..|p|] == p then Some(0)
    else
      OccursShift(s, p);
      match IndexOf(s[1..], p)
      case None => None
      case Some(k) => Some(k + 1)
  }

  /** `p in s` for strings. */
  predicate Contains(s: string, p: string) {
    IndexOf(s, p).Some?
  }

  /** s.split(p)[0] for a non-empty separator p: the text before its first occurrence. */
  function FirstField(s: string, p: string): (r: string)
    ensures StartsWith(s, r)
    ensures Contains(s, p) ==> OccursAt(s, p, |r|)
    ensures p != [] ==> !Contains(r, p)
  {
    match IndexOf(s, p)
    case None => s
    case Some(i) =>
      NoneBeforeFirst(s, p, i);
      s[..i]
  }

  /** The text before the first occurrence of p holds no occurrence of it. */
  lemma NoneBeforeFirst(s: string, p: string, i: nat)
    requires IndexOf(s, p) == Some(i)
    ensures p != [] ==> !Contains(s[..i], p)
  {
    var r := s[..i];
    if p != [] && IndexOf(r, p).Some? {
      var j := IndexOf(r, p).value;
      assert r[j..j + |p|] == s[j..j + |p|];
      assert OccursAt(s, p, j);
    }
  }

  /** s.split("_")[1]: the text between the first and second underscores;
      None where Python raises IndexError (no underscore at all). */
  function SecondField(s: string, sep: char): (r: Option<string>)
  {
    match IndexOf(s, [sep])
    case None => None
    case Some(i) => Some(FirstField(s[i + 1..], [sep]))
  }

  /** The decimal value of a run of ASCII digits. */
  function DigitsValue(s: string): (n: nat)
    requires forall i :: 0 <= i < |s| ==> IsDigit(s[i])
  {
    if s == [] then 0
    else
      assert IsDigit(s[|s| - 1]);
      DigitsValue(s[..|s| - 1]) * 10 + (s[|s| - 1] as int - '0' as int)
  }

  predicate AllDigits(s: string) {
    forall i :: 0 <= i < |s| ==> IsDigit(s[i])
  }

  /** int(s) for a decimal string: surrounding whitespace, an optional sign,
      then one or more ASCII digits; None where Python raises ValueError. */
  function ParseInt(s: string): (r: Option<int>)
  {
    var t := Strip(s);
    if t == [] then None
    else
      var neg := t[0] == '-';
      var body := if t[0] == '-' || t[0] == '+' then t[1..] else t;
      if body == [] || !AllDigits(body) then None
      else
        var v: int := DigitsValue(body);
        Some(if neg then -v else v)
  }

  function DigitChar(d: nat): (c: char)
    requires d < 10
    ensures IsDigit(c)
  {
    ('0' as int + d) as char
  }

  /** str(n) for a natural number. */
  function NatToDecimal(n: nat): (r: string)
    ensures r != [] && AllDigits(r)
  {
    if n < 10 then [DigitChar(n)] else NatToDecimal(n / 10) + [DigitChar(n % 10)]
  }

  /** str(i) for any integer. */
  function IntToDecimal(i: int): (r: string)
    ensures r != [] && !IsSpace(r[0]) && !IsSpace(r[|r| - 1])
    ensures forall k :: 0 <= k < |r| ==> IsDigit(r[k]) || r[k] == '-'
  {
    if i < 0 then "-" + NatToDecimal(-i) else NatToDecimal(i)
  }

  /** Reading back the decimal rendering of n gives n. */
  lemma {:induction false} DigitsRoundTrip(n: nat)
    ensures DigitsValue(NatToDecimal(n)) == n
  {
    if n >= 10 {
      var s := NatToDecimal(n);
      DigitsRoundTrip(n / 10);
      assert s[..|s| - 1] == NatToDecimal(n / 10);
    }
  }

  /** int(str(n)) == n. */
  lemma ParseIntRoundTrip(n: nat)
    ensures ParseInt(NatToDecimal(n)) == Some(n)
  {
    var s := NatToDecimal(n);
    StripKeeps(s);
    assert Strip(s) == s && IsDigit(s[0]);
    DigitsRoundTrip(n);
  }

  /** No digit string contains a given string whose first character is not a digit. */
  lemma NoNonDigitInDigits(s: string, p: string)
    requires AllDigits(s) && p != [] && !IsDigit(p[0])
    ensures forall j :: 0 <= j <= |s| ==> !OccursAt(s, p, j)
  {
  }

  /** int(str(i)) == i, negative numbers included. */
  lemma IntRoundTrip(i: int)
    ensures ParseInt(IntToDecimal(i)) == Some(i)
  {
    var s := IntToDecimal(i);
    StripKeeps(s);
    assert Strip(s) == s;
    if i < 0 {
      var d := NatToDecimal(-i);
      assert s == ['-'] + d;
      assert s[0] == '-' && s[1..] == d;
      DigitsRoundTrip(-i);
      assert DigitsValue(s[1..]) == -i;
    } else {
      var d := NatToDecimal(i);
      assert s == d;
      assert IsDigit(d[0]);
      DigitsRoundTrip(i);
    }
  }
}
