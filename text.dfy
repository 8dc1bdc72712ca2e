/** Character and string helpers standing in for the string library calls the
    sources make: lower/upper casing, whitespace stripping, prefix tests, decimal
    text for numbers, and the integer readers of JavaScript (`parseInt`) and
    Python (`int()`, a leading `\d+` match). */
module Text {
  import opened Common
  import opened Seqs

  // ---------------------------------------------------------------------------
  // Case mapping. Letters of ASCII and of the Latin-1 supplement (which holds
  // every accented letter French uses) are mapped; every other character is
  // left as it is.

  predicate IsUpperLetter(c: char) {
    ('A' <= c <= 'Z') || ('À' <= c <= 'Þ' && c != '×')
  }

  predicate IsLowerLetter(c: char) {
    ('a' <= c <= 'z') || ('à' <= c <= 'þ' && c != '÷')
  }

  function LowerChar(c: char): (r: char)
    ensures IsUpperLetter(c) ==> IsLowerLetter(r) && r as int == c as int + 32
    ensures !IsUpperLetter(c) ==> r == c
    ensures !IsUpperLetter(r)
  {
    if IsUpperLetter(c) then (c as int + 32) as char else c
  }

  function UpperChar(c: char): (r: char)
    ensures IsLowerLetter(c) ==> IsUpperLetter(r) && r as int == c as int - 32
    ensures !IsLowerLetter(c) ==> r == c
    ensures !IsLowerLetter(r)
  {
    if IsLowerLetter(c) then (c as int - 32) as char else c
  }

  /** `str.lower()` / `toLowerCase()` over the letters above. */
  function ToLower(s: string): (r: string)
    ensures |r| == |s|
    ensures forall i :: 0 <= i < |s| ==> r[i] == LowerChar(s[i])
  {
    seq(|s|, i requires 0 <= i < |s| => LowerChar(s[i]))
  }

  /** Texts without lower-case letters that lower-case alike are equal. */
  lemma ToLowerInjective(a: string, b: string)
    requires forall i :: 0 <= i < |a| ==> !IsLowerLetter(a[i])
    requires forall i :: 0 <= i < |b| ==> !IsLowerLetter(b[i])
    requires ToLower(a) == ToLower(b)
    ensures a == b
  {
    forall i | 0 <= i < |a| ensures a[i] == b[i] {
      assert ToLower(a)[i] == ToLower(b)[i];
      assert LowerChar(a[i]) == LowerChar(b[i]);
    }
  }

  /** `str.upper()` over the letters above. */
  function ToUpper(s: string): (r: string)
    ensures |r| == |s|
    ensures forall i :: 0 <= i < |s| ==> r[i] == UpperChar(s[i])
  {
    seq(|s|, i requires 0 <= i < |s| => UpperChar(s[i]))
  }

  lemma ToLowerIdempotent(s: string)
    ensures ToLower(ToLower(s)) == ToLower(s)
  {
  }

  // ---------------------------------------------------------------------------
  // Prefixes and suffixes.

  predicate StartsWith(s: string, prefix: string) {
    |prefix| <= |s| && s[..|prefix|] == prefix
  }

  predicate EndsWith(s: string, suffix: string) {
    |suffix| <= |s| && s[|s| - |suffix|..] == suffix
  }

  // ---------------------------------------------------------------------------
  // Whitespace.

  /** The characters for which Python's `str.isspace()` holds. */
  predicate IsPySpace(c: char) {
    var n := c as int;
    n == 0x20 || (0x09 <= n <= 0x0D) || (0x1C <= n <= 0x1F) || n == 0x85 || n == 0xA0 ||
    n == 0x1680 || (0x2000 <= n <= 0x200A) || n == 0x2028 || n == 0x2029 ||
    n == 0x202F || n == 0x205F || n == 0x3000
  }

  /** The white space and line terminators JavaScript's `parseInt` skips. */
  predicate IsJsSpace(c: char) {
    var n := c as int;
    n == 0x20 || (0x09 <= n <= 0x0D) || n == 0xA0 || n == 0x1680 ||
    (0x2000 <= n <= 0x200A) || n == 0x2028 || n == 0x2029 || n == 0x202F ||
    n == 0x205F || n == 0x3000 || n == 0xFEFF
  }

  /** Drops the leading characters that satisfy `space`. */
  function TrimStart(s: string, space: char -> bool): (r: string)
    ensures |r| <= |s| && r == s[|s| - |r|..]
    ensures forall i :: 0 <= i < |s| - |r| ==> space(s[i])
    ensures r != [] ==> !space(r[0])
  {
    s[LeadingCount(s, space)..]
  }

  /** The number of leading characters that satisfy `space`. */
  function LeadingCount(s: string, space: char -> bool): (k: nat)
    ensures k <= |s|
    ensures forall i :: 0 <= i < k ==> space(s[i])
    ensures k < |s| ==> !space(s[k])
  {
    if s != [] && space(s[0]) then 1 + LeadingCount(s[1..], space) else 0
  }

  /** The start of the run of characters that satisfy `space` and end at `hi`,
      not reaching below `lo`. */
  function TrailingStart(s: string, space: char -> bool, lo: nat, hi: nat): (e: nat)
    requires lo <= hi <= |s|
    ensures lo <= e <= hi
    ensures forall i :: e <= i < hi ==> space(s[i])
    ensures e > lo ==> !space(s[e - 1])
    decreases hi
  {
    if hi > lo && space(s[hi - 1]) then TrailingStart(s, space, lo, hi - 1) else hi
  }

  /** Python's `str.strip()`: the infix left once the white space at both ends is
      dropped; it starts and ends with a character that is not white space. */
  function Strip(s: string): (r: string)
    ensures var k := LeadingCount(s, IsPySpace);
      && k + |r| <= |s| && r == s[k..k + |r|]
      && (forall i :: k + |r| <= i < |s| ==> IsPySpace(s[i]))
    ensures r != [] ==> !IsPySpace(r[0]) && !IsPySpace(r[|r| - 1])
  {
    var k := LeadingCount(s, IsPySpace);
    s[k..TrailingStart(s, IsPySpace, k, |s|)]
  }

  /** Stripping leaves nothing exactly when the text is all white space. */
  lemma StripEmpty(s: string)
    ensures Strip(s) == [] <==> forall i :: 0 <= i < |s| ==> IsPySpace(s[i])
  {
    if Strip(s) != [] {
      assert Strip(s)[0] == s[LeadingCount(s, IsPySpace)];
    }
  }

  // ---------------------------------------------------------------------------
  // Decimal text of naturals (`str(n)`, `n.toString()`).

  predicate IsDigit(c: char) { '0' <= c <= '9' }

  function DigitChar(d: nat): (c: char)
    requires d < 10
    ensures IsDigit(c) && c as int - '0' as int == d
  {
    ('0' as int + d) as char
  }

  function DigitValue(c: char): (d: nat)
    requires IsDigit(c)
    ensures d < 10 && DigitChar(d) == c
  {
    c as int - '0' as int
  }

  /** The number a non-empty run of decimal digits denotes. */
  function DigitsValue(ds: string): (n: nat)
    requires forall i :: 0 <= i < |ds| ==> IsDigit(ds[i])
  {
    if ds == [] then 0 else DigitsValue(ds[..|ds| - 1]) * 10 + DigitValue(ds[|ds| - 1])
  }

  /** The shortest decimal text of `n`. */
  function NatToString(n: nat): (s: string)
    ensures |s| >= 1
    ensures forall i :: 0 <= i < |s| ==> IsDigit(s[i])
    ensures |s| > 1 ==> s[0] != '0'
    decreases n
  {
    if n < 10 then [DigitChar(n)] else NatToString(n / 10) + [DigitChar(n % 10)]
  }

  /** Reading back the decimal text of a number gives the number. */
  lemma {:induction false} NatToStringRoundTrip(n: nat)
    ensures DigitsValue(NatToString(n)) == n
    decreases n
  {
    var s := NatToString(n);
    if n >= 10 {
      NatToStringRoundTrip(n / 10);
      assert s[..|s| - 1] == NatToString(n / 10);
    }
  }

  /** `str(i)` for any integer: a minus sign in front of a negative number. */
  function IntToString(i: int): (s: string)
    ensures |s| >= 1
  {
    if i < 0 then "-" + NatToString(-i) else NatToString(i)
  }

  // ---------------------------------------------------------------------------
  // Integer readers.

  /** The longest prefix of `s` whose characters all satisfy `p`. */
  function LeadingRun(s: string, p: char -> bool): (r: string)
    ensures |r| <= |s| && r == s[..|r|]
    ensures forall i :: 0 <= i < |r| ==> p(r[i])
    ensures |r| < |s| ==> !p(s[|r|])
  {
    if s != [] && p(s[0]) then [s[0]] + LeadingRun(s[1..], p) else []
  }

  predicate IsHexDigit(c: char) {
    IsDigit(c) || ('a' <= c <= 'f') || ('A' <= c <= 'F')
  }

  function HexDigitValue(c: char): (d: nat)
    requires IsHexDigit(c)
    ensures d < 16
  {
    if IsDigit(c) then DigitValue(c)
    else if 'a' <= c <= 'f' then c as int - 'a' as int + 10
    else c as int - 'A' as int + 10
  }

  function HexValue(ds: string): nat
    requires forall i :: 0 <= i < |ds| ==> IsHexDigit(ds[i])
  {
    if ds == [] then 0 else HexValue(ds[..|ds| - 1]) * 16 + HexDigitValue(ds[|ds| - 1])
  }

  /** The radix argument of JavaScript's `parseInt`: `10`, or left out. */
  datatype Radix = Decimal | Unspecified

  /** JavaScript's `parseInt(s, radix)` for radix 10 or no radix, with `None` for NaN:
      leading white space is skipped, one sign is read, then the longest run of
      digits; with no radix a `0x`/`0X` prefix selects hexadecimal. */
  function ParseInt(s: string, radix: Radix): (r: Option<int>)
    ensures r.Some? && radix == Decimal ==>
      var t := TrimStart(s, IsJsSpace);
      var u := if t != [] && (t[0] == '+' || t[0] == '-') then t[1..] else t;
      u != [] && IsDigit(u[0])
  {
    var t := TrimStart(s, IsJsSpace);
    var negative := t != [] && t[0] == '-';
    var u := if t != [] && (t[0] == '+' || t[0] == '-') then t[1..] else t;
    if radix == Unspecified && |u| >= 2 && u[0] == '0' && (u[1] == 'x' || u[1] == 'X') then
      var hs := LeadingRun(u[2..], IsHexDigit);
      var v: int := HexValue(hs);
      if hs == [] then None else Some(if negative then -v else v)
    else
      var ds := LeadingRun(u, IsDigit);
      if ds == [] then None else
      var v: int := DigitsValue(ds);
      Some(if negative then -v else v)
  }

  /** Python's `int(s)` on ASCII text, with `None` for the `ValueError` it raises:
      surrounding white space, one optional sign, then digits and nothing else. */
  function PyInt(s: string): (r: Option<int>)
    ensures r.Some? ==> Strip(s) != []
  {
    var t := Strip(s);
    var negative := t != [] && t[0] == '-';
    var u := if t != [] && (t[0] == '+' || t[0] == '-') then t[1..] else t;
    if u != [] && forall i :: 0 <= i < |u| ==> IsDigit(u[i]) then
      var v: int := DigitsValue(u);
      Some(if negative then -v else v)
    else None
  }

  /** Python's `int(re.match('(\d+)', s).group(1))` over ASCII digits: the value of
      the digit run `s` starts with, or `None` when it does not start with a digit. */
  function LeadingNumber(s: string): (r: Option<nat>)
    ensures r.Some? <==> s != [] && IsDigit(s[0])
  {
    var ds := LeadingRun(s, IsDigit);
    if ds == [] then None else Some(DigitsValue(ds))
  }

  /** The decimal text of a number, followed by anything but a digit, reads back
      as the number. */
  lemma LeadingNumberOfText(n: nat, rest: string)
    requires rest == [] || !IsDigit(rest[0])
    ensures LeadingNumber(NatToString(n) + rest) == Some(n)
  {
    LeadingRunOfPrefix(NatToString(n), rest, IsDigit);
    NatToStringRoundTrip(n);
  }

  /** `parts.join(sep)`. */
  function Join(parts: seq<string>, sep: string): string {
    if parts == [] then ""
    else if |parts| == 1 then parts[0]
    else Join(parts[..|parts| - 1], sep) + sep + parts[|parts| - 1]
  }

  /** `s.split(sep)` for a one-character separator: the pieces between the
      separators, in order, with an empty piece where two separators meet or at an
      end that is a separator. */
  function Split(s: string, sep: char): (r: seq<string>)
    ensures |r| >= 1
  {
    if s == [] then [""]
    else
      var before := Split(s[..|s| - 1], sep);
      var c := s[|s| - 1];
      if c == sep then before + [""]
      else before[..|before| - 1] + [before[|before| - 1] + [c]]
  }

  /** No piece holds the separator. */
  lemma {:induction false} SplitPiecesLackSeparator(s: string, sep: char)
    ensures forall i, j :: 0 <= i < |Split(s, sep)| && 0 <= j < |Split(s, sep)[i]| ==> Split(s, sep)[i][j] != sep
  {
    if s != [] {
      var before := Split(s[..|s| - 1], sep);
      SplitPiecesLackSeparator(s[..|s| - 1], sep);
      var c := s[|s| - 1];
      var r := Split(s, sep);
      assert r == if c == sep then before + [""] else before[..|before| - 1] + [before[|before| - 1] + [c]];
      forall i, j | 0 <= i < |r| && 0 <= j < |r[i]| ensures r[i][j] != sep {
        if i < |before| - 1 || c == sep {
          assert r[i] == before[i];
          assert before[i][j] != sep;
        } else if j < |before[i]| {
          assert r[i] == before[i] + [c];
          assert before[i][j] != sep;
          assert r[i][j] == before[i][j];
        } else {
          assert r[i][j] == c;
        }
      }
    }
  }

  /** Joining the pieces with the separator gives the text back. */
  lemma {:induction false} JoinSplit(s: string, sep: char)
    ensures Join(Split(s, sep), [sep]) == s
  {
    if s != [] {
      JoinSplit(s[..|s| - 1], sep);
      JoinSplitSnoc(s[..|s| - 1], s[|s| - 1], sep);
      SnocSplit([], s);
    }
  }

  /** The round trip extends by one more character at the end of the text. */
  lemma JoinSplitSnoc(t: string, c: char, sep: char)
    requires Join(Split(t, sep), [sep]) == t
    ensures Join(Split(t + [c], sep), [sep]) == t + [c]
  {
    SplitSnoc(t, c, sep);
    if c == sep {
      JoinEmptyLast(Split(t, sep), [sep]);
    } else {
      JoinExtendLast(Split(t, sep), [sep], c, Split(t + [c], sep));
    }
  }

  /** One more character at the end of a text: a separator opens an empty piece,
      any other character extends the last piece. */
  lemma SplitSnoc(t: string, c: char, sep: char)
    ensures var before := Split(t, sep);
      Split(t + [c], sep) == if c == sep then before + [""] else before[..|before| - 1] + [before[|before| - 1] + [c]]
  {
    assert (t + [c])[..|t|] == t;
  }

  /** One more empty part adds one more separator. */
  lemma JoinEmptyLast(parts: seq<string>, sep: string)
    requires parts != []
    ensures Join(parts + [""], sep) == Join(parts, sep) + sep
  {
    assert (parts + [""])[..|parts|] == parts;
  }

  /** One more character on the last part is one more character at the end. */
  lemma JoinExtendLast(parts: seq<string>, sep: string, c: char, r: seq<string>)
    requires parts != [] && r == parts[..|parts| - 1] + [parts[|parts| - 1] + [c]]
    ensures Join(r, sep) == Join(parts, sep) + [c]
  {
    var k := |parts| - 1;
    assert r[..k] == parts[..k];
    if k > 0 {
      assert Join(parts, sep) == Join(parts[..k], sep) + sep + parts[k];
    }
  }

  /** `s.replace(c, '')` with a count of one, as JavaScript's `replace` with a
      string pattern does: the first occurrence of `c`, if any, is removed. */
  function ReplaceFirst(s: string, c: char): (r: string)
    ensures c !in s ==> r == s
    ensures c in s ==> |r| == |s| - 1
  {
    if s == [] then s
    else if s[0] == c then s[1..]
    else [s[0]] + ReplaceFirst(s[1..], c)
  }

  /** The position of the first occurrence of `c` in `s`. */
  function FirstIndex(s: string, c: char): (i: nat)
    requires c in s
    ensures i < |s| && s[i] == c && c !in s[..i]
  {
    if s[0] == c then 0
    else
      var j := FirstIndex(s[1..], c);
      assert s[..j + 1] == [s[0]] + s[1..][..j];
      j + 1
  }

  /** The text before the first occurrence is kept, the occurrence is dropped and
      the text after it is kept, later occurrences included. */
  lemma {:induction false} ReplaceFirstSpec(s: string, c: char)
    requires c in s
    ensures ReplaceFirst(s, c) == s[..FirstIndex(s, c)] + s[FirstIndex(s, c) + 1..]
  {
    if s[0] != c {
      assert s == [s[0]] + s[1..];
      ReplaceFirstSpec(s[1..], c);
      ReplaceFirstStep(s, c);
    }
  }

  /** The removal in the tail, behind a first character that is kept. */
  lemma ReplaceFirstStep(s: string, c: char)
    requires s != [] && s[0] != c && c in s[1..]
    requires ReplaceFirst(s[1..], c) == s[1..][..FirstIndex(s[1..], c)] + s[1..][FirstIndex(s[1..], c) + 1..]
    ensures ReplaceFirst(s, c) == s[..FirstIndex(s, c)] + s[FirstIndex(s, c) + 1..]
  {
    var j := FirstIndex(s[1..], c);
    assert FirstIndex(s, c) == j + 1;
    SliceOfTail(s, j);
    SliceOfTail(s, j + 1);
    ConcatAssociative([s[0]], s[1..][..j], s[1..][j + 1..]);
  }

  /** The leading run of a text that starts with a run and then stops is that run. */
  lemma {:induction false} LeadingRunOfPrefix(a: string, b: string, p: char -> bool)
    requires forall i :: 0 <= i < |a| ==> p(a[i])
    requires b == [] || !p(b[0])
    ensures LeadingRun(a + b, p) == a
  {
    if a != [] {
      assert (a + b)[1..] == a[1..] + b;
      LeadingRunOfPrefix(a[1..], b, p);
    } else {
      assert a + b == b;
    }
  }

  /** `parseInt` with no radix of digits followed by a character that is no digit
      and no `x` reads the digits. */
  lemma ParseIntOfDigits(ds: string, rest: string)
    requires ds != [] && forall i :: 0 <= i < |ds| ==> IsDigit(ds[i])
    requires rest == [] || (!IsDigit(rest[0]) && rest[0] != 'x' && rest[0] != 'X')
    ensures ParseInt(ds + rest, Unspecified) == Some(DigitsValue(ds))
  {
    var s := ds + rest;
    assert s[0] == ds[0];
    assert !(|s| >= 2 && s[0] == '0' && (s[1] == 'x' || s[1] == 'X')) by {
      if |s| >= 2 {
        if |ds| >= 2 {
          assert s[1] == ds[1];
        } else {
          assert s[1] == rest[0];
        }
      }
    }
    ParseIntOfPlain(s);
    LeadingRunOfPrefix(ds, rest, IsDigit);
  }

  /** `parseInt` with no radix of a text that starts with a digit and no `0x`
      reads its leading digits. */
  lemma ParseIntOfPlain(s: string)
    requires s != [] && IsDigit(s[0])
    requires !(|s| >= 2 && s[0] == '0' && (s[1] == 'x' || s[1] == 'X'))
    ensures ParseInt(s, Unspecified) == Some(DigitsValue(LeadingRun(s, IsDigit)))
  {
    NoDigitIsSpace(s[0]);
    assert TrimStart(s, IsJsSpace) == s;
  }

  /** No digit or letter is white space to `parseInt`. */
  lemma NoDigitIsSpace(c: char)
    requires IsDigit(c) || IsLowerLetter(c) || IsUpperLetter(c)
    ensures !IsJsSpace(c)
  {
  }

  /** `parseInt` of a text that starts with a letter is NaN. */
  lemma ParseIntOfLetter(s: string)
    requires s != [] && (IsLowerLetter(s[0]) || IsUpperLetter(s[0]))
    ensures ParseInt(s, Unspecified) == None
  {
    NoDigitIsSpace(s[0]);
    assert TrimStart(s, IsJsSpace) == s;
    assert LeadingRun(s, IsDigit) == [];
  }
}
