/**
 * Text operations the source takes from its languages' standard libraries:
 * substring search, `split`, `strip`, `startsWith`, JavaScript `parseInt(s, 10)`
 * and the decimal subset of Python `float(s)`. Strings are sequences of characters.
 */
module Text {
  import opened Wrappers

  /** `p` is a prefix of `s` (JavaScript `startsWith`, Python `startswith`). */
  predicate StartsWith(s: string, p: string) {
    |p| <= |s| && s[..|p|] == p
  }

  /** `pat` occurs in `s` starting at index `i`. */
  predicate OccursAt(s: string, pat: string, i: int) {
    0 <= i && i + |pat| <= |s| && s[i..i + |pat|] == pat
  }

  /** Index of the first occurrence of `pat` in `s` at or after `start`. */
  function FindFrom(s: string, pat: string, start: nat): (r: Option<nat>)
    requires |pat| > 0
    ensures r.Some? ==> start <= r.value && OccursAt(s, pat, r.value)
    ensures r.Some? ==> forall j :: start <= j < r.value ==> !OccursAt(s, pat, j)
    ensures r.None? ==> forall j :: start <= j ==> !OccursAt(s, pat, j)
    decreases |s| - start
  {
    if start + |pat| > |s| then None
    else if s[start..start + |pat|] == pat then Some(start)
    else FindFrom(s, pat, start + 1)
  }

  /** Index of the first occurrence of `pat` in `s` (Python `str.find`). */
  function Find(s: string, pat: string): (r: Option<nat>)
    requires |pat| > 0
    ensures r.Some? ==> OccursAt(s, pat, r.value) && forall j :: 0 <= j < r.value ==> !OccursAt(s, pat, j)
    ensures r.None? <==> forall j :: !OccursAt(s, pat, j)
  {
    FindFrom(s, pat, 0)
  }

  /** Python `pat in s`, JavaScript `s.includes(pat)`, for a non-empty pattern. */
  predicate Contains(s: string, pat: string)
    requires |pat| > 0
  {
    Find(s, pat).Some?
  }

  /** Python `s.split(sep)`: the pieces between the leftmost non-overlapping occurrences of `sep`. */
  function Split(s: string, sep: string): (parts: seq<string>)
    requires |sep| > 0
    ensures |parts| >= 1
    decreases |s|
  {
    match Find(s, sep)
    case None => [s]
    case Some(i) => [s[..i]] + Split(s[i + |sep|..], sep)
  }

  /** The inverse of `Split`: the pieces glued together with `sep` between them. */
  function Join(parts: seq<string>, sep: string): string
    decreases |parts|
  {
    if |parts| == 0 then ""
    else if |parts| == 1 then parts[0]
    else parts[0] + sep + Join(parts[1..], sep)
  }

  /** Splitting and re-joining gives back the original text. */
  lemma {:induction false} SplitJoin(s: string, sep: string)
    requires |sep| > 0
    ensures Join(Split(s, sep), sep) == s
    decreases |s|
  {
    var f := Find(s, sep);
    if f.Some? {
      var i := f.value;
      var rest := s[i + |sep|..];
      var tail := Split(rest, sep);
      SplitJoin(rest, sep);
      assert Join(Split(s, sep), sep) == s[..i] + sep + Join(tail, sep) by {
        assert Split(s, sep) == [s[..i]] + tail;
        assert ([s[..i]] + tail)[1..] == tail;
      }
      assert s == s[..i] + sep + rest by {
        assert s[i..i + |sep|] == sep;
        assert s == s[..i] + s[i..i + |sep|] + rest;
      }
    }
  }

  /** No piece produced by `Split` contains the separator. */
  lemma {:induction false} SplitPiecesFree(s: string, sep: string, k: nat)
    requires |sep| > 0 && k < |Split(s, sep)|
    ensures !Contains(Split(s, sep)[k], sep)
    decreases |s|
  {
    var f := Find(s, sep);
    if f.None? {
      assert Split(s, sep) == [s];
    } else {
      var i := f.value;
      var rest := s[i + |sep|..];
      assert Split(s, sep) == [s[..i]] + Split(rest, sep);
      if k == 0 {
        var head := s[..i];
        var g := Find(head, sep);
        if g.Some? {
          var j := g.value;
          assert head[j..j + |sep|] == s[j..j + |sep|];
          assert OccursAt(s, sep, j);
          assert false;
        }
      } else {
        SplitPiecesFree(rest, sep, k - 1);
      }
    }
  }

  /** `Split` yields a second piece exactly when the separator occurs. */
  lemma SplitHasSecond(s: string, sep: string)
    requires |sep| > 0
    ensures |Split(s, sep)| >= 2 <==> Contains(s, sep)
  {
    match Find(s, sep)
    case None =>
    case Some(i) =>
      assert |Split(s[i + |sep|..], sep)| >= 1;
  }

  /** A text free of the one-character separator `c` splits into itself alone. */
  lemma SplitFree(s: string, c: char)
    requires forall i :: 0 <= i < |s| ==> s[i] != c
    ensures Split(s, [c]) == [s]
  {
    forall j | 0 <= j < |s|
      ensures !OccursAt(s, [c], j)
    {
      assert s[j..j + 1] == [s[j]];
    }
    assert Find(s, [c]).None?;
  }

  /** Two separator-free texts joined by `c` split back into exactly those two. */
  lemma SplitTwo(x: string, y: string, c: char)
    requires forall i :: 0 <= i < |x| ==> x[i] != c
    requires forall i :: 0 <= i < |y| ==> y[i] != c
    ensures Split(x + [c] + y, [c]) == [x, y]
  {
    var s := x + [c] + y;
    assert s[|x|..|x| + 1] == [c];
    assert OccursAt(s, [c], |x|);
    forall j | 0 <= j < |x|
      ensures !OccursAt(s, [c], j)
    {
      assert s[j..j + 1][0] == s[j] == x[j];
    }
    assert Find(s, [c]) == Some(|x|);
    assert s[..|x|] == x;
    assert s[|x| + 1..] == y;
    SplitFree(y, c);
  }

  /** `c` does not occur in `s`. */
  predicate Free(s: string, c: char) {
    forall i :: 0 <= i < |s| ==> s[i] != c
  }

  /** The first separator of `x + [c] + rest` is the one after `x`, when `x` has none. */
  lemma SplitAtFirst(x: string, rest: string, c: char)
    requires Free(x, c)
    ensures Split(x + [c] + rest, [c]) == [x] + Split(rest, [c])
  {
    var s := x + [c] + rest;
    assert s[|x|..|x| + 1] == [c];
    assert OccursAt(s, [c], |x|);
    forall j | 0 <= j < |x|
      ensures !OccursAt(s, [c], j)
    {
      assert s[j..j + 1][0] == s[j] == x[j];
    }
    assert Find(s, [c]) == Some(|x|);
    assert s[..|x|] == x;
    assert s[|x| + 1..] == rest;
  }

  /** Each line followed by the terminator `c`, all concatenated. */
  function Terminated(lines: seq<string>, c: char): string
    decreases |lines|
  {
    if |lines| == 0 then "" else lines[0] + [c] + Terminated(lines[1..], c)
  }

  /** Splitting terminated lines on the terminator gives the lines back, then an empty tail. */
  lemma {:induction false} SplitTerminated(lines: seq<string>, c: char)
    requires forall i :: 0 <= i < |lines| ==> Free(lines[i], c)
    ensures Split(Terminated(lines, c), [c]) == lines + [""]
    decreases |lines|
  {
    if |lines| == 0 {
      SplitFree("", c);
    } else {
      SplitAtFirst(lines[0], Terminated(lines[1..], c), c);
      SplitTerminated(lines[1..], c);
      assert lines == [lines[0]] + lines[1..];
    }
  }

  lemma {:induction false} TerminatedAppend(lines: seq<string>, line: string, c: char)
    ensures Terminated(lines + [line], c) == Terminated(lines, c) + line + [c]
    decreases |lines|
  {
    if |lines| == 0 {
      assert lines + [line] == [line];
    } else {
      assert (lines + [line])[1..] == lines[1..] + [line];
      TerminatedAppend(lines[1..], line, c);
    }
  }

  /** Python `s.split(sep, 1)[1]`: the text after the first occurrence of `sep`. */
  function AfterFirst(s: string, sep: string): (r: string)
    requires |sep| > 0 && Contains(s, sep)
    ensures exists i :: OccursAt(s, sep, i) && r == s[i + |sep|..]
  {
    var i := Find(s, sep).value;
    s[i + |sep|..]
  }

  /** JavaScript `s.slice(0, -1)` and Python `s[:-1]`: all but the final character. */
  function DropLast(s: string): (r: string)
    ensures |s| > 0 ==> |r| == |s| - 1 && s == r + [s[|s| - 1]]
    ensures |s| == 0 ==> r == ""
  {
    if |s| == 0 then "" else s[..|s| - 1]
  }

  /** The ASCII whitespace characters that Python `strip` and JavaScript `parseInt` skip. */
  predicate IsSpace(c: char) {
    c == ' ' || c == '\t' || c == '\n' || c == '\r' || c as int == 11 || c as int == 12
  }

  /** `s` with its leading whitespace removed. */
  function StripLeft(s: string): (r: string)
    ensures |r| <= |s| && r == s[|s| - |r|..]
    ensures forall i :: 0 <= i < |s| - |r| ==> IsSpace(s[i])
    ensures |r| > 0 ==> !IsSpace(r[0])
    decreases |s|
  {
    if |s| > 0 && IsSpace(s[0]) then StripLeft(s[1..]) else s
  }

  /** `s` with its trailing whitespace removed. */
  function StripRight(s: string): (r: string)
    ensures |r| <= |s| && r == s[..|r|]
    ensures forall i :: |r| <= i < |s| ==> IsSpace(s[i])
    ensures |r| > 0 ==> !IsSpace(r[|r| - 1])
    decreases |s|
  {
    if |s| > 0 && IsSpace(s[|s| - 1]) then StripRight(s[..|s| - 1]) else s
  }

  /** Python `s.strip()` (ASCII whitespace). */
  function Strip(s: string): (r: string)
    ensures |r| > 0 ==> !IsSpace(r[0]) && !IsSpace(r[|r| - 1])
  {
    StripRight(StripLeft(s))
  }

  predicate IsDigit(c: char) {
    '0' <= c <= '9'
  }

  /** The number of decimal digits at the front of `s`. */
  function DigitRun(s: string): (n: nat)
    ensures n <= |s|
    ensures forall i :: 0 <= i < n ==> IsDigit(s[i])
    ensures n < |s| ==> !IsDigit(s[n])
    decreases |s|
  {
    if |s| > 0 && IsDigit(s[0]) then 1 + DigitRun(s[1..]) else 0
  }

  /** The longest prefix of `s` made of decimal digits. */
  function DigitPrefix(s: string): (r: string)
    ensures |r| <= |s| && r == s[..|r|]
    ensures forall i :: 0 <= i < |r| ==> IsDigit(r[i])
    ensures |r| < |s| ==> !IsDigit(s[|r|])
  {
    s[..DigitRun(s)]
  }

  /** The number a string of decimal digits denotes. */
  function DigitsValue(ds: string): int
    decreases |ds|
  {
    if |ds| == 0 then 0
    else DigitsValue(ds[..|ds| - 1]) * 10 + (ds[|ds| - 1] as int - '0' as int)
  }

  /** The decimal numeral of a natural number, without leading zeros ("0" for zero). */
  function ShowNat(n: nat): (r: string)
    ensures |r| > 0 && forall i :: 0 <= i < |r| ==> IsDigit(r[i])
    decreases n
  {
    if n < 10 then [('0' as int + n) as char] else ShowNat(n / 10) + [('0' as int + n % 10) as char]
  }

  /** The decimal numeral of an integer, with a leading '-' when negative. */
  function ShowInt(n: int): string {
    if n < 0 then "-" + ShowNat(-n) else ShowNat(n)
  }

  /** An integer's numeral holds only digits and '-'. */
  lemma ShowIntChars(n: int, c: char)
    requires c != '-' && !IsDigit(c)
    ensures forall i :: 0 <= i < |ShowInt(n)| ==> ShowInt(n)[i] != c
  {
    if n < 0 {
      var d := ShowNat(-n);
      assert forall i :: 1 <= i < |"-" + d| ==> ("-" + d)[i] == d[i - 1];
    }
  }

  lemma {:induction false} ShowNatValue(n: nat)
    ensures DigitsValue(ShowNat(n)) == n
    decreases n
  {
    if n >= 10 {
      ShowNatValue(n / 10);
      var r := ShowNat(n);
      assert r[..|r| - 1] == ShowNat(n / 10);
    }
  }

  lemma {:induction false} DigitPrefixOfDigits(s: string, rest: string)
    requires forall i :: 0 <= i < |s| ==> IsDigit(s[i])
    requires |rest| > 0 ==> !IsDigit(rest[0])
    ensures DigitRun(s + rest) == |s|
    ensures DigitPrefix(s + rest) == s
    decreases |s|
  {
    if |s| > 0 {
      assert (s + rest)[1..] == s[1..] + rest;
      DigitPrefixOfDigits(s[1..], rest);
    } else {
      assert s + rest == rest;
    }
    assert (s + rest)[..|s|] == s;
  }

  /** A JavaScript number produced by `parseInt`: an integer or `NaN`. */
  datatype ParsedInt = Num(value: int) | NaN

  /**
   * JavaScript `parseInt(s, 10)`: skip leading whitespace, read an optional sign and
   * the longest run of decimal digits after it; `NaN` when there are no digits.
   */
  function JsParseInt(s: string): ParsedInt {
    var t := StripLeft(s);
    var negative := |t| > 0 && t[0] == '-';
    var body := if |t| > 0 && (t[0] == '-' || t[0] == '+') then t[1..] else t;
    var ds := DigitPrefix(body);
    if |ds| == 0 then NaN
    else if negative then Num(-DigitsValue(ds))
    else Num(DigitsValue(ds))
  }

  /** A numeral starts and ends with a digit, so neither `strip` nor a sign test touches it. */
  lemma NumeralShape(m: nat)
    ensures StripLeft(ShowNat(m)) == ShowNat(m) && StripRight(ShowNat(m)) == ShowNat(m)
    ensures ShowNat(m)[0] != '-' && ShowNat(m)[0] != '+'
    ensures DigitPrefix(ShowNat(m)) == ShowNat(m) && DigitsValue(ShowNat(m)) == m
  {
    var s := ShowNat(m);
    var first := s[0];
    var last := s[|s| - 1];
    assert IsDigit(first);
    assert IsDigit(last);
    assert !IsSpace(first) && !IsSpace(last);
    ShowNatValue(m);
    DigitPrefixOfDigits(s, "");
    assert s + "" == s;
  }

  /** `parseInt` reads back every integer's decimal numeral. */
  lemma JsParseIntShow(n: int)
    ensures JsParseInt(ShowInt(n)) == Num(n)
  {
    var m: nat := if n < 0 then -n else n;
    NumeralShape(m);
    var digits := ShowNat(m);
    var s := ShowInt(n);
    if n < 0 {
      assert s == "-" + digits;
      assert s[1..] == digits;
      assert !IsSpace(s[0]);
      assert StripLeft(s) == s;
      assert DigitPrefix(s[1..]) == digits;
    } else {
      assert s == digits;
      assert DigitPrefix(s) == digits;
    }
  }

  /** A text that `parseInt` reads as `NaN`: it does not start (after blanks and a sign) with a digit. */
  lemma JsParseIntNaN(s: string)
    requires |s| > 0 && !IsSpace(s[0]) && !IsDigit(s[0]) && s[0] != '-' && s[0] != '+'
    ensures JsParseInt(s) == NaN
  {
    assert StripLeft(s) == s;
  }

  function Pow10(k: nat): (r: nat)
    ensures r >= 1
  {
    if k == 0 then 1 else 10 * Pow10(k - 1)
  }

  /** An unsigned decimal: digits with at most one '.', and at least one digit. */
  function UnsignedDecimal(body: string): Option<real> {
    var whole := DigitPrefix(body);
    var rest := body[|whole|..];
    if |rest| == 0 then
      if |whole| == 0 then None else Some(DigitsValue(whole) as real)
    else if rest[0] != '.' then None
    else
      var frac := DigitPrefix(rest[1..]);
      if |whole| + |frac| == 0 || 1 + |frac| != |rest| then None
      else Some(DigitsValue(whole) as real + DigitsValue(frac) as real / Pow10(|frac|) as real)
  }

  /**
   * The subset of Python `float(s)` for plain decimals: surrounding whitespace, an
   * optional sign, then an unsigned decimal. `None` where Python raises `ValueError`
   * (and also for the exponent, `inf`, `nan` and underscore forms, which the model
   * does not accept).
   */
  function PyFloat(s: string): Option<real> {
    var t := Strip(s);
    if |t| > 0 && (t[0] == '-' || t[0] == '+') then
      match UnsignedDecimal(t[1..])
      case None => None
      case Some(v) => Some(if t[0] == '-' then -v else v)
    else UnsignedDecimal(t)
  }

  lemma UnsignedNumeral(m: nat)
    ensures UnsignedDecimal(ShowNat(m)) == Some(m as real)
  {
    NumeralShape(m);
    var digits := ShowNat(m);
    assert digits[|digits|..] == "";
  }

  /** With a leading '-', a numeral strips to itself and reads back negated. */
  lemma NegativeNumeral(m: nat)
    ensures Strip("-" + ShowNat(m)) == "-" + ShowNat(m)
    ensures ("-" + ShowNat(m))[1..] == ShowNat(m)
  {
    NumeralShape(m);
    var digits := ShowNat(m);
    var s := "-" + digits;
    assert s[1..] == digits;
    assert !IsSpace(s[0]) && s[|s| - 1] == digits[|digits| - 1];
    assert StripLeft(s) == s;
  }

  /** `float` reads back every natural number's decimal numeral. */
  lemma PyFloatShowNat(m: nat)
    ensures PyFloat(ShowNat(m)) == Some(m as real)
  {
    NumeralShape(m);
    UnsignedNumeral(m);
  }

  /** `float` reads back a negative number's numeral: '-' and the digits of its magnitude. */
  lemma PyFloatShowNegative(m: nat)
    requires m > 0
    ensures PyFloat("-" + ShowNat(m)) == Some(-(m as real))
  {
    UnsignedNumeral(m);
    NegativeNumeral(m);
  }
}
