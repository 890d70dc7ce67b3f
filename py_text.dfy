/**
 * The Python string built-ins the two scripts rely on: `str.isspace`,
 * `str.strip()`, `str.strip('\n')`, `str.startswith`, the `in` substring test,
 * `str.join`, `str.split()`, `str.splitlines()` and `int(str)`.
 * Strings are sequences of Unicode code points, as in Python 3.
 */
module PyText {
  import opened Wrappers

  /** `c.isspace()`: the code points Python classes as whitespace. */
  predicate IsSpace(c: char) {
    var n := c as int;
    n == 0x20 || (0x09 <= n <= 0x0D) || (0x1C <= n <= 0x1F) || n == 0x85 || n == 0xA0
    || n == 0x1680 || (0x2000 <= n <= 0x200A) || n == 0x2028 || n == 0x2029
    || n == 0x202F || n == 0x205F || n == 0x3000
  }

  predicate NotSpace(c: char) {
    !IsSpace(c)
  }

  /** The line boundaries that `str.splitlines()` splits on ("\r\n" counts as one). */
  predicate IsLineBoundary(c: char) {
    var n := c as int;
    (0x0A <= n <= 0x0D) || (0x1C <= n <= 0x1E) || n == 0x85 || n == 0x2028 || n == 0x2029
  }

  predicate NotLineBoundary(c: char) {
    !IsLineBoundary(c)
  }

  predicate IsNewline(c: char) {
    c == '\n'
  }

  predicate IsDigit(c: char) {
    '0' <= c <= '9'
  }

  /** Length of the longest prefix of `s` whose characters all satisfy `p`. */
  function LeadingRun(s: string, p: char -> bool): (n: nat)
    ensures n <= |s|
    ensures forall i :: 0 <= i < n ==> p(s[i])
    ensures n < |s| ==> !p(s[n])
  {
    if s == [] || !p(s[0]) then 0 else 1 + LeadingRun(s[1..], p)
  }

  /** Length of the longest suffix of `s` whose characters all satisfy `p`. */
  function TrailingRun(s: string, p: char -> bool): (n: nat)
    ensures n <= |s|
    ensures forall i :: |s| - n <= i < |s| ==> p(s[i])
    ensures n < |s| ==> !p(s[|s| - n - 1])
  {
    if s == [] || !p(s[|s| - 1]) then 0 else 1 + TrailingRun(s[..|s| - 1], p)
  }

  /** `s` without the leading and trailing characters that satisfy `p`. */
  function TrimBoth(s: string, p: char -> bool): (r: string)
    ensures exists i :: 0 <= i <= |s| - |r| && OccursAt(r, s, i)
                        && (forall k :: 0 <= k < i ==> p(s[k]))
                        && (forall k :: i + |r| <= k < |s| ==> p(s[k]))
    ensures |r| > 0 ==> !p(r[0]) && !p(r[|r| - 1])
  {
    var i := LeadingRun(s, p);
    var t := s[i..];
    var r := t[..|t| - TrailingRun(t, p)];
    assert OccursAt(r, s, i);
    r
  }

  /** `s.strip()`. */
  function Strip(s: string): string {
    TrimBoth(s, IsSpace)
  }

  /** `s.strip('\n')`. */
  function StripNewlines(s: string): string {
    TrimBoth(s, IsNewline)
  }

  /** `s.startswith(prefix)`. */
  predicate StartsWith(s: string, prefix: string) {
    |prefix| <= |s| && s[..|prefix|] == prefix
  }

  /** `sub` appears in `s` starting at index `i`. */
  predicate OccursAt(sub: string, s: string, i: int) {
    0 <= i && i + |sub| <= |s| && s[i..i + |sub|] == sub
  }

  /** `sub in s`. */
  predicate IsSubstring(sub: string, s: string) {
    exists i :: 0 <= i <= |s| - |sub| && OccursAt(sub, s, i)
  }

  /** `sep.join(parts)`. */
  function JoinWith(sep: string, parts: seq<string>): string
  {
    if |parts| == 0 then ""
    else if |parts| == 1 then parts[0]
    else parts[0] + sep + JoinWith(sep, parts[1..])
  }

  predicate HasNo(s: string, p: char -> bool) {
    forall i :: 0 <= i < |s| ==> !p(s[i])
  }

  /** Pieces and a separator that all lack the characters `p` holds of join into a string that lacks them. */
  lemma {:induction false} JoinWithHasNo(sep: string, parts: seq<string>, p: char -> bool)
    requires HasNo(sep, p)
    requires forall k :: 0 <= k < |parts| ==> HasNo(parts[k], p)
    ensures HasNo(JoinWith(sep, parts), p)
  {
    if |parts| > 1 {
      JoinWithHasNo(sep, parts[1..], p);
      var head, rest := parts[0] + sep, JoinWith(sep, parts[1..]);
      assert JoinWith(sep, parts) == head + rest;
      assert HasNo(head, p) by {
        assert forall i :: 0 <= i < |head| ==> head[i] == if i < |parts[0]| then parts[0][i] else sep[i - |parts[0]|];
      }
      assert forall i :: 0 <= i < |head + rest| ==> (head + rest)[i] == if i < |head| then head[i] else rest[i - |head|];
    }
  }

  /** `s.split()`: the maximal runs of non-whitespace characters, in order. */
  function SplitWhitespace(s: string): (fields: seq<string>)
    ensures forall k :: 0 <= k < |fields| ==> |fields[k]| > 0 && HasNo(fields[k], IsSpace)
    decreases |s|, 1
  {
    FieldsFrom(s[LeadingRun(s, IsSpace)..])
  }

  /** The fields of a string that is empty or starts with a non-whitespace character. */
  function FieldsFrom(t: string): (fields: seq<string>)
    requires t == [] || NotSpace(t[0])
    ensures forall k :: 0 <= k < |fields| ==> |fields[k]| > 0 && HasNo(fields[k], IsSpace)
    decreases |t|, 0
  {
    if t == [] then []
    else
      var k := LeadingRun(t, NotSpace);
      assert k > 0;
      var head := t[..k];
      assert HasNo(head, IsSpace) by {
        assert forall i :: 0 <= i < k ==> head[i] == t[i] && NotSpace(t[i]);
      }
      var rest := SplitWhitespace(t[k..]);
      var fields := [head] + rest;
      assert forall j :: 0 < j < |fields| ==> fields[j] == rest[j - 1];
      fields
  }

  /** A leading run of characters satisfying `p` adds its length to the run of what follows it. */
  lemma {:induction false} LeadingRunAppend(a: string, b: string, p: char -> bool)
    requires forall i :: 0 <= i < |a| ==> p(a[i])
    ensures LeadingRun(a + b, p) == |a| + LeadingRun(b, p)
  {
    if a != [] {
      assert (a + b)[0] == a[0] && p(a[0]);
      assert (a + b)[1..] == a[1..] + b;
      LeadingRunAppend(a[1..], b, p);
    } else {
      assert a + b == b;
    }
  }

  /** Leading whitespace does not change the fields. */
  lemma SplitWhitespaceSkipsSpaces(w: string, u: string)
    requires forall i :: 0 <= i < |w| ==> IsSpace(w[i])
    ensures SplitWhitespace(w + u) == SplitWhitespace(u)
  {
    LeadingRunAppend(w, u, IsSpace);
    var n := LeadingRun(u, IsSpace);
    assert (w + u)[|w| + n..] == u[n..];
  }

  /** A field followed by nothing or by whitespace is the first field. */
  lemma SplitWhitespaceCons(f: string, tail: string)
    requires |f| > 0 && HasNo(f, IsSpace)
    requires tail == [] || IsSpace(tail[0])
    ensures SplitWhitespace(f + tail) == [f] + SplitWhitespace(tail)
  {
    var s := f + tail;
    assert LeadingRun(s, IsSpace) == 0 by { assert !IsSpace(s[0]); }
    assert s[0..] == s;
    assert forall i :: 0 <= i < |f| ==> NotSpace(f[i]);
    LeadingRunAppend(f, tail, NotSpace);
    assert s[..|f|] == f && s[|f|..] == tail;
  }

  /**
   * `sep.join(fields).split()` gives back `fields` when every field is
   * non-empty and free of whitespace and `sep` is non-empty whitespace.
   */
  lemma {:induction false} SplitWhitespaceJoin(sep: string, fields: seq<string>)
    requires |sep| > 0 && forall i :: 0 <= i < |sep| ==> IsSpace(sep[i])
    requires forall k :: 0 <= k < |fields| ==> |fields[k]| > 0 && HasNo(fields[k], IsSpace)
    ensures SplitWhitespace(JoinWith(sep, fields)) == fields
  {
    if |fields| == 1 {
      SplitWhitespaceCons(fields[0], "");
      assert fields[0] + "" == fields[0];
    } else if |fields| > 1 {
      var rest := JoinWith(sep, fields[1..]);
      assert JoinWith(sep, fields) == fields[0] + (sep + rest);
      SplitWhitespaceCons(fields[0], sep + rest);
      SplitWhitespaceSkipsSpaces(sep, rest);
      SplitWhitespaceJoin(sep, fields[1..]);
      assert fields == [fields[0]] + fields[1..];
    }
  }

  /** `s.splitlines()`: the lines of `s` without their terminators; no empty line after a final terminator. */
  function SplitLines(s: string): (lines: seq<string>)
    ensures forall k :: 0 <= k < |lines| ==> HasNo(lines[k], IsLineBoundary)
    ensures |lines| <= |s|
    decreases |s|
  {
    if s == [] then []
    else
      var i := LeadingRun(s, NotLineBoundary);
      assert HasNo(s[..i], IsLineBoundary);
      if i == |s| then [s]
      else
        var next := if s[i] == '\r' && i + 1 < |s| && s[i + 1] == '\n' then i + 2 else i + 1;
        var rest := SplitLines(s[next..]);
        var lines := [s[..i]] + rest;
        assert forall j :: 0 < j < |lines| ==> lines[j] == rest[j - 1];
        lines
  }

  /** The text of `lines`, each followed by "\n". */
  function Terminated(lines: seq<string>): string
  {
    if lines == [] then "" else lines[0] + "\n" + Terminated(lines[1..])
  }

  /** Splitting a text whose lines are each terminated by "\n" gives back those lines. */
  lemma {:induction false} SplitLinesTerminated(lines: seq<string>)
    requires forall k :: 0 <= k < |lines| ==> HasNo(lines[k], IsLineBoundary)
    ensures SplitLines(Terminated(lines)) == lines
  {
    if lines != [] {
      var s := Terminated(lines);
      var l := lines[0];
      assert s == l + "\n" + Terminated(lines[1..]);
      assert !NotLineBoundary(s[|l|]);
      assert forall j :: 0 <= j < |l| ==> s[j] == l[j] && NotLineBoundary(s[j]);
      var i := LeadingRun(s, NotLineBoundary);
      assert i == |l|;
      assert s[..i] == l;
      assert s[i + 1..] == Terminated(lines[1..]);
      SplitLinesTerminated(lines[1..]);
    }
  }

  /** Value of a run of digits and underscores, the underscores being ignored. */
  function DigitsValue(s: string): nat
  {
    if s == [] then 0
    else if s[|s| - 1] == '_' then DigitsValue(s[..|s| - 1])
    else 10 * DigitsValue(s[..|s| - 1]) + DigitValue(s[|s| - 1])
  }

  function DigitValue(c: char): nat {
    if IsDigit(c) then c as int - '0' as int else 0
  }

  /** Python's decimal integer literal body: digits, with single underscores only between digits. */
  predicate ValidDigits(s: string) {
    && |s| > 0
    && IsDigit(s[0])
    && IsDigit(s[|s| - 1])
    && (forall i :: 0 <= i < |s| ==> IsDigit(s[i]) || s[i] == '_')
    && (forall i :: 0 <= i < |s| - 1 ==> !(s[i] == '_' && s[i + 1] == '_'))
  }

  /**
   * `int(s)` for a `str` argument whose digits are ASCII: surrounding
   * whitespace, an optional sign, digits with single underscores between
   * them; `None` where Python raises ValueError on such a string.
   */
  function ParseInt(s: string): Option<int>
  {
    var t := Strip(s);
    if |t| > 0 && (t[0] == '+' || t[0] == '-') then
      if ValidDigits(t[1..]) then
        Some(if t[0] == '-' then -(DigitsValue(t[1..]) as int) else DigitsValue(t[1..]))
      else None
    else if ValidDigits(t) then Some(DigitsValue(t))
    else None
  }

  /** The shortest decimal spelling of `n`, as `str(n)` writes it. */
  function Decimal(n: nat): (s: string)
    ensures |s| > 0 && forall i :: 0 <= i < |s| ==> IsDigit(s[i])
  {
    if n < 10 then [('0' as int + n) as char]
    else Decimal(n / 10) + [('0' as int + n % 10) as char]
  }

  lemma {:induction false} DigitsValueOfDecimal(n: nat)
    ensures DigitsValue(Decimal(n)) == n
  {
    var s := Decimal(n);
    if n >= 10 {
      DigitsValueOfDecimal(n / 10);
      assert s[..|s| - 1] == Decimal(n / 10);
    } else {
      assert s[..|s| - 1] == [];
    }
  }

  /** `int(str(n)) == n`. */
  lemma ParseIntDecimal(n: nat)
    ensures ParseInt(Decimal(n)) == Some(n)
  {
    DecimalIsValid(n);
    ParseIntOfDigits(Decimal(n));
  }

  /** `str(n)` is a valid integer literal whose value is `n`. */
  lemma DecimalIsValid(n: nat)
    ensures ValidDigits(Decimal(n)) && DigitsValue(Decimal(n)) == n
  {
    DigitsValueOfDecimal(n);
  }

  /** `int()` of a plain run of digits is its value. */
  lemma ParseIntOfDigits(s: string)
    requires ValidDigits(s)
    ensures ParseInt(s) == Some(DigitsValue(s))
  {
    StripNoSpace(s);
  }

  /** `int()` of a minus sign followed by digits is the negated value. */
  lemma ParseIntOfNegatedDigits(s: string)
    requires ValidDigits(s)
    ensures ParseInt("-" + s) == Some(-(DigitsValue(s) as int))
  {
    var m := "-" + s;
    assert m[0] == '-' && m[|m| - 1] == s[|s| - 1];
    StripNoSpace(m);
    assert Strip(m)[1..] == s;
  }

  /** A string that neither begins nor ends with whitespace is its own `strip()`. */
  lemma StripNoSpace(s: string)
    requires |s| > 0 ==> !IsSpace(s[0]) && !IsSpace(s[|s| - 1])
    ensures Strip(s) == s
  {
    assert LeadingRun(s, IsSpace) == 0;
    assert s[0..] == s;
    assert TrailingRun(s, IsSpace) == 0;
    assert s[..|s|] == s;
  }
}
