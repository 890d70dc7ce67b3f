/**
 * `size_text_to_dict`: the parser of the `size -t` report of one library
 * archive. The first line is a header; every other line is split on
 * whitespace, and its fields 0 to 3 (text, data, bss, total) become the record
 * of the object named by field 5. The fields are kept as text.
 */
module SizeReport {
  import opened Wrappers
  import opened PyText
  import opened OrderedDict
  import opened SizeRecord

  /** Object-file name to its record, in the order the report first names each object. */
  type SizeDict = Dict<string, Size<string>>

  /** The report had a data line with fewer than six fields (Python raises IndexError). */
  datatype ParseError = IndexError

  /** The field lists of the data lines: every line after the first, split on whitespace. */
  function Rows(txt: string): seq<seq<string>>
  {
    var lines := SplitLines(txt);
    var rest := if lines == [] then [] else lines[1..];
    seq(|rest|, i requires 0 <= i < |rest| => SplitWhitespace(rest[i]))
  }

  /**
   * A report of a header line and data lines, each ending in "\n", has one
   * row per data line, holding that line's whitespace-separated fields.
   */
  lemma RowsOfReport(header: string, data: seq<string>)
    requires HasNo(header, IsLineBoundary)
    requires forall k :: 0 <= k < |data| ==> HasNo(data[k], IsLineBoundary)
    ensures |Rows(Terminated([header] + data))| == |data|
    ensures forall i :: 0 <= i < |data| ==> Rows(Terminated([header] + data))[i] == SplitWhitespace(data[i])
  {
    var lines := [header] + data;
    assert forall k :: 0 < k < |lines| ==> lines[k] == data[k - 1];
    SplitLinesTerminated(lines);
    assert lines[1..] == data;
  }

  /** The report text of a table: a header line, then each row's fields joined by `sep`, every line ending in "\n". */
  function ReportText(header: string, sep: string, table: seq<seq<string>>): string {
    Terminated([header] + seq(|table|, r requires 0 <= r < |table| => JoinWith(sep, table[r])))
  }

  /**
   * Parsing the rows of a report written from a table gives back the table,
   * when no field is empty or holds whitespace and the separator is
   * whitespace that breaks no line.
   */
  lemma RowsOfTable(header: string, sep: string, table: seq<seq<string>>)
    requires HasNo(header, IsLineBoundary)
    requires |sep| > 0 && (forall i :: 0 <= i < |sep| ==> IsSpace(sep[i])) && HasNo(sep, IsLineBoundary)
    requires forall r :: 0 <= r < |table| ==> forall k :: 0 <= k < |table[r]| ==> |table[r][k]| > 0 && HasNo(table[r][k], IsSpace)
    ensures Rows(ReportText(header, sep, table)) == table
  {
    var data := seq(|table|, r requires 0 <= r < |table| => JoinWith(sep, table[r]));
    forall r | 0 <= r < |table|
      ensures HasNo(data[r], IsLineBoundary) && SplitWhitespace(data[r]) == table[r]
    {
      forall k | 0 <= k < |table[r]|
        ensures HasNo(table[r][k], IsLineBoundary)
      {
        assert forall i :: 0 <= i < |table[r][k]| ==> !IsSpace(table[r][k][i]);
      }
      JoinWithHasNo(sep, table[r], IsLineBoundary);
      SplitWhitespaceJoin(sep, table[r]);
    }
    RowsOfReport(header, data);
  }

  /** Every row has the six fields the parser indexes. */
  ghost predicate AllWide(rows: seq<seq<string>>) {
    forall i :: 0 <= i < |rows| ==> |rows[i]| >= 6
  }

  /** The record a row stands for: its first four fields, unconverted. */
  function RecordOf(row: seq<string>): Size<string>
    requires |row| >= 4
  {
    Size(row[0], row[1], row[2], row[3])
  }

  /** The object name of each row (field 5). */
  function Names(rows: seq<seq<string>>): (names: seq<string>)
    requires AllWide(rows)
    ensures |names| == |rows| && forall i :: 0 <= i < |rows| ==> names[i] == rows[i][5]
  {
    seq(|rows|, i requires 0 <= i < |rows| => rows[i][5])
  }

  /** The distinct elements of `s`, in the order of their first occurrence. */
  function FirstOccurrences(s: seq<string>): (r: seq<string>)
    ensures forall x :: x in r <==> x in s
    ensures forall i, j :: 0 <= i < j < |r| ==> r[i] != r[j]
  {
    if s == [] then []
    else
      var p := FirstOccurrences(s[..|s| - 1]);
      assert forall x :: x in s <==> x in s[..|s| - 1] || x == s[|s| - 1];
      if s[|s| - 1] in p then p else p + [s[|s| - 1]]
  }

  /** The position of the first occurrence of `x` in `s`. */
  function FirstIndex(s: seq<string>, x: string): (i: nat)
    requires x in s
    ensures i < |s| && s[i] == x
    ensures forall j :: 0 <= j < i ==> s[j] != x
  {
    if s[0] == x then 0 else 1 + FirstIndex(s[1..], x)
  }

  /** Elements after the first occurrence of `x` do not move it. */
  lemma FirstIndexPrefix(s: seq<string>, t: seq<string>, x: string)
    requires x in s
    ensures x in s + t && FirstIndex(s + t, x) == FirstIndex(s, x)
  {
    var i := FirstIndex(s, x);
    assert (s + t)[i] == x;
    var j := FirstIndex(s + t, x);
    assert j <= i;
    assert s[j] == (s + t)[j];
  }

  /** The first occurrences in a sequence with one more element. */
  lemma FirstIndexSnoc(s: seq<string>, x: string)
    ensures forall y :: y in s ==> FirstIndex(s + [x], y) == FirstIndex(s, y) < |s|
    ensures x !in s ==> FirstIndex(s + [x], x) == |s|
  {
    forall y | y in s
      ensures FirstIndex(s + [x], y) == FirstIndex(s, y)
    {
      FirstIndexPrefix(s, [x], y);
    }
  }

  /** The distinct elements come in the order in which each first occurs. */
  lemma {:induction false} FirstOccurrencesInOrder(s: seq<string>)
    ensures forall i, j :: 0 <= i < j < |FirstOccurrences(s)| ==> FirstIndex(s, FirstOccurrences(s)[i]) < FirstIndex(s, FirstOccurrences(s)[j])
  {
    if s != [] {
      var s0, x := s[..|s| - 1], s[|s| - 1];
      assert s == s0 + [x];
      FirstOccurrencesInOrder(s0);
      FirstIndexSnoc(s0, x);
      var p, r := FirstOccurrences(s0), FirstOccurrences(s);
      assert forall i :: 0 <= i < |p| ==> p[i] in s0;
      if x !in p {
        assert r == p + [x];
        forall i, j | 0 <= i < j < |r|
          ensures FirstIndex(s, r[i]) < FirstIndex(s, r[j])
        {
          assert r[i] == p[i];
          if j < |p| {
            assert r[j] == p[j];
          } else {
            assert r[j] == x;
          }
        }
      }
    }
  }

  /** The position of the last occurrence of `x` in `s`. */
  function LastIndex(s: seq<string>, x: string): (i: nat)
    requires x in s
    ensures i < |s| && s[i] == x
    ensures forall j :: i < j < |s| ==> s[j] != x
  {
    if s[|s| - 1] == x then |s| - 1 else LastIndex(s[..|s| - 1], x)
  }

  /**
   * `d` is what the parser builds from `rows`: the keys are the object
   * names in order of first appearance, and each maps to the record of the
   * LAST row that names it.
   */
  ghost predicate Describes(rows: seq<seq<string>>, d: SizeDict) {
    && AllWide(rows)
    && Valid(d)
    && d.keys == FirstOccurrences(Names(rows))
    && forall k :: k in d.entries ==> k in Names(rows) && d.entries[k] == RecordOf(rows[LastIndex(Names(rows), k)])
  }

  /** The report cannot be parsed: some data line lacks field 5. */
  ghost predicate ParseFails(txt: string) {
    exists i :: 0 <= i < |Rows(txt)| && |Rows(txt)[i]| < 6
  }

  ghost predicate ParsesTo(txt: string, d: SizeDict) {
    Describes(Rows(txt), d)
  }

  /** The names of one more row are the names before it, then its own. */
  lemma NamesSnoc(rows: seq<seq<string>>, k: nat)
    requires k < |rows| && AllWide(rows[..k + 1])
    ensures AllWide(rows[..k])
    ensures Names(rows[..k + 1]) == Names(rows[..k]) + [rows[k][5]]
  {
    var pre, post := rows[..k], rows[..k + 1];
    assert forall i :: 0 <= i < k ==> post[i] == pre[i];
    assert post[k] == rows[k];
  }

  /** The first occurrences of a sequence with one more element. */
  lemma FirstOccurrencesSnoc(s: seq<string>, x: string)
    ensures FirstOccurrences(s + [x]) == if x in FirstOccurrences(s) then FirstOccurrences(s) else FirstOccurrences(s) + [x]
  {
    assert (s + [x])[..|s|] == s;
  }

  /** The last occurrence in a sequence with one more element. */
  lemma LastIndexSnoc(s: seq<string>, x: string, y: string)
    requires x in s + [y]
    ensures x == y ==> LastIndex(s + [y], x) == |s|
    ensures x != y ==> x in s && LastIndex(s + [y], x) == LastIndex(s, x)
  {
    assert (s + [y])[..|s|] == s;
  }

  /** One loop step: storing row `rows[k]` extends the description from `rows[..k]` to `rows[..k + 1]`. */
  lemma DescribesStep(rows: seq<seq<string>>, k: nat, d: SizeDict)
    requires k < |rows| && |rows[k]| >= 6
    requires Describes(rows[..k], d)
    ensures Describes(rows[..k + 1], Put(d, rows[k][5], RecordOf(rows[k])))
  {
    var post := rows[..k + 1];
    assert AllWide(post) by {
      assert forall i :: 0 <= i < k ==> post[i] == rows[i];
    }
    NamesSnoc(rows, k);
    StepKeys(rows, k, d);
    StepEntries(rows, k, d);
  }

  /** The keys after one loop step are the first occurrences of the names so far. */
  lemma StepKeys(rows: seq<seq<string>>, k: nat, d: SizeDict)
    requires k < |rows| && AllWide(rows[..k + 1]) && AllWide(rows[..k])
    requires Describes(rows[..k], d)
    requires Names(rows[..k + 1]) == Names(rows[..k]) + [rows[k][5]]
    ensures Put(d, rows[k][5], RecordOf(rows[k])).keys == FirstOccurrences(Names(rows[..k + 1]))
  {
    var np := Names(rows[..k]);
    FirstOccurrencesSnoc(np, rows[k][5]);
    assert rows[k][5] in d.entries <==> rows[k][5] in FirstOccurrences(np);
  }

  /** Every key after one loop step maps to the record of the last row naming it. */
  lemma StepEntries(rows: seq<seq<string>>, k: nat, d: SizeDict)
    requires k < |rows| && AllWide(rows[..k + 1]) && AllWide(rows[..k])
    requires Describes(rows[..k], d)
    requires Names(rows[..k + 1]) == Names(rows[..k]) + [rows[k][5]]
    ensures var d' := Put(d, rows[k][5], RecordOf(rows[k]));
            forall x :: x in d'.entries ==> x in Names(rows[..k + 1]) && d'.entries[x] == RecordOf(rows[..k + 1][LastIndex(Names(rows[..k + 1]), x)])
  {
    var pre, post := rows[..k], rows[..k + 1];
    var np := Names(pre);
    var name := rows[k][5];
    var d' := Put(d, name, RecordOf(rows[k]));
    forall x | x in d'.entries
      ensures x in Names(post) && d'.entries[x] == RecordOf(post[LastIndex(Names(post), x)])
    {
      LastIndexSnoc(np, x, name);
      if x != name {
        assert post[LastIndex(np, x)] == pre[LastIndex(np, x)];
      }
    }
  }

  /**
   * `size_text_to_dict`: a parse error exactly when some data line has fewer
   * than six fields; otherwise the dict the report describes.
   */
  method SizeTextToDict(txt: string) returns (r: Result<SizeDict, ParseError>)
    ensures r.Failure? <==> ParseFails(txt)
    ensures r.Success? ==> ParsesTo(txt, r.value)
  {
    var lines := SplitLines(txt);
    var rest := if lines == [] then [] else lines[1..];
    ghost var rows := Rows(txt);
    var d: SizeDict := Empty();
    assert rows[..0] == [];
    for i := 0 to |rest|
      invariant Describes(rows[..i], d)
    {
      var data := SplitWhitespace(rest[i]);
      assert data == rows[i];
      if |data| < 6 {
        return Failure(IndexError);
      }
      DescribesStep(rows, i, d);
      d := Put(d, data[5], Size(data[0], data[1], data[2], data[3]));
    }
    assert rows[..|rest|] == rows;
    return Success(d);
  }

  /** Parsing is deterministic: a report describes at most one dict. */
  lemma {:induction false} DescribesUnique(rows: seq<seq<string>>, d1: SizeDict, d2: SizeDict)
    requires Describes(rows, d1) && Describes(rows, d2)
    ensures d1 == d2
  {
    assert d1.entries.Keys == d2.entries.Keys;
    assert d1.entries == d2.entries;
  }

  /**
   * A later line naming an object already seen replaces that object's record
   * but not its position, and leaves every other object as it was.
   */
  lemma LaterDuplicateOverwrites(rows: seq<seq<string>>, k: nat, d: SizeDict)
    requires k < |rows| && |rows[k]| >= 6 && Describes(rows[..k], d) && rows[k][5] in d.entries
    ensures var d' := Put(d, rows[k][5], RecordOf(rows[k]));
            && Describes(rows[..k + 1], d')
            && d'.keys == d.keys
            && d'.entries[rows[k][5]] == Size(rows[k][0], rows[k][1], rows[k][2], rows[k][3])
            && forall x :: x in d.entries && x != rows[k][5] ==> x in d'.entries && d'.entries[x] == d.entries[x]
  {
    DescribesStep(rows, k, d);
  }
}
