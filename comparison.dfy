/**
 * The comparison of `compare_code_size`: for every artifact of the new
 * snapshot, and every object of that artifact in the new snapshot's order, one
 * row. A row has a baseline (old size, change and change ratio) exactly when
 * the old snapshot has the same object. Totals are converted with `int()` only
 * here.
 */
module Comparison {
  import opened Wrappers
  import opened PyText
  import opened OrderedDict
  import opened SizeRecord
  import opened SizeReport

  /** Artifact name ("crypto", "x509", "tls") to the objects measured in it. */
  type Snapshot = Dict<string, SizeDict>

  /**
   * One line of the comparison file. `ratio` is the exact quotient that the
   * script turns into a float and prints as a percentage.
   */
  datatype Row =
    | NewOnly(name: string, newSize: int)
    | Changed(name: string, newSize: int, oldSize: int, change: int, ratio: real)

  /** Python raises ValueError for a total `int()` cannot read and KeyError for an artifact missing from the old snapshot. */
  datatype CompareError = ValueError(text: string) | KeyError(key: string)

  function TotalOf(s: Size<string>): Option<int> {
    ParseInt(s.total)
  }

  /** Every total the comparison of `newD` against `oldD` converts is a valid integer. */
  ghost predicate Convertible(oldD: SizeDict, newD: SizeDict)
    requires Valid(newD)
  {
    forall k :: k in newD.entries ==> KeyConvertible(oldD, newD, k)
  }

  /** `row` is the comparison row of object `k`. */
  ghost predicate RowFor(oldD: SizeDict, newD: SizeDict, k: string, row: Row)
    requires k in newD.entries
  {
    && row.name == k
    && TotalOf(newD.entries[k]) == Some(row.newSize)
    && (row.Changed? <==> k in oldD.entries)
    && (row.Changed? ==>
          && TotalOf(oldD.entries[k]) == Some(row.oldSize)
          && row.change == row.newSize - row.oldSize
          && row.ratio == Ratio(row.change, row.oldSize))
  }

  /** One row per object of `newD`, in `newD`'s order. */
  ghost predicate RowsMatch(oldD: SizeDict, newD: SizeDict, rows: seq<Row>)
    requires Valid(newD)
  {
    |rows| == |newD.keys| && forall i :: 0 <= i < |rows| ==> RowFor(oldD, newD, newD.keys[i], rows[i])
  }

  /** Both totals the comparison reads for object `k` are valid integers. */
  ghost predicate KeyConvertible(oldD: SizeDict, newD: SizeDict, k: string)
    requires k in newD.entries
  {
    TotalOf(newD.entries[k]).Some? && (k in oldD.entries ==> TotalOf(oldD.entries[k]).Some?)
  }

  /** The row of one object `f` of the new dict. */
  function CompareObject(oldD: SizeDict, newD: SizeDict, f: string): (r: Result<Row, CompareError>)
    requires f in newD.entries
    ensures r.Success? <==> KeyConvertible(oldD, newD, f)
    ensures r.Success? ==> RowFor(oldD, newD, f, r.value)
    ensures r.Failure? ==> r.error.ValueError?
  {
    var newSize := TotalOf(newD.entries[f]);
    if newSize.None? then Failure(ValueError(newD.entries[f].total))
    else if f !in oldD.entries then Success(NewOnly(f, newSize.value))
    else
      var oldSize := TotalOf(oldD.entries[f]);
      if oldSize.None? then Failure(ValueError(oldD.entries[f].total))
      else
        var change := newSize.value - oldSize.value;
        Success(Changed(f, newSize.value, oldSize.value, change, Ratio(change, oldSize.value)))
  }

  /** `change / base` as an exact quotient, or 0 when the base is 0. */
  function Ratio(change: int, base: int): (q: real)
    ensures base != 0 ==> q * (base as real) == change as real
    ensures base == 0 ==> q == 0.0
  {
    if base == 0 then 0.0
    else
      RatioTimesBase(change, base);
      change as real / base as real
  }

  /** The inner `write_dict_to_csv(old_d, new_d)`: the rows of one artifact. */
  method CompareDicts(oldD: SizeDict, newD: SizeDict) returns (r: Result<seq<Row>, CompareError>)
    requires Valid(newD)
    ensures r.Success? <==> Convertible(oldD, newD)
    ensures r.Success? ==> RowsMatch(oldD, newD, r.value)
    ensures r.Failure? ==> r.error.ValueError?
  {
    var rows: seq<Row> := [];
    for i := 0 to |newD.keys|
      invariant |rows| == i
      invariant forall j :: 0 <= j < i ==> RowFor(oldD, newD, newD.keys[j], rows[j]) && KeyConvertible(oldD, newD, newD.keys[j])
    {
      var row := CompareObject(oldD, newD, newD.keys[i]);
      if row.Failure? {
        return Failure(row.error);
      }
      rows := rows + [row.value];
    }
    assert forall k :: k in newD.entries ==> exists j :: 0 <= j < |newD.keys| && newD.keys[j] == k;
    return Success(rows);
  }

  /** Each artifact's dict is a well-formed ordered dict. */
  ghost predicate ValidSnapshot(s: Snapshot) {
    Valid(s) && forall k :: k in s.entries ==> Valid(s.entries[k])
  }

  /** Every artifact of the new snapshot is in the old one, and every total the comparison reads converts. */
  ghost predicate Comparable(oldS: Snapshot, newS: Snapshot)
    requires ValidSnapshot(newS)
  {
    forall k :: k in newS.entries ==> k in oldS.entries && Convertible(oldS.entries[k], newS.entries[k])
  }

  /** `report` holds, for each artifact of the new snapshot in order, its name and its rows. */
  ghost predicate ReportMatches(oldS: Snapshot, newS: Snapshot, report: seq<(string, seq<Row>)>)
    requires ValidSnapshot(newS)
  {
    && |report| == |newS.keys|
    && forall i :: 0 <= i < |report| ==>
         var k := newS.keys[i];
         report[i].0 == k && k in oldS.entries && RowsMatch(oldS.entries[k], newS.entries[k], report[i].1)
  }

  /**
   * The loop of `compare_code_size` over the artifacts of the new snapshot:
   * for each, its name and its rows. The old snapshot must hold every
   * artifact of the new one; artifacts only the old one has give no rows.
   */
  method CompareSnapshots(oldS: Snapshot, newS: Snapshot) returns (r: Result<seq<(string, seq<Row>)>, CompareError>)
    requires ValidSnapshot(newS)
    ensures r.Success? <==> Comparable(oldS, newS)
    ensures r.Success? ==> ReportMatches(oldS, newS, r.value)
  {
    var result: seq<(string, seq<Row>)> := [];
    for i := 0 to |newS.keys|
      invariant |result| == i
      invariant forall j :: 0 <= j < i ==>
        var k := newS.keys[j];
        && result[j].0 == k && k in oldS.entries
        && Convertible(oldS.entries[k], newS.entries[k])
        && RowsMatch(oldS.entries[k], newS.entries[k], result[j].1)
    {
      var exe := newS.keys[i];
      if exe !in oldS.entries {
        return Failure(KeyError(exe));
      }
      var rows := CompareDicts(oldS.entries[exe], newS.entries[exe]);
      if rows.Failure? {
        return Failure(rows.error);
      }
      result := result + [(exe, rows.value)];
    }
    assert forall k :: k in newS.entries ==> exists j :: 0 <= j < |newS.keys| && newS.keys[j] == k;
    return Success(result);
  }

  lemma RatioTimesBase(change: int, base: int)
    requires base != 0
    ensures (change as real / base as real) * (base as real) == change as real
  {
  }

  lemma CancelBase(x: real, y: real, o: real)
    requires o != 0.0 && x * o == y * o
    ensures x == y
  {
    assert x == (x * o) / o;
  }

  /** The rows of a comparison are fixed by the two snapshots. */
  lemma {:induction false} RowsMatchUnique(oldD: SizeDict, newD: SizeDict, rows1: seq<Row>, rows2: seq<Row>)
    requires Valid(newD)
    requires RowsMatch(oldD, newD, rows1) && RowsMatch(oldD, newD, rows2)
    ensures rows1 == rows2
  {
    forall i | 0 <= i < |rows1|
      ensures rows1[i] == rows2[i]
    {
      var a, b := rows1[i], rows2[i];
      if a.Changed? && a.oldSize != 0 {
        CancelBase(a.ratio, b.ratio, a.oldSize as real);
      }
    }
  }

  /** A total written as `str(n)` converts back to `n`. */
  lemma TotalOfDecimal(s: Size<string>, n: nat)
    requires s.total == Decimal(n)
    ensures TotalOf(s) == Some(n)
  {
    ParseIntDecimal(n);
  }

  /**
   * One object measured at 100 bytes in the old revision and 120 in the
   * new one gives the row `aes.o, 120, 100, 20` with a change of 20%.
   */
  lemma BaselineRowExample()
    ensures var oldD := Dict(["aes.o"], map["aes.o" := Size("100", "0", "0", "100")]);
            var newD := Dict(["aes.o"], map["aes.o" := Size("120", "0", "0", "120")]);
            CompareObject(oldD, newD, "aes.o") == Success(Changed("aes.o", 120, 100, 20, 0.2))
  {
    TotalOfDecimal(Size("100", "0", "0", "100"), 100);
    TotalOfDecimal(Size("120", "0", "0", "120"), 120);
  }

  /** An old total of zero gives a ratio of zero instead of a division, and an object new to the snapshot has no baseline. */
  lemma ZeroBaselineAndNewObjectExample()
    ensures var oldD := Dict(["a.o"], map["a.o" := Size("0", "0", "0", "0")]);
            var newD := Dict(["a.o", "b.o"], map["a.o" := Size("50", "0", "0", "50"), "b.o" := Size("7", "0", "0", "7")]);
            && CompareObject(oldD, newD, "a.o") == Success(Changed("a.o", 50, 0, 50, 0.0))
            && CompareObject(oldD, newD, "b.o") == Success(NewOnly("b.o", 7))
  {
    TotalOfDecimal(Size("0", "0", "0", "0"), 0);
    TotalOfDecimal(Size("50", "0", "0", "50"), 50);
    TotalOfDecimal(Size("7", "0", "0", "7"), 7);
  }
}
