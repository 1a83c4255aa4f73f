/**
  The comma-separated layer of the clue file: the column count taken from the
  first line and the rectangular matrix of cell tokens.
 */
module Csv {
  import opened Results

  const ListSeparator: char := ','

  /** Number of occurrences of `c` in `s`, counted one character at a time. */
  function CountChar(s: string, c: char): (n: nat)
    ensures n == multiset(s)[c]
    decreases |s|
  {
    if |s| == 0 then 0
    else
      assert s == [s[0]] + s[1..];
      (if s[0] == c then 1 else 0) + CountChar(s[1..], c)
  }

  /** `string.Join`: the fields with one separator between neighbours. */
  function Join(fields: seq<string>, sep: char): string
    requires |fields| > 0
    decreases |fields|
  {
    if |fields| == 1 then fields[0]
    else fields[0] + [sep] + Join(fields[1..], sep)
  }

  /** `string.Split(sep)`: the maximal separator-free pieces, empty ones included. */
  function Split(s: string, sep: char): (fields: seq<string>)
    ensures |fields| >= 1
    ensures forall i :: 0 <= i < |fields| ==> sep !in fields[i]
    decreases |s|
  {
    if |s| == 0 then [""]
    else
      var rest := Split(s[1..], sep);
      if s[0] == sep then [""] + rest
      else [[s[0]] + rest[0]] + rest[1..]
  }

  /** There is one field more than there are separators. */
  lemma {:induction false} SplitLength(s: string, sep: char)
    ensures |Split(s, sep)| == CountChar(s, sep) + 1
    decreases |s|
  {
    if |s| > 0 {
      SplitLength(s[1..], sep);
    }
  }

  /** Putting a character in front of the first field puts it in front of the join. */
  lemma JoinConsChar(c: char, fields: seq<string>, sep: char)
    requires |fields| > 0
    ensures Join([[c] + fields[0]] + fields[1..], sep) == [c] + Join(fields, sep)
  {
    var longer := [[c] + fields[0]] + fields[1..];
    if |fields| > 1 {
      assert longer[1..] == fields[1..];
      var j := Join(fields[1..], sep);
      calc {
        Join(longer, sep);
        ([c] + fields[0]) + [sep] + j;
        [c] + (fields[0] + [sep] + j);
        [c] + Join(fields, sep);
      }
    }
  }

  /** Putting an empty field in front puts a separator in front of the join. */
  lemma JoinConsEmpty(fields: seq<string>, sep: char)
    requires |fields| > 0
    ensures Join([""] + fields, sep) == [sep] + Join(fields, sep)
  {
    assert ([""] + fields)[1..] == fields;
  }

  lemma {:induction false} JoinSplit(s: string, sep: char)
    ensures Join(Split(s, sep), sep) == s
    decreases |s|
  {
    if |s| > 0 {
      var rest := Split(s[1..], sep);
      JoinSplit(s[1..], sep);
      assert s == [s[0]] + s[1..];
      if s[0] == sep {
        assert Split(s, sep) == [""] + rest;
        JoinConsEmpty(rest, sep);
      } else {
        assert Split(s, sep) == [[s[0]] + rest[0]] + rest[1..];
        JoinConsChar(s[0], rest, sep);
      }
    }
  }

  lemma {:induction false} SplitJoin(fields: seq<string>, sep: char)
    requires |fields| > 0
    requires forall i :: 0 <= i < |fields| ==> sep !in fields[i]
    ensures Split(Join(fields, sep), sep) == fields
    decreases |fields|, |fields[0]|
  {
    var s := Join(fields, sep);
    if |fields[0]| > 0 {
      var f0 := fields[0];
      var shorter := [f0[1..]] + fields[1..];
      assert shorter[1..] == fields[1..];
      assert [f0[0]] + f0[1..] == f0;
      assert sep !in shorter[0];
      assert forall i :: 1 <= i < |shorter| ==> shorter[i] == fields[i];
      JoinConsChar(f0[0], shorter, sep);
      assert [[f0[0]] + shorter[0]] + shorter[1..] == fields;
      assert s == [f0[0]] + Join(shorter, sep);
      assert s[1..] == Join(shorter, sep);
      SplitJoin(shorter, sep);
      assert s[0] != sep;
      assert Split(s, sep) == [[s[0]] + shorter[0]] + shorter[1..];
    } else if |fields| > 1 {
      assert fields == [""] + fields[1..];
      JoinConsEmpty(fields[1..], sep);
      assert s[1..] == Join(fields[1..], sep);
      SplitJoin(fields[1..], sep);
      assert Split(s, sep) == [""] + fields[1..];
    }
  }

  /** The column count of the file: one more than the separators in its first line. */
  function ColumnCount(firstLine: string): (n: nat)
    ensures n == |Split(firstLine, ListSeparator)|
    ensures n >= 1
  {
    SplitLength(firstLine, ListSeparator);
    CountChar(firstLine, ListSeparator) + 1
  }

  datatype CsvError =
    | NoLines          // `lines[0]` of an empty file
    | ShortRow(row: nat)  // `stringLine[j]` past the end of a row's fields

  /** First row from `from` on with fewer than `cols` fields, if any. */
  function FirstShortRow(lines: seq<string>, cols: nat, from: nat): (r: Option<nat>)
    requires from <= |lines|
    ensures r.Some? ==> from <= r.value < |lines| && |Split(lines[r.value], ListSeparator)| < cols
    ensures r.Some? ==> forall i :: from <= i < r.value ==> cols <= |Split(lines[i], ListSeparator)|
    ensures r.None? ==> forall i :: from <= i < |lines| ==> cols <= |Split(lines[i], ListSeparator)|
    decreases |lines| - from
  {
    if from == |lines| then None
    else if |Split(lines[from], ListSeparator)| < cols then Some(from)
    else FirstShortRow(lines, cols, from + 1)
  }

  /**
    The token matrix: every line cut into its fields, and the first
    `ColumnCount(lines[0])` fields of each kept.
   */
  function ReadTokens(lines: seq<string>): (r: Result<seq<seq<string>>, CsvError>)
    ensures r == Failure(NoLines) <==> |lines| == 0
    ensures r.Success? <==>
              |lines| > 0 && forall i :: 0 <= i < |lines| ==> ColumnCount(lines[0]) <= |Split(lines[i], ListSeparator)|
    ensures r.Failure? && r.error.ShortRow? ==>
              && r.error.row < |lines|
              && |Split(lines[r.error.row], ListSeparator)| < ColumnCount(lines[0])
              && forall i :: 0 <= i < r.error.row ==> ColumnCount(lines[0]) <= |Split(lines[i], ListSeparator)|
    ensures r.Success? ==>
              && |r.value| == |lines|
              && forall i :: 0 <= i < |lines| ==>
                   && |r.value[i]| == ColumnCount(lines[0])
                   && r.value[i] <= Split(lines[i], ListSeparator)
  {
    if |lines| == 0 then Failure(NoLines)
    else
      var cols := ColumnCount(lines[0]);
      match FirstShortRow(lines, cols, 0)
      case Some(i) => Failure(ShortRow(i))
      case None =>
        Success(seq(|lines|, i requires 0 <= i < |lines| => Split(lines[i], ListSeparator)[..cols]))
  }
}
