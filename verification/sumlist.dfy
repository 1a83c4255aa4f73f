/**
  The flat list of clue sums: every positive horizontal sum in row-major
  order, then every positive vertical sum in row-major order.
 */
module SumList {
  import opened Results
  import opened Csv
  import opened Clues

  /** Row-major concatenation of a matrix's rows. */
  function Flatten(m: seq<seq<int>>): seq<int>
    decreases |m|
  {
    if |m| == 0 then [] else m[0] + Flatten(m[1..])
  }

  predicate Rectangular(m: seq<seq<int>>, cols: nat) {
    forall i :: 0 <= i < |m| ==> |m[i]| == cols
  }

  lemma {:induction false} FlattenAppend(a: seq<seq<int>>, b: seq<seq<int>>)
    ensures Flatten(a + b) == Flatten(a) + Flatten(b)
    decreases |a|
  {
    if |a| > 0 {
      assert (a + b)[1..] == a[1..] + b;
      FlattenAppend(a[1..], b);
      assert Flatten(a + b) == a[0] + (Flatten(a[1..]) + Flatten(b));
    } else {
      assert a + b == b;
    }
  }

  /** Flattening is row-major: cell (i, j) lands at position i * cols + j. */
  lemma {:induction false} FlattenIndex(m: seq<seq<int>>, cols: nat, i: nat, j: nat)
    requires Rectangular(m, cols) && i < |m| && j < cols
    ensures i * cols + j < |Flatten(m)|
    ensures Flatten(m)[i * cols + j] == m[i][j]
    decreases i
  {
    if i > 0 {
      FlattenIndex(m[1..], cols, i - 1, j);
      assert i * cols == cols + (i - 1) * cols;
    }
  }

  /** Flattening one more row appends that row. */
  lemma FlattenSnoc(m: seq<seq<int>>, i: nat)
    requires i < |m|
    ensures Flatten(m[..i + 1]) == Flatten(m[..i]) + m[i]
  {
    assert m[..i + 1] == m[..i] + [m[i]];
    FlattenAppend(m[..i], [m[i]]);
    assert Flatten([m[i]]) == m[i] + Flatten([]);
  }

  /** The positive entries of `s`, in their order. */
  function Positives(s: seq<int>): (r: seq<int>)
    ensures forall i :: 0 <= i < |r| ==> r[i] > 0
    ensures |r| <= |s|
    decreases |s|
  {
    if |s| == 0 then []
    else (if s[0] > 0 then [s[0]] else []) + Positives(s[1..])
  }

  /** Every positive number occurs in `Positives(s)` as often as in `s`. */
  lemma {:induction false} PositivesCount(s: seq<int>, x: int)
    requires x > 0
    ensures multiset(Positives(s))[x] == multiset(s)[x]
    decreases |s|
  {
    if |s| > 0 {
      PositivesCount(s[1..], x);
      assert s == [s[0]] + s[1..];
      assert multiset(s) == multiset([s[0]]) + multiset(s[1..]);
    }
  }

  /** Keeping the positive entries commutes with concatenation, so their order is kept. */
  lemma {:induction false} PositivesAppend(a: seq<int>, b: seq<int>)
    ensures Positives(a + b) == Positives(a) + Positives(b)
    decreases |a|
  {
    if |a| > 0 {
      var h := if a[0] > 0 then [a[0]] else [];
      assert (a + b)[0] == a[0] && (a + b)[1..] == a[1..] + b;
      PositivesAppend(a[1..], b);
      calc {
        Positives(a + b);
        h + Positives(a[1..] + b);
        h + (Positives(a[1..]) + Positives(b));
        (h + Positives(a[1..])) + Positives(b);
      }
    } else {
      assert a + b == b;
    }
  }

  /** One more entry adds itself to the positive entries exactly when it is positive. */
  lemma PositivesSnoc(s: seq<int>, j: nat)
    requires j < |s|
    ensures Positives(s[..j + 1]) == Positives(s[..j]) + (if s[j] > 0 then [s[j]] else [])
  {
    assert s[..j + 1] == s[..j] + [s[j]];
    PositivesAppend(s[..j], [s[j]]);
    assert Positives([s[j]]) == (if s[j] > 0 then [s[j]] else []) + Positives([]);
  }

  /** The sum list the program builds from the two sum matrices. */
  function OrderedSums(m: SumMatrices): seq<int> {
    Positives(Flatten(m.horizontal)) + Positives(Flatten(m.vertical))
  }

  /** Appends the positive entries of one row, left to right, to `sums`. */
  method AppendRow(sums: seq<int>, row: seq<int>) returns (r: seq<int>)
    ensures r == sums + Positives(row)
  {
    r := sums;
    var j := 0;
    while j < |row|
      invariant 0 <= j <= |row|
      invariant r == sums + Positives(row[..j])
    {
      ghost var kept := Positives(row[..j]);
      PositivesSnoc(row, j);
      if row[j] > 0 {
        r := r + [row[j]];
        assert r == sums + (kept + [row[j]]);
      } else {
        assert kept + [] == kept;
      }
      j := j + 1;
    }
    assert row[..j] == row;
  }

  /** Appends the positive entries of `m`, row by row, to `sums`. */
  method AppendPositives(sums: seq<int>, m: seq<seq<int>>) returns (r: seq<int>)
    ensures r == sums + Positives(Flatten(m))
  {
    r := sums;
    var i := 0;
    while i < |m|
      invariant 0 <= i <= |m|
      invariant r == sums + Positives(Flatten(m[..i]))
    {
      r := AppendRow(r, m[i]);
      FlattenSnoc(m, i);
      PositivesAppend(Flatten(m[..i]), m[i]);
      i := i + 1;
    }
    assert m[..i] == m;
  }

  /** The sum list: horizontal sums first, then vertical, each in row-major order. */
  method CollectSums(m: SumMatrices) returns (sums: seq<int>)
    ensures sums == Positives(Flatten(m.horizontal)) + Positives(Flatten(m.vertical))
  {
    sums := AppendPositives([], m.horizontal);
    sums := AppendPositives(sums, m.vertical);
  }

  /**
    Every sum in the list is positive, and each positive number occurs in it
    as often as in the two matrices together.
   */
  lemma OrderedSumsCounts(m: SumMatrices, x: int)
    ensures forall i :: 0 <= i < |OrderedSums(m)| ==> OrderedSums(m)[i] > 0
    ensures x > 0 ==>
              multiset(OrderedSums(m))[x] == multiset(Flatten(m.horizontal))[x] + multiset(Flatten(m.vertical))[x]
  {
    var h, v := Positives(Flatten(m.horizontal)), Positives(Flatten(m.vertical));
    assert multiset(h + v) == multiset(h) + multiset(v);
    if x > 0 {
      PositivesCount(Flatten(m.horizontal), x);
      PositivesCount(Flatten(m.vertical), x);
    }
  }

  lemma {:induction false} InFlatten(m: seq<seq<int>>, x: int)
    ensures x in Flatten(m) <==> exists i, j :: 0 <= i < |m| && 0 <= j < |m[i]| && m[i][j] == x
    decreases |m|
  {
    if |m| > 0 {
      InFlatten(m[1..], x);
      if x in Flatten(m[1..]) {
        var i, j :| 0 <= i < |m[1..]| && 0 <= j < |m[1..][i]| && m[1..][i][j] == x;
        assert m[i + 1][j] == x;
      }
      if exists i, j :: 0 <= i < |m| && 0 <= j < |m[i]| && m[i][j] == x {
        var i, j :| 0 <= i < |m| && 0 <= j < |m[i]| && m[i][j] == x;
        if i > 0 {
          assert m[1..][i - 1][j] == x;
        }
      }
    }
  }

  /** A number is in the sum list exactly when it is a positive entry of one of the matrices. */
  lemma OrderedSumsMembers(m: SumMatrices, x: int)
    ensures x in OrderedSums(m) <==>
              x > 0 && ((exists i, j :: 0 <= i < |m.horizontal| && 0 <= j < |m.horizontal[i]| && m.horizontal[i][j] == x)
                     || (exists i, j :: 0 <= i < |m.vertical| && 0 <= j < |m.vertical[i]| && m.vertical[i][j] == x))
  {
    InFlatten(m.horizontal, x);
    InFlatten(m.vertical, x);
    var h, v := Flatten(m.horizontal), Flatten(m.vertical);
    if x > 0 {
      PositivesCount(h, x);
      PositivesCount(v, x);
      assert x in Positives(h) <==> x in h by {
        assert multiset(Positives(h))[x] == multiset(h)[x];
      }
      assert x in Positives(v) <==> x in v by {
        assert multiset(Positives(v))[x] == multiset(v)[x];
      }
    }
  }

  /** The whole CSV path: lines to token matrix to sum matrices to sum list. */
  method ReadSums(lines: seq<string>) returns (r: Result<seq<int>, CsvError>)
    requires ReadTokens(lines).Success? ==> AllParsable(ReadTokens(lines).value)
    ensures r.Failure? <==> ReadTokens(lines).Failure?
    ensures r.Failure? ==> r.error == ReadTokens(lines).error
    ensures r.Success? ==> r.value == OrderedSums(DecodeMatrices(ReadTokens(lines).value))
  {
    match ReadTokens(lines)
    case Failure(e) =>
      r := Failure(e);
    case Success(tokens) =>
      var sums := CollectSums(DecodeMatrices(tokens));
      r := Success(sums);
  }
}
