/**
  The puzzle the solver is given: an `rows` x `cols` matrix of digit
  variables, the blank cells fixed to 0, and the segments. A grid is the
  matrix's values flattened row by row.
 */
module Puzzle {
  import opened Results
  import opened Segments

  datatype Puzzle = Puzzle(rows: nat, cols: nat, blanks: seq<Cell>, segments: seq<Segment>)

  predicate InGrid(rows: nat, cols: nat, c: Cell) {
    0 <= c.row < rows && 0 <= c.col < cols
  }

  function Size(p: Puzzle): nat {
    p.rows * p.cols
  }

  /** Every position the puzzle mentions lies inside its matrix. */
  predicate Valid(p: Puzzle) {
    && (forall c :: c in p.blanks ==> InGrid(p.rows, p.cols, c))
    && (forall s :: s in p.segments ==> forall c :: c in s.cells ==> InGrid(p.rows, p.cols, c))
  }

  /** Position of a cell in the row-major flattened matrix. */
  function Index(p: Puzzle, c: Cell): (k: nat)
    requires InGrid(p.rows, p.cols, c)
    ensures k < Size(p)
  {
    assert c.row * p.cols + c.col < Size(p) by {
      assert c.row * p.cols <= (p.rows - 1) * p.cols;
      assert Size(p) == (p.rows - 1) * p.cols + p.cols;
    }
    c.row * p.cols + c.col
  }

  lemma {:induction false} MulMonotone(a: nat, b: nat, n: nat)
    requires a <= b
    ensures a * n <= b * n
    decreases b - a
  {
    if a < b {
      MulMonotone(a, b - 1, n);
      assert b * n == (b - 1) * n + n;
    }
  }

  /** Distinct cells occupy distinct positions of the flattened matrix. */
  lemma IndexInjective(p: Puzzle, c: Cell, d: Cell)
    requires InGrid(p.rows, p.cols, c) && InGrid(p.rows, p.cols, d)
    requires c != d
    ensures Index(p, c) != Index(p, d)
  {
    var n := p.cols;
    if c.row < d.row {
      MulMonotone(c.row + 1, d.row, n);
      assert (c.row + 1) * n == c.row * n + n;
    } else if d.row < c.row {
      MulMonotone(d.row + 1, c.row, n);
      assert (d.row + 1) * n == d.row * n + n;
    }
  }

  predicate CellsInGrid(p: Puzzle, cells: seq<Cell>) {
    forall c :: c in cells ==> InGrid(p.rows, p.cols, c)
  }

  /** The values a grid gives to some cells, in their order. */
  function Values(p: Puzzle, cells: seq<Cell>, g: seq<int>): (xs: seq<int>)
    requires CellsInGrid(p, cells) && |g| == Size(p)
    ensures |xs| == |cells|
  {
    seq(|cells|, i requires 0 <= i < |cells| => g[Index(p, cells[i])])
  }

  function Sum(xs: seq<int>): int
    decreases |xs|
  {
    if |xs| == 0 then 0 else xs[0] + Sum(xs[1..])
  }

  predicate Distinct(xs: seq<int>) {
    forall i, j :: 0 <= i < j < |xs| ==> xs[i] != xs[j]
  }

  /** A segment holds when its digits are at least 1, add up to its sum and differ pairwise. */
  predicate SegmentHolds(p: Puzzle, s: Segment, g: seq<int>)
    requires CellsInGrid(p, s.cells) && |g| == Size(p)
  {
    var xs := Values(p, s.cells, g);
    && (forall i :: 0 <= i < |xs| ==> xs[i] >= 1)
    && Sum(xs) == s.sum
    && Distinct(xs)
  }

  /** A solution: every cell a digit 0..9, every blank 0, every segment holding. */
  predicate Satisfies(p: Puzzle, g: seq<int>)
    requires Valid(p)
  {
    && |g| == Size(p)
    && (forall k :: 0 <= k < |g| ==> 0 <= g[k] <= 9)
    && (forall c :: c in p.blanks ==> g[Index(p, c)] == 0)
    && (forall s :: s in p.segments ==> SegmentHolds(p, s, g))
  }

  /**
    A cell that is neither blank nor in any segment is constrained only to
    0..9: any digit may be put there.
   */
  lemma UncoveredCellIsFree(p: Puzzle, g: seq<int>, c: Cell, d: int)
    requires Valid(p) && Satisfies(p, g)
    requires InGrid(p.rows, p.cols, c) && 0 <= d <= 9
    requires c !in p.blanks
    requires forall s :: s in p.segments ==> c !in s.cells
    ensures Satisfies(p, g[Index(p, c) := d])
  {
    var k := Index(p, c);
    var g' := g[k := d];
    forall b | b in p.blanks
      ensures g'[Index(p, b)] == 0
    {
      if b != c {
        IndexInjective(p, b, c);
      }
    }
    forall s | s in p.segments
      ensures SegmentHolds(p, s, g')
    {
      assert Values(p, s.cells, g') == Values(p, s.cells, g) by {
        forall i | 0 <= i < |s.cells|
          ensures g'[Index(p, s.cells[i])] == g[Index(p, s.cells[i])]
        {
          if s.cells[i] != c {
            IndexInjective(p, s.cells[i], c);
          }
        }
      }
    }
  }

  /** Errors the program meets while posting the puzzle, in the order it meets them. */
  datatype BuildError =
    | BlankOutOfRange(index: nat)  // a blank outside the matrix
    | EmptyRecord(index: nat)      // a segment record without even a sum
    | CellOutOfRange(index: nat)   // a segment cell outside the matrix

  /** A blank given as a one-based pair. */
  function BlankCell(b: (int, int)): Cell {
    Cell(b.0 - 1, b.1 - 1)
  }

  /** A record that decodes to a segment lying inside the matrix. */
  predicate RecordFits(rows: nat, cols: nat, record: seq<int>) {
    |record| > 0 && forall c :: c in Coordinates(record[1..]) ==> InGrid(rows, cols, c)
  }

  function FirstBadBlank(rows: nat, cols: nat, blanks: seq<(int, int)>, from: nat): (r: Option<nat>)
    requires from <= |blanks|
    ensures r.Some? ==> from <= r.value < |blanks| && !InGrid(rows, cols, BlankCell(blanks[r.value]))
    ensures r.Some? ==> forall i :: from <= i < r.value ==> InGrid(rows, cols, BlankCell(blanks[i]))
    ensures r.None? ==> forall i :: from <= i < |blanks| ==> InGrid(rows, cols, BlankCell(blanks[i]))
    decreases |blanks| - from
  {
    if from == |blanks| then None
    else if !InGrid(rows, cols, BlankCell(blanks[from])) then Some(from)
    else FirstBadBlank(rows, cols, blanks, from + 1)
  }

  function FirstBadRecord(rows: nat, cols: nat, records: seq<seq<int>>, from: nat): (r: Option<nat>)
    requires from <= |records|
    ensures r.Some? ==> from <= r.value < |records| && !RecordFits(rows, cols, records[r.value])
    ensures r.Some? ==> forall i :: from <= i < r.value ==> RecordFits(rows, cols, records[i])
    ensures r.None? ==> forall i :: from <= i < |records| ==> RecordFits(rows, cols, records[i])
    decreases |records| - from
  {
    if from == |records| then None
    else if !RecordFits(rows, cols, records[from]) then Some(from)
    else FirstBadRecord(rows, cols, records, from + 1)
  }

  /**
    Posts the puzzle: blanks first, then the segments in order; the first
    blank or record the matrix cannot hold stops it.
   */
  function Build(rows: nat, cols: nat, blanks: seq<(int, int)>, records: seq<seq<int>>)
    : (r: Result<Puzzle, BuildError>)
    ensures r.Success? <==>
              && (forall i :: 0 <= i < |blanks| ==> InGrid(rows, cols, BlankCell(blanks[i])))
              && (forall k :: 0 <= k < |records| ==> RecordFits(rows, cols, records[k]))
    ensures r.Success? ==>
              && Valid(r.value)
              && r.value.rows == rows && r.value.cols == cols
              && |r.value.blanks| == |blanks| && |r.value.segments| == |records|
              && (forall i :: 0 <= i < |blanks| ==> r.value.blanks[i] == BlankCell(blanks[i]))
              && (forall k :: 0 <= k < |records| ==> Some(r.value.segments[k]) == DecodeRecord(records[k]))
    ensures r.Failure? && r.error.BlankOutOfRange? ==>
              && r.error.index < |blanks|
              && !InGrid(rows, cols, BlankCell(blanks[r.error.index]))
              && forall i :: 0 <= i < r.error.index ==> InGrid(rows, cols, BlankCell(blanks[i]))
    ensures r.Failure? && !r.error.BlankOutOfRange? ==>
              && (forall i :: 0 <= i < |blanks| ==> InGrid(rows, cols, BlankCell(blanks[i])))
              && r.error.index < |records|
              && (r.error.EmptyRecord? <==> |records[r.error.index]| == 0)
              && !RecordFits(rows, cols, records[r.error.index])
              && forall k :: 0 <= k < r.error.index ==> RecordFits(rows, cols, records[k])
  {
    match FirstBadBlank(rows, cols, blanks, 0)
    case Some(i) => Failure(BlankOutOfRange(i))
    case None =>
      match FirstBadRecord(rows, cols, records, 0)
      case Some(k) =>
        if |records[k]| == 0 then Failure(EmptyRecord(k)) else Failure(CellOutOfRange(k))
      case None =>
        var bs := seq(|blanks|, i requires 0 <= i < |blanks| => BlankCell(blanks[i]));
        var ss := seq(|records|, k requires 0 <= k < |records| && |records[k]| > 0 => DecodeRecord(records[k]).value);
        var p := Puzzle(rows, cols, bs, ss);
        assert Valid(p) by {
          forall s | s in ss
            ensures forall c :: c in s.cells ==> InGrid(rows, cols, c)
          {
            var k :| 0 <= k < |records| && ss[k] == s;
            assert RecordFits(rows, cols, records[k]);
          }
        }
        Success(p)
  }
}
