/**
  The 7 x 7 puzzle the program hard-codes (the example of the Wikipedia
  article on Kakuro) as a concrete instance of the model.
 */
module Example {
  import opened Results
  import opened Segments
  import opened Puzzle

  const Rows: nat := 7
  const Cols: nat := 7

  /** Segment records `{sum, r1,c1, r2,c2, ...}`, horizontal ones first. */
  const Records: seq<seq<int>> := [
    [16, 1,1, 1,2],
    [24, 1,5, 1,6, 1,7],
    [17, 2,1, 2,2],
    [29, 2,4, 2,5, 2,6, 2,7],
    [35, 3,1, 3,2, 3,3, 3,4, 3,5],
    [ 7, 4,2, 4,3],
    [ 8, 4,5, 4,6],
    [16, 5,3, 5,4, 5,5, 5,6, 5,7],
    [21, 6,1, 6,2, 6,3, 6,4],
    [ 5, 6,6, 6,7],
    [ 6, 7,1, 7,2, 7,3],
    [ 3, 7,6, 7,7],
    [23, 1,1, 2,1, 3,1],
    [30, 1,2, 2,2, 3,2, 4,2],
    [27, 1,5, 2,5, 3,5, 4,5, 5,5],
    [12, 1,6, 2,6],
    [16, 1,7, 2,7],
    [17, 2,4, 3,4],
    [15, 3,3, 4,3, 5,3, 6,3, 7,3],
    [12, 4,6, 5,6, 6,6, 7,6],
    [ 7, 5,4, 6,4],
    [ 7, 5,7, 6,7, 7,7],
    [11, 6,1, 7,1],
    [10, 6,2, 7,2]
  ]

  /** One-based blank positions. */
  const Blanks: seq<(int, int)> := [
    (1,3), (1,4),
    (2,3),
    (3,6), (3,7),
    (4,1), (4,4), (4,7),
    (5,1), (5,2),
    (6,5),
    (7,4), (7,5)
  ]

  lemma BlanksFit()
    ensures forall i :: 0 <= i < |Blanks| ==> InGrid(Rows, Cols, BlankCell(Blanks[i]))
  {
  }

  lemma RecordFitsWhenEntriesFit(record: seq<int>)
    requires |record| > 0
    requires forall i :: 1 <= i < |record| ==> 1 <= record[i] <= 7
    ensures RecordFits(Rows, Cols, record)
  {
    var cells := Coordinates(record[1..]);
    forall c | c in cells
      ensures InGrid(Rows, Cols, c)
    {
      var i :| 0 <= i < |cells| && cells[i] == c;
      assert record[1..][2 * i] == record[2 * i + 1];
      assert record[1..][2 * i + 1] == record[2 * i + 2];
    }
  }

  lemma RecordsFit()
    ensures forall k :: 0 <= k < |Records| ==> RecordFits(Rows, Cols, Records[k])
  {
    forall k | 0 <= k < |Records|
      ensures RecordFits(Rows, Cols, Records[k])
    {
      RecordFitsWhenEntriesFit(Records[k]);
    }
  }

  /** The program's own puzzle posts without any of the build errors. */
  lemma ExampleBuilds()
    ensures Build(Rows, Cols, Blanks, Records).Success?
  {
    BlanksFit();
    RecordsFit();
  }
}
