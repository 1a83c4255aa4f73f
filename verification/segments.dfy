/**
  Segment records. A segment is written as a flat integer array
  `{sum, r1,c1, r2,c2, ...}` with coordinates counted from 1; the solver reads
  the pairs as zero-based matrix positions.
 */
module Segments {
  import opened Results

  /** A zero-based matrix position. */
  datatype Cell = Cell(row: int, col: int)

  /** A run of cells whose digits are distinct, at least 1, and add up to `sum`. */
  datatype Segment = Segment(sum: int, cells: seq<Cell>)

  /**
    The cells a coordinate array names, as the constraint builder reads it:
    `|s2| / 2` pairs, each shifted down by one; an unpaired last entry is ignored.
   */
  function Coordinates(s2: seq<int>): (cells: seq<Cell>)
    ensures |cells| == |s2| / 2
    ensures forall i :: 0 <= i < |cells| ==> cells[i] == Cell(s2[2 * i] - 1, s2[2 * i + 1] - 1)
    decreases |s2|
  {
    if |s2| < 2 then []
    else [Cell(s2[0] - 1, s2[1] - 1)] + Coordinates(s2[2..])
  }

  /** The one-based coordinate array of some cells. */
  function CoordinateArray(cells: seq<Cell>): (s2: seq<int>)
    ensures |s2| == 2 * |cells|
    decreases |cells|
  {
    if |cells| == 0 then []
    else [cells[0].row + 1, cells[0].col + 1] + CoordinateArray(cells[1..])
  }

  /**
    Decodes one record: the first entry is the sum, the rest the coordinates.
    An empty record has no sum (the program fails allocating its coordinate array).
   */
  function DecodeRecord(record: seq<int>): (r: Option<Segment>)
    ensures r.None? <==> |record| == 0
    ensures r.Some? ==>
              && r.value.sum == record[0]
              && |r.value.cells| == (|record| - 1) / 2
              && forall i :: 0 <= i < |r.value.cells| ==>
                   r.value.cells[i] == Cell(record[2 * i + 1] - 1, record[2 * i + 2] - 1)
  {
    if |record| == 0 then None
    else Some(Segment(record[0], Coordinates(record[1..])))
  }

  function EncodeRecord(s: Segment): seq<int> {
    [s.sum] + CoordinateArray(s.cells)
  }

  lemma {:induction false} CoordinatesOfArray(cells: seq<Cell>)
    ensures Coordinates(CoordinateArray(cells)) == cells
    decreases |cells|
  {
    if |cells| > 0 {
      CoordinatesOfArray(cells[1..]);
      assert CoordinateArray(cells)[2..] == CoordinateArray(cells[1..]);
    }
  }

  /** Every segment survives being written as a record and read back. */
  lemma DecodeEncode(s: Segment)
    ensures DecodeRecord(EncodeRecord(s)) == Some(s)
  {
    CoordinatesOfArray(s.cells);
    assert EncodeRecord(s)[1..] == CoordinateArray(s.cells);
  }

  lemma {:induction false} ArrayOfCoordinates(s2: seq<int>)
    ensures CoordinateArray(Coordinates(s2)) == s2[..|s2| / 2 * 2]
    decreases |s2|
  {
    if |s2| >= 2 {
      ArrayOfCoordinates(s2[2..]);
      assert |s2| / 2 * 2 == |s2[2..]| / 2 * 2 + 2;
      assert s2[..|s2| / 2 * 2] == s2[..2] + s2[2..][..|s2[2..]| / 2 * 2];
    }
  }

  /**
    A record reads back to itself when its length is odd; otherwise the
    unpaired last coordinate is lost.
   */
  lemma EncodeDecode(record: seq<int>)
    requires |record| > 0
    ensures |record| % 2 == 1 ==> EncodeRecord(DecodeRecord(record).value) == record
    ensures |record| % 2 == 0 ==> EncodeRecord(DecodeRecord(record).value) == record[..|record| - 1]
  {
    var rest := record[1..];
    ArrayOfCoordinates(rest);
    assert record == [record[0]] + rest;
    if |record| % 2 == 1 {
      assert rest[..|rest| / 2 * 2] == rest;
    } else {
      assert record[..|record| - 1] == [record[0]] + rest[..|rest| / 2 * 2];
    }
  }
}
