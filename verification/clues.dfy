/**
  Clue tokens of the CSV file. A token `H\V` carries the horizontal sum `H`
  before its first backslash and the vertical sum `V` after it; a missing side,
  or a token without a backslash, leaves that sum at 0.
 */
module Clues {
  import opened Digits

  const ClueSeparator: char := '\\'

  /** `string.IndexOf`: the position of the first `c` in `s`, or -1. */
  function IndexOf(s: string, c: char): (r: int)
    ensures -1 <= r < |s|
    ensures r == -1 <==> forall i :: 0 <= i < |s| ==> s[i] != c
    ensures 0 <= r ==> s[r] == c && forall i :: 0 <= i < r ==> s[i] != c
    decreases |s|
  {
    if |s| == 0 then -1
    else if s[0] == c then 0
    else
      var k := IndexOf(s[1..], c);
      assert s == [s[0]] + s[1..];
      if k < 0 then -1 else k + 1
  }

  /** A side `int.Parse` accepts in this model; the empty side is never parsed. */
  predicate ParsableSide(s: string) {
    AllDigits(s) && Parse(s) <= IntMax
  }

  /** The sum a token side stands for: 0 when empty, its decimal value otherwise. */
  function SideValue(s: string): (n: nat)
    requires ParsableSide(s)
    ensures n <= IntMax
  {
    if |s| == 0 then 0 else Parse(s)
  }

  /** A token whose sides, if it has a backslash, both parse. */
  predicate ParsableToken(t: string) {
    var p := IndexOf(t, ClueSeparator);
    p < 0 || (ParsableSide(t[..p]) && ParsableSide(t[p + 1..]))
  }

  /** The pair of sums one cell contributes to the two sum matrices. */
  datatype ClueSums = ClueSums(horizontal: nat, vertical: nat)

  /** `k` is the position of the first backslash of `t`. */
  predicate FirstSeparator(t: string, k: int) {
    0 <= k < |t| && t[k] == ClueSeparator && forall i :: 0 <= i < k ==> t[i] != ClueSeparator
  }

  /** The sums of one token; a token without backslash gives (0, 0). */
  function DecodeToken(t: string): (r: ClueSums)
    requires ParsableToken(t)
    ensures (forall i :: 0 <= i < |t| ==> t[i] != ClueSeparator) ==> r == ClueSums(0, 0)
    ensures r.horizontal <= IntMax && r.vertical <= IntMax
  {
    var p := IndexOf(t, ClueSeparator);
    if p < 0 then ClueSums(0, 0)
    else ClueSums(SideValue(t[..p]), SideValue(t[p + 1..]))
  }

  /**
    At the first backslash of a token, the text before it is the horizontal
    sum and the text after it the vertical sum, an empty side reading as 0.
   */
  lemma DecodeTokenAtFirstSeparator(t: string, k: int)
    requires ParsableToken(t) && FirstSeparator(t, k)
    ensures AllDigits(t[..k]) && AllDigits(t[k + 1..])
    ensures DecodeToken(t).horizontal == Parse(t[..k])
    ensures DecodeToken(t).vertical == Parse(t[k + 1..])
  {
    assert IndexOf(t, ClueSeparator) == k;
  }

  /** The text written for one side of a clue: nothing for 0, the decimal digits otherwise. */
  function SideText(n: nat): (s: string)
    ensures AllDigits(s)
  {
    if n == 0 then "" else Show(n)
  }

  function EncodeToken(c: ClueSums): string {
    SideText(c.horizontal) + [ClueSeparator] + SideText(c.vertical)
  }

  lemma SideRoundTrip(n: nat)
    requires n <= IntMax
    ensures ParsableSide(SideText(n)) && SideValue(SideText(n)) == n
  {
    if n != 0 {
      ParseShow(n);
    }
  }

  /** Every pair of 32-bit sums survives being written as a token and read back. */
  lemma DecodeEncode(c: ClueSums)
    requires c.horizontal <= IntMax && c.vertical <= IntMax
    ensures ParsableToken(EncodeToken(c)) && DecodeToken(EncodeToken(c)) == c
  {
    var h, v := SideText(c.horizontal), SideText(c.vertical);
    var t := EncodeToken(c);
    assert ClueSeparator !in h;
    SideRoundTrip(c.horizontal);
    SideRoundTrip(c.vertical);
    var k := |h|;
    assert t[k] == ClueSeparator && t[..k] == h && t[k + 1..] == v;
    assert IndexOf(t, ClueSeparator) == k;
  }

  /** The horizontal and vertical sum matrices, cell by cell, of a token matrix. */
  datatype SumMatrices = SumMatrices(horizontal: seq<seq<int>>, vertical: seq<seq<int>>)

  predicate AllParsable(tokens: seq<seq<string>>) {
    forall i, j :: 0 <= i < |tokens| && 0 <= j < |tokens[i]| ==> ParsableToken(tokens[i][j])
  }

  function DecodeMatrices(tokens: seq<seq<string>>): (m: SumMatrices)
    requires AllParsable(tokens)
    ensures |m.horizontal| == |m.vertical| == |tokens|
    ensures forall i :: 0 <= i < |tokens| ==>
              |m.horizontal[i]| == |m.vertical[i]| == |tokens[i]|
    ensures forall i, j :: 0 <= i < |tokens| && 0 <= j < |tokens[i]| ==>
              && 0 <= m.horizontal[i][j] <= IntMax
              && 0 <= m.vertical[i][j] <= IntMax
              && ((forall k :: 0 <= k < |tokens[i][j]| ==> tokens[i][j][k] != ClueSeparator) ==>
                    m.horizontal[i][j] == 0 == m.vertical[i][j])
              && ClueSums(m.horizontal[i][j], m.vertical[i][j]) == DecodeToken(tokens[i][j])
  {
    SumMatrices(
      seq(|tokens|, i requires 0 <= i < |tokens| =>
        seq(|tokens[i]|, j requires 0 <= j < |tokens[i]| => DecodeToken(tokens[i][j]).horizontal as int)),
      seq(|tokens|, i requires 0 <= i < |tokens| =>
        seq(|tokens[i]|, j requires 0 <= j < |tokens[i]| => DecodeToken(tokens[i][j]).vertical as int)))
  }
}
