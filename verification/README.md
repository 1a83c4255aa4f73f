# Kakuro solver core in Dafny

A model of the pure core of `KakuroSolver/KakuroSolver.cs`, a Kakuro solver
that hands its puzzle to the OR-Tools constraint solver. The program has two
paths that never meet, and the model keeps them apart:

1. **Clue file to sum list.** The CSV file's first line fixes the column
   count (one more than its commas); every line is split at commas and its
   first fields kept; each token `H\V` is split at its first backslash into a
   horizontal sum (before) and a vertical sum (after), an empty side or a
   token without backslash giving 0; the positive horizontal sums in
   row-major order, followed by the positive vertical sums in row-major
   order, form the sum list. Modules `Digits`, `Csv`, `Clues`, `SumList`.
2. **Hard-coded puzzle to solutions.** Each segment is a record
   `{sum, r1,c1, r2,c2, ...}` with one-based coordinates; the program creates
   an `n x m` matrix of variables with domain 0..9, fixes every blank to 0,
   and for every segment posts "each cell at least 1", "the cells add up to
   the sum" and "the cells are all different". It then asks for every
   solution, binding the first unbound variable of the row-major flattened
   matrix to its smallest value first. Modules `Segments` (record decoding),
   `Puzzle` (the puzzle, `Build`, and the declarative `Satisfies`),
   `Constraints` (one `Constraint` value per `solver.Add`, and the proof that
   they mean exactly `Satisfies`), `Search` (a backtracking enumerator with
   that variable and value order, proved sound, complete and strictly
   increasing in lexicographic order), and `Example` (the program's own
   7 x 7 puzzle).

A grid is the matrix's values flattened row by row, a `seq<int>` of length
`rows * cols`; cell `(r, c)` is at position `r * cols + c`.

The program does not derive segments from the clue grid; the sums it reads
are only listed. Blank cells get variables fixed to 0 rather than being left
out. The horizontal sum is the side before the backslash.

## Model

| member | source | states |
|---|---|---|
| Digits.ParseShow | KakuroSolver/KakuroSolver.cs:119-122 | parsing the shortest decimal spelling of any natural number gives that number back |
| Digits.ShowParse | KakuroSolver/KakuroSolver.cs:119-122 | a digit string without superfluous leading zeros is the spelling of the value it parses to, so parsing is a bijection on such strings |
| Digits.LeadingZeroIgnored | KakuroSolver/KakuroSolver.cs:119 | a leading zero does not change the parsed value |
| Csv.CountChar | KakuroSolver/KakuroSolver.cs:86-87 | counting one character at a time yields the number of occurrences of the separator (its multiset count) |
| Csv.Split | KakuroSolver/KakuroSolver.cs:100 | a line splits into at least one field, and no field contains a comma |
| Csv.SplitLength | KakuroSolver/KakuroSolver.cs:86-87 | a line splits into exactly one more field than it has commas |
| Csv.JoinSplit | KakuroSolver/KakuroSolver.cs:100 | joining the fields of a split with the separator gives the line back |
| Csv.SplitJoin | KakuroSolver/KakuroSolver.cs:100 | splitting a join of separator-free fields gives the fields back |
| Csv.ColumnCount | KakuroSolver/KakuroSolver.cs:86-87 | the column count (commas of the first line plus one) is the number of fields of the first line, at least 1 |
| Csv.ReadTokens | KakuroSolver/KakuroSolver.cs:86-105 | an empty file fails at `lines[0]`; otherwise the first row with fewer fields than the column count fails; otherwise every row keeps exactly its first column-count fields, so the token matrix is rectangular |
| Clues.IndexOf | KakuroSolver/KakuroSolver.cs:114 | -1 exactly when the character is absent; otherwise a position holding it with no earlier occurrence |
| Clues.DecodeToken | KakuroSolver/KakuroSolver.cs:108-123 | a token without backslash gives sums (0, 0), and both sums fit in 32 bits |
| Clues.DecodeTokenAtFirstSeparator | KakuroSolver/KakuroSolver.cs:114-122 | at the first backslash of a token, the horizontal sum is the value of the digit text before it and the vertical sum the value of the digit text after it, an empty side giving 0 |
| Clues.DecodeEncode | KakuroSolver/KakuroSolver.cs:114-123 | every pair of 32-bit sums written as `H\V` (a 0 side left empty) decodes back to that pair |
| Clues.DecodeMatrices | KakuroSolver/KakuroSolver.cs:108-126 | the two sum matrices have the token matrix's shape, hold the decoded sums of each cell, and are 0 at every cell without backslash |
| SumList.FlattenIndex | KakuroSolver/KakuroSolver.cs:148-155 | flattening is row-major: cell (i, j) of a matrix with `cols` columns lands at position `i * cols + j` |
| SumList.Positives | KakuroSolver/KakuroSolver.cs:152-153 | the kept entries are all positive and no more than the entries looked at |
| SumList.PositivesCount | KakuroSolver/KakuroSolver.cs:152-153 | every positive value is kept exactly as often as it occurs |
| SumList.PositivesAppend | KakuroSolver/KakuroSolver.cs:147-163 | keeping the positive entries of a concatenation keeps those of each part in order |
| SumList.AppendRow | KakuroSolver/KakuroSolver.cs:150-154 | the inner loop over one row appends exactly that row's positive entries, in order |
| SumList.AppendPositives | KakuroSolver/KakuroSolver.cs:148-155 | the nested row/column loop appends exactly the positive entries of the flattened matrix |
| SumList.CollectSums | KakuroSolver/KakuroSolver.cs:147-163 | the two loop nests build the positive horizontal sums in row-major order followed by the positive vertical sums |
| SumList.OrderedSumsCounts | KakuroSolver/KakuroSolver.cs:147-163 | no zero or negative value is in the sum list, and each positive value appears in it as often as cells of the two matrices carry it |
| SumList.OrderedSumsMembers | KakuroSolver/KakuroSolver.cs:147-163 | a number is in the sum list exactly when it is positive and some cell of either matrix carries it |
| SumList.ReadSums | KakuroSolver/KakuroSolver.cs:86-163 | the whole CSV path fails exactly when reading the token matrix fails, with the same error, and otherwise yields the ordered sum list of the decoded matrices |
| Segments.Coordinates | KakuroSolver/KakuroSolver.cs:44-47 | a coordinate array names `len / 2` cells, cell i being `(s2[2i] - 1, s2[2i+1] - 1)`; an unpaired last entry is ignored |
| Segments.DecodeRecord | KakuroSolver/KakuroSolver.cs:271-283 | an empty record has no segment; otherwise the sum is the first entry and the cells are the following pairs, in order, shifted to zero-based |
| Segments.DecodeEncode | KakuroSolver/KakuroSolver.cs:275-279 | every segment written as a record decodes back to itself |
| Segments.EncodeDecode | KakuroSolver/KakuroSolver.cs:275-279 | re-encoding a decoded record gives the record when its length is odd and drops only its unpaired last entry when it is even |
| Puzzle.Index | KakuroSolver/KakuroSolver.cs:254-255 | a cell inside the matrix has a position inside the flattened matrix |
| Puzzle.IndexInjective | KakuroSolver/KakuroSolver.cs:254-255 | two different cells inside the matrix have different flattened positions |
| Puzzle.Build | KakuroSolver/KakuroSolver.cs:262-284 | posting succeeds exactly when every blank and every segment cell lies inside the matrix and no record is empty; the puzzle then holds the shifted blanks and the decoded records in order; otherwise the error names the first failing blank, or, with all blanks fine, the first failing record and whether it was empty |
| Puzzle.UncoveredCellIsFree | KakuroSolver/KakuroSolver.cs:254-284 | a cell that is neither blank nor in any segment may take any digit 0..9 without breaking a solution |
| Constraints.HoldsOnPrefix | KakuroSolver/KakuroSolver.cs:289-291 | a constraint that holds on a partial grid still holds when later variables are unbound, so pruning a branch never loses a solution |
| Constraints.LowerBoundsHold | KakuroSolver/KakuroSolver.cs:43-48 | the per-cell constraints `>= 1` of a segment hold on a complete grid exactly when each of its values is at least 1 |
| Constraints.AllDifferentHolds | KakuroSolver/KakuroSolver.cs:55-57 | the `AllDifferent` constraint holds on a complete grid exactly when the segment's values are pairwise distinct |
| Constraints.CalcMeansSegmentHolds | KakuroSolver/KakuroSolver.cs:38-59 | a complete grid meets what `calc` posts for a segment exactly when the segment's digits are all at least 1, add up to its sum and differ pairwise |
| Constraints.SegmentConstraintsMeanSegmentsHold | KakuroSolver/KakuroSolver.cs:267-284 | a complete grid meets the constraints of all segments exactly when every segment holds |
| Constraints.PostMeansSatisfies | KakuroSolver/KakuroSolver.cs:254-284 | a complete grid meets every posted constraint (domains 0..9, blanks 0, each segment) exactly when it satisfies the puzzle |
| Constraints.ConsistentDigit | KakuroSolver/KakuroSolver.cs:254 | every bound variable of a grid meeting the posted constraints holds a digit 0..9 |
| Search.ExtendExact | KakuroSolver/KakuroSolver.cs:289-293 | the search below a partial grid emits exactly the complete grids that continue it and meet every posted constraint |
| Search.BranchExact | KakuroSolver/KakuroSolver.cs:289-291 | trying the first unbound variable from value v upward emits exactly those continuations whose value there is at least v |
| Search.SolutionsExact | KakuroSolver/KakuroSolver.cs:289-298 | a grid is emitted if and only if it satisfies the puzzle (soundness and completeness) |
| Search.SolutionsIncreasing | KakuroSolver/KakuroSolver.cs:289-291 | the emitted grids are in strictly increasing lexicographic order, so none is emitted twice |
| Search.FirstSolutionIsLeast | KakuroSolver/KakuroSolver.cs:289-298 | the first emitted grid is the lexicographically least solution |
| Example.ExampleBuilds | KakuroSolver/KakuroSolver.cs:198-265 | the program's own 7 x 7 puzzle (its 24 records and 13 blanks) posts without error |

## Left out

- Reading the file from its fixed relative path, and all console output (the raw lines, the sum matrices, the sum list, the row and column counts, the solutions): I/O only. `Csv.ReadTokens` takes the file's lines as a parameter.
- The OR-Tools engine itself (propagation, `NewSearch`, `NextSolution`, `EndSearch`) and its statistics (solutions, wall time, failures, branches): a foreign library. `Search` enumerates by the same variable and value order against the meaning of the posted constraints; its pruning only checks constraints whose variables are bound, which changes how much is searched, never what is emitted.
- Clues.DecodeToken: admits only tokens whose sides are ASCII digit strings of value at most 2^31 - 1; `int.Parse`'s handling of signs, white space, other characters and overflow is not modelled.
- SumList.ReadSums: requires, through the same condition, that every kept token parses.
- The culture-sensitive comparison `string.IndexOf(string)` may use: for a backslash it finds the same position as the ordinal search modelled by `Clues.IndexOf`.
- Deriving segments from the clue grid, sum-range checks, search budgets and truncation: the program has no such code, the solver uses only its hard-coded records and blanks.
- Puzzle.Build: a record with a sum but no coordinate pair (such as `{16}` or `{16, 1}`) makes `calc` hand an empty variable array to the OR-Tools helpers `Sum()` and `AllDifferent()`; what that library does then is not visible here, and the model assumes it posts "0 equals the sum" and an empty all-different rather than failing, so such a record builds a segment with no cells.
- Solving the hard-coded puzzle inside the verifier: `Example` checks only that it posts without error.
