# gridplay-rs board model

A Dafny model of the grid and successor generator of `src/board.rs`. The
board holds a level as a matrix of bytes, and each byte is also the cost of
entering that cell. At construction it picks a movement mask: the eight
surrounding steps when diagonal moves are allowed, a fixed four-step list
otherwise. `successors` takes a position, adds each step of the mask to it
in mask order, keeps the candidates that `ok_col` and `ok_row` accept, and
tags each kept cell with its byte as the cost. `successors` is the
neighbour function a path search would expand nodes with; no search is part
of the modelled sources.

The source is pure iterator code, so the model is pure too: datatypes,
functions and lemmas, and no classes or loops.

- `seqs.dfy` (module `Seqs`) models the iterator adaptors the code uses: the
  inclusive range `-1..=1`, itertools' `cartesian_product`, and
  `filter`/`collect`. It also holds the facts the board needs about them: a
  filter keeps exactly the accepted elements, it keeps them as a subsequence,
  and over a repeat-free input it is the only such subsequence.
- `board.dfy` (module `Board`) has `Pos`, `Board`, `Successor`, `new`,
  `surroundings`, `ok_col`/`ok_row` and `successors`. It proves the mask
  shapes, the per-successor guarantees (on the board, and cost equal to the
  cell's byte), that the output is exactly the on-board candidates in mask
  order, and closed-form successor counts for both masks. Corner and
  interior counts on any board follow from those.
- `board_tests.dfy` (module `BoardTests`) restates the unit tests of
  `src/board.rs` on the level `LEVEL_0` as lemmas, proved from the general
  lemmas.

Rust's fixed-width integers are handled as follows:
- Width, height and bytes are `U8`, and costs are `U32`.
- Coordinates are unbounded `int`s. The `i16` arithmetic is covered by
  the precondition `NoOverflow`.
- The `as u8` narrowing in `new` is covered by preconditions that the
  level has fewer than 256 rows and its first row fewer than 256 bytes.

A level row is given as its bytes, that is the `as_bytes` of the row string.

Two behaviours of `src/board.rs` worth stating:
- `new` does not check that rows have equal length. A ragged level builds
  a board (`BoardTests.RaggedLevelAccepted`). The model calls `successors`
  only on boards whose first `height` rows are each at least `width` bytes
  long (`Indexable`), and `New` states exactly when that holds.
- Without diagonal moves the mask is `[(0,-1), (-1,0), (1,0), (1,1)]`, as the
  code writes it: it has no step straight down and it has one diagonal step.
  So corners do not all have two successors. The top-right corner has one
  (`Board.StraightCorners`).

## Model

| member | source | states |
|---|---|---|
| `Seqs.RangeInclusive` | src/board.rs:89-90 | the range `lo..=hi` has `hi - lo + 1` elements (none when `lo > hi`), the `i`-th being `lo + i` |
| `Seqs.CartesianProduct` | src/board.rs:89-90 | the product has `|xs| * |ys|` pairs and holds `(x, y)` exactly when `x` is in `xs` and `y` in `ys` |
| `Seqs.FilterSound` | src/board.rs:65-67 | filtering keeps exactly the elements the predicate accepts, no more elements than the input, as a subsequence in input order |
| `Seqs.FilterUnique` | src/board.rs:65-67 | over a repeat-free input, any subsequence that keeps exactly the accepted elements equals the filter's output |
| `Board.DiagonalOffsets` | src/board.rs:89-92 | the 3 x 3 block of offsets, column delta outer, with `(0,0)` filtered out, is exactly the eight offsets `(-1,-1) … (1,1)` in cartesian order |
| `Board.Surroundings` | src/board.rs:83-96 | with diagonal moves the mask is the eight offsets in cartesian order; otherwise it is `[(0,-1), (-1,0), (1,0), (1,1)]` |
| `Board.DiagonalDistinct` | src/board.rs:89-92 | the diagonal mask repeats no offset |
| `Board.DiagonalMembers` | src/board.rs:89-92 | an offset is in the diagonal mask exactly when both deltas are in `-1..=1` and it is not `(0,0)` |
| `Board.SurroundingsShape` | src/board.rs:83-96 | both masks have 8 or 4 offsets, none repeated, never `(0,0)`, each delta in `-1..=1`; with diagonals, membership is exactly "unit step other than `(0,0)`" |
| `Board.UnitSteps` | src/board.rs:89-94 | every offset of either mask moves at most one cell along each axis |
| `Board.New` | src/board.rs:16-30 | an empty level is refused; otherwise height is the number of rows, width the length of row 0, data the rows' bytes, and the mask `surroundings(move_diagonal)`; the board can be indexed wherever `successors` looks exactly when no row is shorter than row 0 |
| `Board.Successors` | src/board.rs:56-80 | at most one successor per mask offset; every successor passes `ok_col` and `ok_row` and its cost is the byte stored at its own cell |
| `Board.SuccessorsAreOnBoardCandidates` | src/board.rs:57-72 | the successors' positions are the candidates `p + d` that lie on the board, in mask order: a subsequence of the candidates holding exactly the on-board ones |
| `Board.SuccessorsExcludeOrigin` | src/board.rs:57-72 | when the mask lacks `(0,0)`, a position is never among its own successors |
| `Board.SuccessorsDistinct` | src/board.rs:57-72 | under a repeat-free mask, no position appears twice among the successors |
| `Board.SuccessorsDetermined` | src/board.rs:57-72 | under a repeat-free mask, any list of on-board candidates in mask order, covering all of them, each with its cell's byte as cost, is the output of `successors` |
| `Board.SuccessorsCount` | src/board.rs:65-72 | the number of successors is the number of candidates that lie on the board |
| `Board.OnBoardNoOverflow` | src/board.rs:57-61 | from an on-board position, unit steps never leave the `i16` range |
| `Board.DiagonalCount` | src/board.rs:56-73 | with diagonal moves, an on-board position has (cells of `col-1..=col+1` on the board) x (cells of `row-1..=row+1` on the board) - 1 successors |
| `Board.DiagonalCorner` | src/board.rs:140-152 | with diagonal moves, every corner of a board at least 2 x 2 has exactly 3 successors |
| `Board.DiagonalInterior` | src/board.rs:153-162 | with diagonal moves, a position off the edges has exactly 8 successors, namely all eight candidates in mask order |
| `Board.StraightCount` | src/board.rs:94 | without diagonal moves, an on-board position's successor count is [row > 0] + [col > 0] + [col + 1 < width] + [col + 1 < width and row + 1 < height] |
| `Board.StraightCorners` | src/board.rs:130-137 | without diagonal moves, on a board at least 2 x 2 the top-left, bottom-left and bottom-right corners have 2 successors and the top-right corner has 1 |
| `Board.StraightTopLeft` | src/board.rs:130-137 | without diagonal moves, the top-left corner's successors are `(1,0)` then `(1,1)` |
| `Board.StraightInterior` | src/board.rs:94 | without diagonal moves, a position off the edges has exactly 4 successors |
| `BoardTests.BoardSize` | src/board.rs:123-128 | `LEVEL_0` builds a 4 x 4 board that `successors` can index everywhere, for either mask |
| `BoardTests.SuccNoDiag` | src/board.rs:129-137 | without diagonal moves on `LEVEL_0` the mask has 4 offsets and `(0,0)` has the successors `(1,0)`, `(1,1)` |
| `BoardTests.SuccCorners` | src/board.rs:139-152 | with diagonal moves on `LEVEL_0` each of the four corners has 3 successors |
| `BoardTests.Succ11` | src/board.rs:153-162 | with diagonal moves on `LEVEL_0`, `(1,1)` has 8 successors, the first three at `(0,0)`, `(0,1)`, `(0,2)`, each costing the byte of `.` |
| `BoardTests.RaggedLevelAccepted` | src/board.rs:16-23 | a level whose second row is shorter than its first still builds a board, and that board is not indexable everywhere |

## Left out

- `Board::print` (src/board.rs:31-54) writes to the console and has no logic to verify. It converts rows with UTF-8 and `unwrap`, and it assumes the positions it marks are sorted without checking.
- `src/main.rs` is not part of this model. It is a demo driver with an older `Board` that stores `Option<u8>` and has no successor logic.
- No path search appears in `src/board.rs` or `src/main.rs`, and none is modelled.
- The derived orderings of `Pos` and `Successor` (`Ord`, `PartialOrd`) are not modelled. Nothing in `src/board.rs` compares positions or successors by order.
- The row strings' UTF-8 encoding is not modelled. A level row is taken as its bytes.
- New: requires fewer than 256 rows and a first row shorter than 256 bytes, because the source narrows both lengths with `as u8`. The wrap-around of longer levels is not modelled.
- Successors: requires every candidate coordinate to fit in `i16`, because the source adds coordinates in `i16`. The overflow behaviour (a panic in debug builds, wrap-around in release builds) is not modelled.
- Successors: requires `Indexable` of every board it is called on. That is stronger than one call needs: the source panics only when a kept candidate lies past the end of a short row. Calls on ragged levels are not modelled.
