/**
 * The grid of traversal costs and its successor generator (`src/board.rs`):
 * a board built from level rows, the movement mask chosen at construction,
 * and the neighbour enumeration a path search expands nodes with.
 */
module Board {
  import opened Seqs

  /** Rust's `u8`: the board's dimensions and each cell's byte. */
  type U8 = x: int | 0 <= x < 0x100

  /** Rust's `u32`: the type a successor's cost is widened to. */
  type U32 = x: int | 0 <= x < 0x1_0000_0000

  const I16Min: int := -0x8000
  const I16Max: int := 0x7FFF

  /** Whether a value fits Rust's `i16`, the type of coordinates and offsets. */
  predicate InI16(x: int) {
    I16Min <= x <= I16Max
  }

  /** A cell's coordinates: column first, then row. */
  datatype Pos = Pos(col: int, row: int)

  /** A step `(column delta, row delta)` of the movement mask. */
  type Offset = (int, int)

  /**
   * The level as a byte matrix, `data[row][col]`, its dimensions, and the
   * offsets a step may take.
   */
  datatype Board = Board(width: U8, height: U8, data: seq<seq<U8>>, moveableDirections: seq<Offset>)

  /** A neighbour reachable in one step, with the cost of entering it. */
  datatype Successor = Successor(pos: Pos, cost: U32)

  /** `new` refuses a level without rows (its `assert!` panics). */
  datatype Error = EmptyLevel

  datatype Result<T> = Ok(value: T) | Err(error: Error)

  /**
   * What indexing `data[row][col]` needs for every in-bounds position:
   * `height` rows, each at least `width` bytes long.
   */
  ghost predicate Indexable(b: Board) {
    && b.height <= |b.data|
    && forall i :: 0 <= i < b.height ==> b.width <= |b.data[i]|
  }

  /** The eight steps with diagonal moves, column delta varying slowest. */
  const DiagonalDirections: seq<Offset> :=
    [(-1, -1), (-1, 0), (-1, 1), (0, -1), (0, 1), (1, -1), (1, 0), (1, 1)]

  /** The four steps without diagonal moves, as the source lists them. */
  const StraightDirections: seq<Offset> := [(0, -1), (-1, 0), (1, 0), (1, 1)]

  /** Any step except standing still. */
  predicate NotOrigin(d: Offset) {
    d != (0, 0)
  }

  /** One column of the 3 x 3 block: the column delta `x` with each row delta. */
  lemma ColumnOfOffsets(x: int)
    ensures PairsWith(x, [-1, 0, 1]) == [(x, -1), (x, 0), (x, 1)]
  {
    var ys: seq<int> := [-1, 0, 1];
    assert ys[1..] == [0, 1] && ys[1..][1..] == [1] && ys[1..][1..][1..] == [];
  }

  /** The 3 x 3 block of offsets, column delta varying slowest. */
  lemma BlockOfOffsets()
    ensures CartesianProduct(RangeInclusive(-1, 1), RangeInclusive(-1, 1))
         == PairsWith(-1, [-1, 0, 1]) + PairsWith(0, [-1, 0, 1]) + PairsWith(1, [-1, 0, 1])
  {
    var xs := RangeInclusive(-1, 1);
    assert xs == [-1, 0, 1];
    assert xs[1..] == [0, 1] && xs[1..][1..] == [1] && xs[1..][1..][1..] == [];
    assert CartesianProduct([1], xs) == PairsWith(1, xs) + [];
  }

  /** One column of the block with the centre removed. */
  lemma FilteredColumn(x: int)
    ensures Filter(NotOrigin, [(x, -1), (x, 0), (x, 1)])
         == if x == 0 then [(0, -1), (0, 1)] else [(x, -1), (x, 0), (x, 1)]
  {
    var c: seq<Offset> := [(x, -1), (x, 0), (x, 1)];
    assert c[1..] == [(x, 0), (x, 1)] && c[1..][1..] == [(x, 1)] && c[1..][1..][1..] == [];
    assert Filter(NotOrigin, c[1..][1..]) == [(x, 1)];
  }

  /** The three filtered columns, joined. */
  lemma JoinColumns()
    ensures [(-1, -1), (-1, 0), (-1, 1)] + [(0, -1), (0, 1)] + [(1, -1), (1, 0), (1, 1)]
         == [(-1, -1), (-1, 0), (-1, 1), (0, -1), (0, 1), (1, -1), (1, 0), (1, 1)]
  {
  }

  /** The 3 x 3 block of offsets with the centre removed, evaluated. */
  lemma DiagonalOffsets()
    ensures Filter(NotOrigin, CartesianProduct(RangeInclusive(-1, 1), RangeInclusive(-1, 1)))
         == [(-1, -1), (-1, 0), (-1, 1), (0, -1), (0, 1), (1, -1), (1, 0), (1, 1)]
  {
    var left, middle, right := PairsWith(-1, [-1, 0, 1]), PairsWith(0, [-1, 0, 1]), PairsWith(1, [-1, 0, 1]);
    ColumnOfOffsets(-1);
    ColumnOfOffsets(0);
    ColumnOfOffsets(1);
    BlockOfOffsets();
    FilterAppend(NotOrigin, left + middle, right);
    FilterAppend(NotOrigin, left, middle);
    FilteredColumn(-1);
    FilteredColumn(0);
    FilteredColumn(1);
    var fl, fm, fr := Filter(NotOrigin, left), Filter(NotOrigin, middle), Filter(NotOrigin, right);
    assert fl == [(-1, -1), (-1, 0), (-1, 1)];
    assert fm == [(0, -1), (0, 1)];
    assert fr == [(1, -1), (1, 0), (1, 1)];
    calc {
      Filter(NotOrigin, CartesianProduct(RangeInclusive(-1, 1), RangeInclusive(-1, 1)));
      Filter(NotOrigin, left + middle + right);
      fl + fm + fr;
      [(-1, -1), (-1, 0), (-1, 1)] + [(0, -1), (0, 1)] + [(1, -1), (1, 0), (1, 1)];
      { JoinColumns(); }
      [(-1, -1), (-1, 0), (-1, 1), (0, -1), (0, 1), (1, -1), (1, 0), (1, 1)];
    }
  }

  /**
   * The movement mask: the eight offsets around the origin in cartesian
   * order (column delta in the outer loop) when diagonal moves are allowed,
   * otherwise the fixed four-offset list.
   */
  function Surroundings(moveDiagonal: bool): (r: seq<Offset>)
    ensures r == if moveDiagonal then DiagonalDirections else StraightDirections
  {
    if moveDiagonal then
      DiagonalOffsets();
      Filter(NotOrigin, CartesianProduct(RangeInclusive(-1, 1), RangeInclusive(-1, 1)))
    else
      [(0, -1), (-1, 0), (1, 0), (1, 1)]
  }

  /** The diagonal mask has no repeated step. */
  lemma DiagonalDistinct()
    ensures Distinct(DiagonalDirections)
  {
    var m := DiagonalDirections;
    forall i, j | 0 <= i < j < |m| ensures m[i] != m[j] {
      assert m[i].0 < m[j].0 || (m[i].0 == m[j].0 && m[i].1 < m[j].1);
    }
  }

  /** The diagonal mask is the 3 x 3 block of unit steps without standing still. */
  lemma DiagonalMembers()
    ensures forall d: Offset :: d in DiagonalDirections <==> d != (0, 0) && -1 <= d.0 <= 1 && -1 <= d.1 <= 1
  {
    forall d: Offset | d != (0, 0) && -1 <= d.0 <= 1 && -1 <= d.1 <= 1 ensures d in DiagonalDirections {
      assert d.0 in {-1, 0, 1} && d.1 in {-1, 0, 1};
    }
  }

  /**
   * Both masks are free of repeats and of `(0, 0)`, and every step moves by
   * at most one cell in each direction; with diagonal moves the mask holds
   * exactly the steps of the 3 x 3 block other than standing still.
   */
  lemma SurroundingsShape(moveDiagonal: bool)
    ensures |Surroundings(moveDiagonal)| == if moveDiagonal then 8 else 4
    ensures Distinct(Surroundings(moveDiagonal))
    ensures (0, 0) !in Surroundings(moveDiagonal)
    ensures forall d :: d in Surroundings(moveDiagonal) ==> -1 <= d.0 <= 1 && -1 <= d.1 <= 1
    ensures moveDiagonal ==>
      forall d: Offset :: d in Surroundings(moveDiagonal) <==> d != (0, 0) && -1 <= d.0 <= 1 && -1 <= d.1 <= 1
  {
    if moveDiagonal {
      DiagonalDistinct();
      DiagonalMembers();
    }
  }

  /**
   * `new`: one row of the board per level row, its width taken from the first
   * row; an empty level is refused. The rows are not checked against each
   * other.
   */
  function New(level: seq<seq<U8>>, moveDiagonal: bool): (r: Result<Board>)
    requires |level| < 0x100
    requires |level| > 0 ==> |level[0]| < 0x100
    ensures r.Err? <==> level == []
    ensures r.Ok? ==> r.value.height == |level| && r.value.width == |level[0]|
    ensures r.Ok? ==> r.value.data == level && r.value.moveableDirections == Surroundings(moveDiagonal)
    ensures r.Ok? ==> (Indexable(r.value) <==> forall i :: 0 <= i < |level| ==> |level[0]| <= |level[i]|)
  {
    var height: U8 := |level|;
    if height == 0 then Err(EmptyLevel)
    else
      var width: U8 := |level[0]|;
      Ok(Board(width, height, level, Surroundings(moveDiagonal)))
  }

  /** `ok_col`: the column lies on the board. */
  predicate OkCol(b: Board, x: int) {
    x >= 0 && x < b.width
  }

  /** `ok_row`: the row lies on the board. */
  predicate OkRow(b: Board, y: int) {
    y >= 0 && y < b.height
  }

  predicate InBounds(b: Board, q: Pos) {
    OkCol(b, q.col) && OkRow(b, q.row)
  }

  /** The bounds test as a value, for filtering. */
  function InBoundsOf(b: Board): Pos -> bool {
    q => InBounds(b, q)
  }

  /**
   * Every step of the mask from `p` stays within `i16`, as the position
   * arithmetic requires.
   */
  predicate NoOverflow(p: Pos, mask: seq<Offset>) {
    && InI16(p.col) && InI16(p.row)
    && forall d :: d in mask ==> InI16(p.col + d.0) && InI16(p.row + d.1)
  }

  /** The candidate positions: `p` moved by each offset, in mask order. */
  function Frame(p: Pos, mask: seq<Offset>): (r: seq<Pos>)
    ensures |r| == |mask|
  {
    seq(|mask|, i requires 0 <= i < |mask| => Pos(p.col + mask[i].0, p.row + mask[i].1))
  }

  /** The positions of a list of successors. */
  function Positions(s: seq<Successor>): (r: seq<Pos>)
    ensures |r| == |s|
  {
    seq(|s|, i requires 0 <= i < |s| => s[i].pos)
  }

  /**
   * `successors`: the candidates of the frame that lie on the board, in mask
   * order, each tagged with the byte of the cell it names.
   */
  function Successors(b: Board, p: Pos): (r: seq<Successor>)
    requires Indexable(b)
    requires NoOverflow(p, b.moveableDirections)
    ensures |r| <= |b.moveableDirections|
    ensures forall i :: 0 <= i < |r| ==>
      InBounds(b, r[i].pos) && r[i].cost == b.data[r[i].pos.row][r[i].pos.col]
  {
    var kept := Filter(InBoundsOf(b), Frame(p, b.moveableDirections));
    FilterSound(InBoundsOf(b), Frame(p, b.moveableDirections));
    seq(|kept|, i requires 0 <= i < |kept| => Successor(kept[i], b.data[kept[i].row][kept[i].col]))
  }

  /**
   * The successors name exactly the candidates that lie on the board, in
   * the order of the mask.
   */
  lemma SuccessorsAreOnBoardCandidates(b: Board, p: Pos)
    requires Indexable(b)
    requires NoOverflow(p, b.moveableDirections)
    ensures Positions(Successors(b, p)) == Filter(InBoundsOf(b), Frame(p, b.moveableDirections))
    ensures IsSubsequence(Positions(Successors(b, p)), Frame(p, b.moveableDirections))
    ensures forall q :: q in Positions(Successors(b, p)) <==> q in Frame(p, b.moveableDirections) && InBounds(b, q)
  {
    FilterSound(InBoundsOf(b), Frame(p, b.moveableDirections));
    assert Positions(Successors(b, p)) == Filter(InBoundsOf(b), Frame(p, b.moveableDirections));
  }

  /** A position is never its own successor, as the mask never holds `(0, 0)`. */
  lemma SuccessorsExcludeOrigin(b: Board, p: Pos)
    requires Indexable(b)
    requires NoOverflow(p, b.moveableDirections)
    requires (0, 0) !in b.moveableDirections
    ensures p !in Positions(Successors(b, p))
  {
    var fr := Frame(p, b.moveableDirections);
    SuccessorsAreOnBoardCandidates(b, p);
    forall k | 0 <= k < |fr| ensures fr[k] != p {
      assert b.moveableDirections[k] in b.moveableDirections;
    }
  }

  /** Distinct offsets give distinct candidates. */
  lemma FrameDistinct(p: Pos, mask: seq<Offset>)
    requires Distinct(mask)
    ensures Distinct(Frame(p, mask))
  {
    var fr := Frame(p, mask);
    forall i, j | 0 <= i < j < |fr| ensures fr[i] != fr[j] {
      assert mask[i] != mask[j];
    }
  }

  /** Under a mask without repeated offsets, no position is a successor twice. */
  lemma SuccessorsDistinct(b: Board, p: Pos)
    requires Indexable(b)
    requires NoOverflow(p, b.moveableDirections)
    requires Distinct(b.moveableDirections)
    ensures Distinct(Positions(Successors(b, p)))
  {
    SuccessorsAreOnBoardCandidates(b, p);
    FrameDistinct(p, b.moveableDirections);
    SubsequenceDistinct(Positions(Successors(b, p)), Frame(p, b.moveableDirections));
  }

  /**
   * The successors are the only list that names exactly the in-bounds
   * candidates, in mask order, each with the cost stored at its cell: under
   * a mask without repeated offsets, any list with those properties is the
   * one `Successors` returns.
   */
  lemma SuccessorsDetermined(b: Board, p: Pos, s: seq<Successor>)
    requires Indexable(b)
    requires NoOverflow(p, b.moveableDirections)
    requires Distinct(b.moveableDirections)
    requires IsSubsequence(Positions(s), Frame(p, b.moveableDirections))
    requires forall i :: 0 <= i < |s| ==> InBounds(b, s[i].pos) && s[i].cost == b.data[s[i].pos.row][s[i].pos.col]
    requires forall q :: q in Frame(p, b.moveableDirections) && InBounds(b, q) ==> q in Positions(s)
    ensures s == Successors(b, p)
  {
    var fr, r := Frame(p, b.moveableDirections), Successors(b, p);
    var f := InBoundsOf(b);
    FrameDistinct(p, b.moveableDirections);
    forall q | q in Positions(s) ensures f(q) {
      var i :| 0 <= i < |s| && Positions(s)[i] == q;
    }
    FilterUnique(f, fr, Positions(s));
    assert Positions(s) == Positions(r);
    forall i | 0 <= i < |s| ensures s[i] == r[i] {
      assert s[i].pos == Positions(s)[i] == Positions(r)[i] == r[i].pos;
    }
  }

  /** How many of `x - 1`, `x`, `x + 1` lie in `[0, n)`. */
  function Reach(x: int, n: int): nat {
    (if 0 <= x - 1 < n then 1 else 0) + (if 0 <= x < n then 1 else 0) + (if 0 <= x + 1 < n then 1 else 0)
  }

  /** 1 for an on-board position, 0 otherwise. */
  function OnBoard(b: Board, q: Pos): nat {
    if InBounds(b, q) then 1 else 0
  }

  /** The number of successors counts the candidates that lie on the board. */
  lemma {:induction false} CountKept(b: Board, p: Pos, k: nat)
    requires k <= |b.moveableDirections|
    ensures |Filter(InBoundsOf(b), Frame(p, b.moveableDirections)[k..])| == CountOnBoard(b, Frame(p, b.moveableDirections)[k..])
    decreases |b.moveableDirections| - k
  {
    var fr := Frame(p, b.moveableDirections);
    if k < |fr| {
      FilterSuffix(InBoundsOf(b), fr, k);
      CountKept(b, p, k + 1);
      assert fr[k..][1..] == fr[k + 1..];
    }
  }

  /** How many positions of `qs` lie on the board. */
  function CountOnBoard(b: Board, qs: seq<Pos>): nat {
    if qs == [] then 0 else OnBoard(b, qs[0]) + CountOnBoard(b, qs[1..])
  }

  /** The count of on-board cells of the 3 x 3 block around `p`, by cases on the block's edges. */
  lemma BlockCount(b: Board, p: Pos)
    requires InBounds(b, p)
    ensures OnBoard(b, Pos(p.col - 1, p.row - 1)) + OnBoard(b, Pos(p.col - 1, p.row)) + OnBoard(b, Pos(p.col - 1, p.row + 1))
          + OnBoard(b, Pos(p.col, p.row - 1)) + OnBoard(b, Pos(p.col, p.row + 1))
          + OnBoard(b, Pos(p.col + 1, p.row - 1)) + OnBoard(b, Pos(p.col + 1, p.row)) + OnBoard(b, Pos(p.col + 1, p.row + 1))
         == Reach(p.col, b.width) * Reach(p.row, b.height) - 1
  {
    var cols := Reach(p.col, b.width);
    var up, down := p.row - 1 >= 0, p.row + 1 < b.height;
    var rows := Reach(p.row, b.height);
    assert rows == 1 + (if up then 1 else 0) + (if down then 1 else 0);
    if p.col - 1 >= 0 && p.col + 1 < b.width {
      assert cols == 3;
    } else if p.col - 1 >= 0 {
      assert cols == 2;
    } else if p.col + 1 < b.width {
      assert cols == 2;
    } else {
      assert cols == 1;
    }
  }

  /** The number of successors is the number of candidates on the board. */
  lemma SuccessorsCount(b: Board, p: Pos)
    requires Indexable(b)
    requires NoOverflow(p, b.moveableDirections)
    ensures |Successors(b, p)| == CountOnBoard(b, Frame(p, b.moveableDirections))
  {
    var fr := Frame(p, b.moveableDirections);
    CountKept(b, p, 0);
    assert fr[0..] == fr;
  }

  /** Counting a sequence of positions is counting each suffix in turn. */
  lemma CountOnBoardSuffix(b: Board, qs: seq<Pos>, k: int)
    requires 0 <= k < |qs|
    ensures CountOnBoard(b, qs[k..]) == OnBoard(b, qs[k]) + CountOnBoard(b, qs[k + 1..])
  {
    assert qs[k..][1..] == qs[k + 1..];
  }

  /** Counting a concatenation counts each part. */
  lemma {:induction false} CountOnBoardAppend(b: Board, xs: seq<Pos>, ys: seq<Pos>)
    ensures CountOnBoard(b, xs + ys) == CountOnBoard(b, xs) + CountOnBoard(b, ys)
  {
    if xs == [] {
      assert xs + ys == ys;
    } else {
      assert (xs + ys)[0] == xs[0];
      assert (xs + ys)[1..] == xs[1..] + ys;
      CountOnBoardAppend(b, xs[1..], ys);
    }
  }

  /** Four positions, counted one by one. */
  lemma CountFour(b: Board, qs: seq<Pos>)
    requires |qs| == 4
    ensures CountOnBoard(b, qs) == OnBoard(b, qs[0]) + OnBoard(b, qs[1]) + OnBoard(b, qs[2]) + OnBoard(b, qs[3])
  {
    CountOnBoardSuffix(b, qs, 0);
    CountOnBoardSuffix(b, qs, 1);
    CountOnBoardSuffix(b, qs, 2);
    CountOnBoardSuffix(b, qs, 3);
    assert qs[0..] == qs;
    assert qs[4..] == [];
  }

  /** The candidates of the diagonal mask, counted one by one. */
  lemma DiagonalFrameCount(b: Board, p: Pos)
    ensures CountOnBoard(b, Frame(p, DiagonalDirections))
         == OnBoard(b, Pos(p.col - 1, p.row - 1)) + OnBoard(b, Pos(p.col - 1, p.row)) + OnBoard(b, Pos(p.col - 1, p.row + 1))
          + OnBoard(b, Pos(p.col, p.row - 1)) + OnBoard(b, Pos(p.col, p.row + 1))
          + OnBoard(b, Pos(p.col + 1, p.row - 1)) + OnBoard(b, Pos(p.col + 1, p.row)) + OnBoard(b, Pos(p.col + 1, p.row + 1))
  {
    var fr := Frame(p, DiagonalDirections);
    var c, r := p.col, p.row;
    assert fr == [Pos(c - 1, r - 1), Pos(c - 1, r), Pos(c - 1, r + 1), Pos(c, r - 1),
                  Pos(c, r + 1), Pos(c + 1, r - 1), Pos(c + 1, r), Pos(c + 1, r + 1)];
    assert fr == fr[..4] + fr[4..];
    CountOnBoardAppend(b, fr[..4], fr[4..]);
    CountFour(b, fr[..4]);
    CountFour(b, fr[4..]);
  }

  /**
   * With diagonal moves, an on-board position has one successor for each
   * on-board cell of the 3 x 3 block around it, less itself.
   */
  lemma DiagonalCount(b: Board, p: Pos)
    requires Indexable(b)
    requires b.moveableDirections == DiagonalDirections
    requires NoOverflow(p, b.moveableDirections)
    requires InBounds(b, p)
    ensures |Successors(b, p)| == Reach(p.col, b.width) * Reach(p.row, b.height) - 1
  {
    SuccessorsCount(b, p);
    DiagonalFrameCount(b, p);
    BlockCount(b, p);
  }

  /** Every step of either mask moves at most one cell along each axis. */
  lemma UnitSteps(moveDiagonal: bool)
    ensures forall d :: d in (if moveDiagonal then DiagonalDirections else StraightDirections) ==>
      -1 <= d.0 <= 1 && -1 <= d.1 <= 1
  {
  }

  /** Unit steps from an on-board position never leave the `i16` range, as dimensions fit a `u8`. */
  lemma OnBoardNoOverflow(b: Board, p: Pos)
    requires InBounds(b, p)
    requires forall d :: d in b.moveableDirections ==> -1 <= d.0 <= 1 && -1 <= d.1 <= 1
    ensures NoOverflow(p, b.moveableDirections)
  {
  }

  /** The candidates of the four-step mask, counted one by one. */
  lemma StraightFrameCount(b: Board, p: Pos)
    ensures CountOnBoard(b, Frame(p, StraightDirections))
         == OnBoard(b, Pos(p.col, p.row - 1)) + OnBoard(b, Pos(p.col - 1, p.row))
          + OnBoard(b, Pos(p.col + 1, p.row)) + OnBoard(b, Pos(p.col + 1, p.row + 1))
  {
    var fr := Frame(p, StraightDirections);
    var c, r := p.col, p.row;
    assert fr == [Pos(c, r - 1), Pos(c - 1, r), Pos(c + 1, r), Pos(c + 1, r + 1)];
    CountFour(b, fr);
  }

  /**
   * Without diagonal moves, an on-board position reaches the cell above, the
   * cell to its left, the cell to its right and the cell below-right, each
   * when it is on the board; the cell below is never reached.
   */
  lemma StraightCount(b: Board, p: Pos)
    requires Indexable(b)
    requires b.moveableDirections == StraightDirections
    requires InBounds(b, p)
    ensures NoOverflow(p, b.moveableDirections)
    ensures |Successors(b, p)|
         == (if p.row > 0 then 1 else 0) + (if p.col > 0 then 1 else 0)
          + (if p.col + 1 < b.width then 1 else 0) + (if p.col + 1 < b.width && p.row + 1 < b.height then 1 else 0)
  {
    OnBoardNoOverflow(b, p);
    SuccessorsCount(b, p);
    StraightFrameCount(b, p);
  }

  /** At either end of a line of at least two cells, one neighbour is missing. */
  lemma ReachAtEdge(x: int, n: int)
    requires n >= 2 && x in {0, n - 1}
    ensures Reach(x, n) == 2
  {
  }

  /** With diagonal moves, each corner of a board at least 2 x 2 has three successors. */
  lemma DiagonalCorner(b: Board, p: Pos)
    requires Indexable(b)
    requires b.moveableDirections == DiagonalDirections
    requires b.width >= 2 && b.height >= 2
    requires p.col in {0, b.width - 1} && p.row in {0, b.height - 1}
    ensures NoOverflow(p, b.moveableDirections)
    ensures |Successors(b, p)| == 3
  {
    OnBoardNoOverflow(b, p);
    ReachAtEdge(p.col, b.width);
    ReachAtEdge(p.row, b.height);
    var n := |Successors(b, p)|;
    DiagonalCount(b, p);
    assert n == 2 * 2 - 1;
  }

  /** With diagonal moves, a position off the board's edges has all eight candidates as successors. */
  lemma DiagonalInterior(b: Board, p: Pos)
    requires Indexable(b)
    requires b.moveableDirections == DiagonalDirections
    requires 0 < p.col < b.width - 1 && 0 < p.row < b.height - 1
    ensures NoOverflow(p, b.moveableDirections)
    ensures |Successors(b, p)| == 8
    ensures Positions(Successors(b, p)) == Frame(p, DiagonalDirections)
  {
    OnBoardNoOverflow(b, p);
    assert Reach(p.col, b.width) == 3 && Reach(p.row, b.height) == 3;
    var r := Successors(b, p);
    DiagonalCount(b, p);
    assert |r| == 3 * 3 - 1;
    SuccessorsAreOnBoardCandidates(b, p);
    SubsequenceFull(Positions(r), Frame(p, DiagonalDirections));
  }

  /**
   * Without diagonal moves, on a board at least 2 x 2 the top-left and both
   * bottom corners have two successors and the top-right corner has one.
   */
  lemma StraightCorners(b: Board)
    requires Indexable(b)
    requires b.moveableDirections == StraightDirections
    requires b.width >= 2 && b.height >= 2
    ensures NoOverflow(Pos(0, 0), b.moveableDirections) && |Successors(b, Pos(0, 0))| == 2
    ensures NoOverflow(Pos(b.width - 1, 0), b.moveableDirections) && |Successors(b, Pos(b.width - 1, 0))| == 1
    ensures NoOverflow(Pos(0, b.height - 1), b.moveableDirections) && |Successors(b, Pos(0, b.height - 1))| == 2
    ensures NoOverflow(Pos(b.width - 1, b.height - 1), b.moveableDirections)
         && |Successors(b, Pos(b.width - 1, b.height - 1))| == 2
  {
    StraightCount(b, Pos(0, 0));
    StraightCount(b, Pos(b.width - 1, 0));
    StraightCount(b, Pos(0, b.height - 1));
    StraightCount(b, Pos(b.width - 1, b.height - 1));
  }

  /**
   * Without diagonal moves, the top-left corner of a board at least 2 x 2
   * reaches the cell to its right and the cell below-right, in that order.
   */
  lemma StraightTopLeft(b: Board)
    requires Indexable(b)
    requires b.moveableDirections == StraightDirections
    requires b.width >= 2 && b.height >= 2
    ensures NoOverflow(Pos(0, 0), b.moveableDirections)
    ensures Positions(Successors(b, Pos(0, 0))) == [Pos(1, 0), Pos(1, 1)]
  {
    UnitSteps(false);
    OnBoardNoOverflow(b, Pos(0, 0));
    var fr, f := Frame(Pos(0, 0), b.moveableDirections), InBoundsOf(b);
    assert fr == [Pos(0, -1), Pos(-1, 0), Pos(1, 0), Pos(1, 1)];
    assert !f(fr[0]) && !f(fr[1]) && f(fr[2]) && f(fr[3]);
    FilterSuffix(f, fr, 3);
    assert fr[4..] == [];
    FilterSuffix(f, fr, 2);
    assert Filter(f, fr[2..]) == [Pos(1, 0), Pos(1, 1)];
    FilterSuffix(f, fr, 1);
    FilterSuffix(f, fr, 0);
    assert fr[0..] == fr;
    SuccessorsAreOnBoardCandidates(b, Pos(0, 0));
  }

  /** Without diagonal moves, a position off the board's edges has all four successors. */
  lemma StraightInterior(b: Board, p: Pos)
    requires Indexable(b)
    requires b.moveableDirections == StraightDirections
    requires 0 < p.col < b.width - 1 && 0 < p.row < b.height - 1
    ensures NoOverflow(p, b.moveableDirections)
    ensures |Successors(b, p)| == 4
  {
    StraightCount(b, p);
  }
}
