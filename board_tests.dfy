/**
 * The unit tests of `src/board.rs`, stated as lemmas about the model on the
 * test level `LEVEL_0`:
 *
 *     ....
 *     ...:
 *     .::.
 *     ..:.
 */
module BoardTests {
  import opened Seqs
  import opened Board

  /** The bytes of an ASCII string. */
  function Ascii(s: string): (r: seq<U8>)
    requires forall i :: 0 <= i < |s| ==> s[i] as int < 0x80
    ensures |r| == |s|
    ensures forall i :: 0 <= i < |s| ==> r[i] == s[i] as int
  {
    seq(|s|, i requires 0 <= i < |s| => s[i] as int)
  }

  function Level0(): (level: seq<seq<U8>>)
    ensures |level| == 4 && forall i :: 0 <= i < 4 ==> |level[i]| == 4
  {
    [Ascii("...."), Ascii("...:"), Ascii(".::."), Ascii("..:.")]
  }

  /** The board `Board::new(LEVEL_0, moveDiagonal)` builds, by `BoardSize`. */
  function TestBoard(moveDiagonal: bool): Board {
    Board(4, 4, Level0(), if moveDiagonal then DiagonalDirections else StraightDirections)
  }

  /** `board_size`: the test level gives a 4 x 4 board, one `successors` can index everywhere. */
  lemma BoardSize(moveDiagonal: bool)
    ensures New(Level0(), moveDiagonal) == Ok(TestBoard(moveDiagonal))
    ensures TestBoard(moveDiagonal).width == 4 && TestBoard(moveDiagonal).height == 4
    ensures Indexable(TestBoard(moveDiagonal))
  {
  }

  /**
   * `succ_no_diag`: without diagonal moves the mask has four steps and the
   * top-left corner has two successors, `(1, 0)` and `(1, 1)`.
   */
  lemma SuccNoDiag(b: Board)
    requires New(Level0(), false) == Ok(b)
    ensures |b.moveableDirections| == 4
    ensures NoOverflow(Pos(0, 0), b.moveableDirections)
    ensures Positions(Successors(b, Pos(0, 0))) == [Pos(1, 0), Pos(1, 1)]
  {
    BoardSize(false);
    StraightTopLeft(b);
  }

  /** `succ_corners`: with diagonal moves every corner has three successors. */
  lemma SuccCorners(b: Board)
    requires New(Level0(), true) == Ok(b)
    ensures forall p :: p in {Pos(0, 0), Pos(3, 0), Pos(0, 3), Pos(3, 3)} ==>
      NoOverflow(p, b.moveableDirections) && |Successors(b, p)| == 3
  {
    BoardSize(true);
    forall p | p in {Pos(0, 0), Pos(3, 0), Pos(0, 3), Pos(3, 3)}
      ensures NoOverflow(p, b.moveableDirections) && |Successors(b, p)| == 3
    {
      DiagonalCorner(b, p);
    }
  }

  /**
   * `succ_1_1`: with diagonal moves `(1, 1)` has eight successors, the first
   * three at `(0, 0)`, `(0, 1)` and `(0, 2)`, each costing the byte of `.`.
   */
  lemma Succ11(b: Board)
    requires New(Level0(), true) == Ok(b)
    ensures Indexable(b) && NoOverflow(Pos(1, 1), b.moveableDirections)
    ensures |Successors(b, Pos(1, 1))| == 8
    ensures Successors(b, Pos(1, 1))[0] == Successor(Pos(0, 0), '.' as int)
    ensures Successors(b, Pos(1, 1))[1] == Successor(Pos(0, 1), '.' as int)
    ensures Successors(b, Pos(1, 1))[2] == Successor(Pos(0, 2), '.' as int)
  {
    BoardSize(true);
    DiagonalInterior(b, Pos(1, 1));
    var r := Successors(b, Pos(1, 1));
    assert Positions(r)[0] == Pos(0, 0) && Positions(r)[1] == Pos(0, 1) && Positions(r)[2] == Pos(0, 2);
    assert b.data == Level0();
    var dot := '.' as int;
    assert b.data[0][0] == dot && b.data[1][0] == dot && b.data[2][0] == dot;
    assert r[0] == Successor(Pos(0, 0), dot);
    assert r[1] == Successor(Pos(0, 1), dot);
    assert r[2] == Successor(Pos(0, 2), dot);
  }

  /**
   * Rows are not checked against each other: a level whose second row is
   * shorter than its first still builds a board, one that `successors` could
   * not index everywhere.
   */
  lemma RaggedLevelAccepted()
    ensures New([Ascii(".."), Ascii(".")], true).Ok?
    ensures !Indexable(New([Ascii(".."), Ascii(".")], true).value)
  {
    var level := [Ascii(".."), Ascii(".")];
    assert |level[1]| < |level[0]|;
  }
}
