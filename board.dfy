/**
 * The 4x4 board as a value: what each of the four moves makes of it, the
 * points a move earns, the terminal test (can_move) and the spawn relation.
 */
module Board {
  import opened Tiles
  import opened Line

  /** Rows of cells, board[r][c]. */
  type Grid = seq<seq<int>>

  datatype Direction = Left | Right | Up | Down

  predicate IsGrid(g: Grid) {
    |g| == Size && forall r :: 0 <= r < Size ==> |g[r]| == Size
  }

  /** A well-formed board: every cell empty or a power-of-two tile. */
  predicate IsBoard(g: Grid) {
    IsGrid(g) && forall r, c :: 0 <= r < Size && 0 <= c < Size ==> IsTile(g[r][c])
  }

  function EmptyGrid(): (g: Grid)
    ensures IsGrid(g)
  {
    seq(Size, _ => Zeros(Size))
  }

  function Column(g: Grid, c: nat): (col: seq<int>)
    requires IsGrid(g) && c < Size
    ensures |col| == Size
  {
    seq(Size, r requires 0 <= r < Size => g[r][c])
  }

  predicate Horizontal(d: Direction) {
    d.Left? || d.Right?
  }

  /** Left and Up pack toward index 0; Right and Down toward index Size - 1. */
  predicate TowardStart(d: Direction) {
    d.Left? || d.Up?
  }

  /** The i-th line a move processes: row i for Left/Right, column i for Up/Down. */
  function LineOf(g: Grid, d: Direction, i: nat): (line: seq<int>)
    requires IsGrid(g) && i < Size
    ensures |line| == Size
  {
    if Horizontal(d) then g[i] else Column(g, i)
  }

  function SlideLine(d: Direction, line: seq<int>): (r: seq<int>)
    requires |line| == Size
    ensures |r| == Size
  {
    if TowardStart(d) then SlideLeft(line) else SlideRight(line)
  }

  function LineGain(d: Direction, line: seq<int>): int {
    if TowardStart(d) then GainLeft(line) else GainRight(line)
  }

  /** The board after move_left, move_right, move_up or move_down. */
  function Move(g: Grid, d: Direction): (h: Grid)
    requires IsGrid(g)
    ensures IsGrid(h)
  {
    if Horizontal(d) then
      seq(Size, r requires 0 <= r < Size => SlideLine(d, g[r]))
    else
      seq(Size, r requires 0 <= r < Size =>
        seq(Size, c requires 0 <= c < Size => SlideLine(d, Column(g, c))[r]))
  }

  /** Points earned by the first k lines of a move. */
  function GainUpTo(g: Grid, d: Direction, k: nat): int
    requires IsGrid(g) && k <= Size
  {
    if k == 0 then 0 else GainUpTo(g, d, k - 1) + LineGain(d, LineOf(g, d, k - 1))
  }

  /** Points a move adds to the score: every tile created by a merge, once. */
  function Gain(g: Grid, d: Direction): int
    requires IsGrid(g)
  {
    GainUpTo(g, d, Size)
  }

  /** Sum of all tile values of the first k rows. */
  function SumUpTo(g: Grid, k: nat): int
    requires IsGrid(g) && k <= Size
  {
    if k == 0 then 0 else SumUpTo(g, k - 1) + Sum(g[k - 1])
  }

  function GridSum(g: Grid): int
    requires IsGrid(g)
  {
    SumUpTo(g, Size)
  }

  /** Number of occupied cells in the first k rows. */
  function CountUpTo(g: Grid, k: nat): int
    requires IsGrid(g) && k <= Size
  {
    if k == 0 then 0 else CountUpTo(g, k - 1) + |NonZero(g[k - 1])|
  }

  function TileCount(g: Grid): int
    requires IsGrid(g)
  {
    CountUpTo(g, Size)
  }

  predicate HasEmpty(g: Grid)
    requires IsGrid(g)
  {
    exists r, c :: 0 <= r < Size && 0 <= c < Size && g[r][c] == 0
  }

  /** Cell (r, c) equals its right-hand neighbour. */
  predicate EqualRight(g: Grid, r: int, c: int)
    requires IsGrid(g)
  {
    0 <= r < Size && 0 <= c < Size - 1 && g[r][c] == g[r][c + 1]
  }

  /** Cell (r, c) equals the cell below it. */
  predicate EqualBelow(g: Grid, r: int, c: int)
    requires IsGrid(g)
  {
    0 <= r < Size - 1 && 0 <= c < Size && g[r][c] == g[r + 1][c]
  }

  /** can_move: an empty cell, or two equal neighbours in a row or in a column. */
  predicate CanMove(g: Grid)
    requires IsGrid(g)
  {
    HasEmpty(g)
    || (exists r, c :: 0 <= r < Size && 0 <= c < Size && EqualRight(g, r, c))
    || (exists r, c :: 0 <= r < Size && 0 <= c < Size && EqualBelow(g, r, c))
  }

  /** h is g with the empty cell (r, c) filled by a new 2 or 4. */
  predicate SpawnAt(g: Grid, h: Grid, r: int, c: int)
    requires IsGrid(g)
  {
    0 <= r < Size && 0 <= c < Size && g[r][c] == 0 &&
    |h| == Size && |h[r]| == Size && IsSeed(h[r][c]) &&
    h == g[r := g[r][c := h[r][c]]]
  }

  /** add_random_tile may turn g into h: one empty cell gets a 2 or 4, or nothing happens on a full board. */
  ghost predicate Spawned(g: Grid, h: Grid)
    requires IsGrid(g)
  {
    if HasEmpty(g) then exists r, c :: SpawnAt(g, h, r, c) else h == g
  }

  /** All cells are empty or a freshly spawned 2 or 4. */
  predicate OnlySeeds(g: Grid)
    requires IsGrid(g)
  {
    forall r, c :: 0 <= r < Size && 0 <= c < Size ==> g[r][c] == 0 || IsSeed(g[r][c])
  }

  /** can_move as the source computes it: a row-major scan that stops at the first witness. */
  method ScanCanMove(g: Grid) returns (b: bool)
    requires IsGrid(g)
    ensures b == CanMove(g)
  {
    for r := 0 to Size
      invariant forall r', c' :: 0 <= r' < r && 0 <= c' < Size ==>
        g[r'][c'] != 0
        && (c' < Size - 1 ==> g[r'][c'] != g[r'][c' + 1])
        && (r' < Size - 1 ==> g[r'][c'] != g[r' + 1][c'])
    {
      for c := 0 to Size
        invariant forall r', c' :: (0 <= r' < r && 0 <= c' < Size) || (r' == r && 0 <= c' < c) ==>
          g[r'][c'] != 0
          && (c' < Size - 1 ==> g[r'][c'] != g[r'][c' + 1])
          && (r' < Size - 1 ==> g[r'][c'] != g[r' + 1][c'])
      {
        if g[r][c] == 0 {
          return true;
        }
        if c < Size - 1 && g[r][c] == g[r][c + 1] {
          assert EqualRight(g, r, c);
          return true;
        }
        if r < Size - 1 && g[r][c] == g[r + 1][c] {
          assert EqualBelow(g, r, c);
          return true;
        }
      }
    }
    return false;
  }

  // ---------------------------------------------------------------------------
  // Lines of a moved board

  /** Every line of the moved board is that line of the old board, slid; nothing else matters. */
  lemma MoveLines(g: Grid, d: Direction, i: nat)
    requires IsGrid(g) && i < Size
    ensures LineOf(Move(g, d), d, i) == SlideLine(d, LineOf(g, d, i))
  {
    if !Horizontal(d) {
      var h := Move(g, d);
      assert Column(h, i) == SlideLine(d, Column(g, i));
    }
  }

  /** Column c after Up or Down depends only on column c before. */
  lemma ColumnIndependent(g1: Grid, g2: Grid, d: Direction, c: nat)
    requires IsGrid(g1) && IsGrid(g2) && !Horizontal(d) && c < Size
    requires Column(g1, c) == Column(g2, c)
    ensures Column(Move(g1, d), c) == Column(Move(g2, d), c)
  {
    MoveLines(g1, d, c);
    MoveLines(g2, d, c);
  }

  // ---------------------------------------------------------------------------
  // Tile values, sum and score

  lemma MoveKeepsTiles(g: Grid, d: Direction)
    requires IsBoard(g)
    ensures IsBoard(Move(g, d))
  {
    var h := Move(g, d);
    forall i | 0 <= i < Size ensures AllTiles(SlideLine(d, LineOf(g, d, i))) {
      var line := LineOf(g, d, i);
      assert AllTiles(line) by {
        forall k | 0 <= k < Size ensures IsTile(line[k]) {
          if Horizontal(d) { assert line[k] == g[i][k]; } else { assert line[k] == g[k][i]; }
        }
      }
      SlideLeftTiles(line);
      SlideRightTiles(line);
    }
    forall r, c | 0 <= r < Size && 0 <= c < Size ensures IsTile(h[r][c]) {
      if Horizontal(d) {
        assert h[r][c] == SlideLine(d, LineOf(g, d, r))[c];
      } else {
        assert h[r][c] == SlideLine(d, LineOf(g, d, c))[r];
      }
    }
  }

  /** A move never lowers the score. */
  lemma {:induction false} MoveGainNonNegative(g: Grid, d: Direction, k: nat)
    requires IsBoard(g) && k <= Size
    ensures GainUpTo(g, d, k) >= 0
  {
    if k > 0 {
      MoveGainNonNegative(g, d, k - 1);
      var line := LineOf(g, d, k - 1);
      assert AllTiles(line) by {
        forall j | 0 <= j < Size ensures IsTile(line[j]) {
          if Horizontal(d) { assert line[j] == g[k - 1][j]; } else { assert line[j] == g[j][k - 1]; }
        }
      }
      LineGainNonNegative(line);
    }
  }

  /** The board total written out cell by cell. */
  lemma GridSumCells(g: Grid)
    requires IsGrid(g)
    ensures GridSum(g) ==
      g[0][0] + g[0][1] + g[0][2] + g[0][3] +
      g[1][0] + g[1][1] + g[1][2] + g[1][3] +
      g[2][0] + g[2][1] + g[2][2] + g[2][3] +
      g[3][0] + g[3][1] + g[3][2] + g[3][3]
  {
    assert GridSum(g) == Sum(g[0]) + Sum(g[1]) + Sum(g[2]) + Sum(g[3]) by {
      assert SumUpTo(g, 1) == Sum(g[0]);
      assert SumUpTo(g, 2) == SumUpTo(g, 1) + Sum(g[1]);
      assert SumUpTo(g, 3) == SumUpTo(g, 2) + Sum(g[2]);
    }
    Sum4(g[0]);
    Sum4(g[1]);
    Sum4(g[2]);
    Sum4(g[3]);
  }

  /** A move neither creates nor destroys tile value: each merge doubles one tile and empties its partner. */
  lemma MoveKeepsSum(g: Grid, d: Direction)
    requires IsGrid(g)
    ensures GridSum(Move(g, d)) == GridSum(g)
  {
    var h := Move(g, d);
    GridSumCells(g);
    GridSumCells(h);
    if Horizontal(d) {
      forall r | 0 <= r < Size ensures Sum(h[r]) == Sum(g[r]) {
        SlideLeftSum(g[r]);
        SlideRightSum(g[r]);
      }
      Sum4(g[0]); Sum4(g[1]); Sum4(g[2]); Sum4(g[3]);
      Sum4(h[0]); Sum4(h[1]); Sum4(h[2]); Sum4(h[3]);
    } else {
      forall c | 0 <= c < Size ensures Sum(Column(h, c)) == Sum(Column(g, c)) {
        MoveLines(g, d, c);
        SlideLeftSum(Column(g, c));
        SlideRightSum(Column(g, c));
      }
      ColumnCells(g, h);
    }
  }

  lemma ColumnCells(g: Grid, h: Grid)
    requires IsGrid(g) && IsGrid(h)
    requires forall c :: 0 <= c < Size ==> Sum(Column(h, c)) == Sum(Column(g, c))
    ensures
      g[0][0] + g[0][1] + g[0][2] + g[0][3] +
      g[1][0] + g[1][1] + g[1][2] + g[1][3] +
      g[2][0] + g[2][1] + g[2][2] + g[2][3] +
      g[3][0] + g[3][1] + g[3][2] + g[3][3]
      ==
      h[0][0] + h[0][1] + h[0][2] + h[0][3] +
      h[1][0] + h[1][1] + h[1][2] + h[1][3] +
      h[2][0] + h[2][1] + h[2][2] + h[2][3] +
      h[3][0] + h[3][1] + h[3][2] + h[3][3]
  {
    Sum4(Column(g, 0)); Sum4(Column(g, 1)); Sum4(Column(g, 2)); Sum4(Column(g, 3));
    Sum4(Column(h, 0)); Sum4(Column(h, 1)); Sum4(Column(h, 2)); Sum4(Column(h, 3));
    assert Sum(Column(h, 0)) == Sum(Column(g, 0));
    assert Sum(Column(h, 1)) == Sum(Column(g, 1));
    assert Sum(Column(h, 2)) == Sum(Column(g, 2));
    assert Sum(Column(h, 3)) == Sum(Column(g, 3));
  }

  // ---------------------------------------------------------------------------
  // Mirror images

  function MirrorRows(g: Grid): (h: Grid)
    requires IsGrid(g)
    ensures IsGrid(h)
  {
    seq(Size, r requires 0 <= r < Size => Rev(g[r]))
  }

  function FlipRows(g: Grid): (h: Grid)
    requires IsGrid(g)
    ensures IsGrid(h)
  {
    seq(Size, r requires 0 <= r < Size => g[Size - 1 - r])
  }

  /** move_right is move_left seen in a mirror, in board and in points. */
  lemma RightIsMirroredLeft(g: Grid)
    requires IsGrid(g)
    ensures Move(g, Right) == MirrorRows(Move(MirrorRows(g), Left))
    ensures Gain(g, Right) == Gain(MirrorRows(g), Left)
  {
    var m := MirrorRows(g);
    forall r | 0 <= r < Size ensures Move(g, Right)[r] == MirrorRows(Move(m, Left))[r] {
      SlideRightMirror(g[r]);
    }
    RightGainMirror(g, Size);
  }

  lemma {:induction false} RightGainMirror(g: Grid, k: nat)
    requires IsGrid(g) && k <= Size
    ensures GainUpTo(g, Right, k) == GainUpTo(MirrorRows(g), Left, k)
  {
    if k > 0 {
      RightGainMirror(g, k - 1);
      SlideRightMirror(g[k - 1]);
    }
  }

  /** move_down is move_up on the board turned upside down, in board and in points. */
  lemma DownIsFlippedUp(g: Grid)
    requires IsGrid(g)
    ensures Move(g, Down) == FlipRows(Move(FlipRows(g), Up))
    ensures Gain(g, Down) == Gain(FlipRows(g), Up)
  {
    var f := FlipRows(g);
    var down := Move(g, Down);
    var flipped := FlipRows(Move(f, Up));
    forall r | 0 <= r < Size ensures down[r] == flipped[r] {
      forall c | 0 <= c < Size ensures down[r][c] == flipped[r][c] {
        assert Column(f, c) == Rev(Column(g, c));
        SlideRightMirror(Column(g, c));
        assert down[r][c] == SlideRight(Column(g, c))[r];
        assert flipped[r][c] == SlideLeft(Column(f, c))[Size - 1 - r];
      }
    }
    DownGainFlip(g, Size);
  }

  lemma {:induction false} DownGainFlip(g: Grid, k: nat)
    requires IsGrid(g) && k <= Size
    ensures GainUpTo(g, Down, k) == GainUpTo(FlipRows(g), Up, k)
  {
    if k > 0 {
      DownGainFlip(g, k - 1);
      assert Column(FlipRows(g), k - 1) == Rev(Column(g, k - 1));
      SlideRightMirror(Column(g, k - 1));
    }
  }

  // ---------------------------------------------------------------------------
  // Moves on a stuck board, room for the spawn

  /** A row of a stuck board is full and has no equal neighbours. */
  lemma StuckRow(g: Grid, r: nat)
    requires IsGrid(g) && !CanMove(g) && r < Size
    ensures SlideLeft(g[r]) == g[r] && SlideRight(g[r]) == g[r]
  {
    var row := g[r];
    assert AllNonZero(row) by {
      forall c | 0 <= c < Size ensures row[c] != 0 {
        assert !(g[r][c] == 0);
      }
    }
    assert NoAdjacentEqual(row) by {
      forall c | 0 <= c < Size - 1 ensures row[c] != row[c + 1] {
        assert !EqualRight(g, r, c);
      }
    }
    StuckLine(row);
  }

  /** A column of a stuck board is full and has no equal neighbours. */
  lemma StuckColumn(g: Grid, c: nat)
    requires IsGrid(g) && !CanMove(g) && c < Size
    ensures SlideLeft(Column(g, c)) == Column(g, c) && SlideRight(Column(g, c)) == Column(g, c)
  {
    var col := Column(g, c);
    assert AllNonZero(col) by {
      forall r | 0 <= r < Size ensures col[r] != 0 {
        assert col[r] == g[r][c];
      }
    }
    assert NoAdjacentEqual(col) by {
      forall r | 0 <= r < Size - 1 ensures col[r] != col[r + 1] {
        assert !EqualBelow(g, r, c);
        assert col[r] == g[r][c] && col[r + 1] == g[r + 1][c];
      }
    }
    StuckLine(col);
  }

  /** When can_move is false, no direction changes the board. */
  lemma StuckBoard(g: Grid, d: Direction)
    requires IsGrid(g) && !CanMove(g)
    ensures Move(g, d) == g
  {
    var h := Move(g, d);
    forall r | 0 <= r < Size ensures h[r] == g[r] {
      if Horizontal(d) {
        StuckRow(g, r);
      } else {
        forall c | 0 <= c < Size ensures h[r][c] == g[r][c] {
          StuckColumn(g, c);
          assert h[r][c] == SlideLine(d, Column(g, c))[r];
        }
      }
    }
  }

  /** After one slide in direction d, the line has no two equal neighbours left to merge. */
  predicate LineSettled(d: Direction, line: seq<int>) {
    if TowardStart(d) then NoAdjacentEqual(Merge(NonZero(line)))
    else NoAdjacentEqual(MergeR(NonZero(line)))
  }

  lemma SlideLineSettled(d: Direction, line: seq<int>)
    requires |line| == Size
    ensures SlideLine(d, SlideLine(d, line)) == SlideLine(d, line) <==> LineSettled(d, line)
  {
    if TowardStart(d) {
      SlideLeftSettled(line);
    } else {
      SlideRightSettled(line);
    }
  }

  /** Two grids with the same lines in the order of a move are the same grid. */
  lemma LinesDetermine(g: Grid, h: Grid, d: Direction)
    requires IsGrid(g) && IsGrid(h)
    requires forall i :: 0 <= i < Size ==> LineOf(g, d, i) == LineOf(h, d, i)
    ensures g == h
  {
    forall r | 0 <= r < Size ensures g[r] == h[r] {
      if Horizontal(d) {
        assert LineOf(g, d, r) == LineOf(h, d, r);
      } else {
        forall c | 0 <= c < Size ensures g[r][c] == h[r][c] {
          assert LineOf(g, d, c) == LineOf(h, d, c);
          assert Column(g, c)[r] == g[r][c] && Column(h, c)[r] == h[r][c];
        }
      }
    }
  }

  /**
   * A second move in the same direction changes nothing exactly when every
   * line of the first one has no two equal neighbours left.
   */
  lemma MoveSettled(g: Grid, d: Direction)
    requires IsGrid(g)
    ensures Move(Move(g, d), d) == Move(g, d) <==>
      forall i :: 0 <= i < Size ==> LineSettled(d, LineOf(g, d, i))
  {
    var h := Move(g, d);
    var h2 := Move(h, d);
    forall i | 0 <= i < Size
      ensures LineOf(h, d, i) == SlideLine(d, LineOf(g, d, i))
      ensures LineOf(h2, d, i) == SlideLine(d, LineOf(h, d, i))
      ensures LineOf(h2, d, i) == LineOf(h, d, i) <==> LineSettled(d, LineOf(g, d, i))
    {
      MoveLines(g, d, i);
      MoveLines(h, d, i);
      SlideLineSettled(d, LineOf(g, d, i));
    }
    if forall i :: 0 <= i < Size ==> LineSettled(d, LineOf(g, d, i)) {
      LinesDetermine(h2, h, d);
    }
  }

  /**
   * A move whose result has no empty cell left the board as it was. So a
   * move that changes the board leaves room for the spawn that follows it.
   */
  lemma FullMoveUnchanged(g: Grid, d: Direction)
    requires IsGrid(g) && !HasEmpty(Move(g, d))
    ensures Move(g, d) == g
  {
    var h := Move(g, d);
    forall i | 0 <= i < Size ensures SlideLine(d, LineOf(g, d, i)) == LineOf(g, d, i) {
      MoveLines(g, d, i);
      var out := LineOf(h, d, i);
      assert AllNonZero(out) by {
        forall k | 0 <= k < Size ensures out[k] != 0 {
          if Horizontal(d) { assert out[k] == h[i][k]; } else { assert out[k] == h[k][i]; }
        }
      }
      if TowardStart(d) {
        SlideLeftFull(LineOf(g, d, i));
      } else {
        SlideRightFull(LineOf(g, d, i));
      }
    }
    forall r | 0 <= r < Size ensures h[r] == g[r] {
      if Horizontal(d) {
        assert LineOf(g, d, r) == g[r];
      } else {
        forall c | 0 <= c < Size ensures h[r][c] == g[r][c] {
          assert LineOf(g, d, c) == Column(g, c);
          assert h[r][c] == SlideLine(d, Column(g, c))[r];
        }
      }
    }
  }

  lemma ChangedMoveLeavesRoom(g: Grid, d: Direction)
    requires IsGrid(g) && Move(g, d) != g
    ensures HasEmpty(Move(g, d))
  {
    if !HasEmpty(Move(g, d)) {
      FullMoveUnchanged(g, d);
      assert false;
    }
  }

  // ---------------------------------------------------------------------------
  // Spawning

  lemma {:induction false} SpawnCountUpTo(g: Grid, h: Grid, r: int, c: int, k: nat)
    requires IsGrid(g) && SpawnAt(g, h, r, c) && k <= Size
    ensures IsGrid(h)
    ensures CountUpTo(h, k) == CountUpTo(g, k) + (if r < k then 1 else 0)
  {
    SeedIsTile(h[r][c]);
    if k > 0 {
      SpawnCountUpTo(g, h, r, c, k - 1);
      if k - 1 == r {
        FillOne(g[r], c, h[r][c]);
      }
    }
  }

  /** add_random_tile on a board with room adds exactly one tile, and a legal one. */
  lemma SpawnAddsOne(g: Grid, h: Grid, r: int, c: int)
    requires IsBoard(g) && SpawnAt(g, h, r, c)
    ensures IsBoard(h)
    ensures TileCount(h) == TileCount(g) + 1
  {
    SpawnCountUpTo(g, h, r, c, Size);
    SeedIsTile(h[r][c]);
    forall r', c' | 0 <= r' < Size && 0 <= c' < Size ensures IsTile(h[r'][c']) {
      if r' != r || c' != c { assert h[r'][c'] == g[r'][c']; }
    }
  }

  lemma EmptyGridFacts()
    ensures IsBoard(EmptyGrid()) && OnlySeeds(EmptyGrid()) && TileCount(EmptyGrid()) == 0
  {
    var e := EmptyGrid();
    forall k | 0 <= k < Size ensures |NonZero(e[k])| == 0 {
      ZerosNonZero(Size);
    }
    assert CountUpTo(e, 1) == 0;
    assert CountUpTo(e, 2) == 0;
    assert CountUpTo(e, 3) == 0;
  }

  // ---------------------------------------------------------------------------
  // Worked examples

  /** A full board with no equal neighbours: the game is over. */
  lemma ExampleStuckBoard()
    ensures IsGrid([[2, 4, 2, 4], [4, 2, 4, 2], [2, 4, 2, 4], [4, 2, 4, 2]])
    ensures !CanMove([[2, 4, 2, 4], [4, 2, 4, 2], [2, 4, 2, 4], [4, 2, 4, 2]])
  {
  }
}
