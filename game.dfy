/**
 * The game state (board, score, undo history) and the commands that change
 * it: the four moves, the random spawn, reset, undo and the arrow-key
 * sequence that ties them together.
 */
module Controller {
  import opened Line
  import opened Board
  import opened Slide

  /** A deep copy of the board with the score it had, pushed before every arrow key. */
  datatype Snapshot = Snapshot(board: Grid, score: int)

  predicate GoodSnapshot(s: Snapshot) {
    IsBoard(s.board) && s.score >= 0
  }

  /**
   * What an arrow key leaves after the move produced g: a spawned tile when
   * the move changed something, otherwise g itself.
   */
  ghost predicate AfterSpawn(g: Grid, moved: bool, h: Grid)
    requires IsGrid(g)
  {
    if moved then exists r, c :: SpawnAt(g, h, r, c) else h == g
  }

  class Game {
    var board: Grid
    var score: int
    /** Unbounded LIFO history: the last element is the most recent snapshot. */
    var undoStack: seq<Snapshot>

    ghost predicate Valid()
      reads this
    {
      IsBoard(board) && score >= 0 &&
      forall i :: 0 <= i < |undoStack| ==> GoodSnapshot(undoStack[i])
    }

    /** The state reset_board leaves: score 0, no history, exactly two tiles, each 2 or 4. */
    ghost predicate FreshStart()
      reads this
      requires Valid()
    {
      score == 0 && undoStack == [] && TileCount(board) == 2 && OnlySeeds(board)
    }

    /** The module globals start empty and the game begins with reset_board(). */
    constructor ()
      ensures Valid() && FreshStart()
    {
      board := EmptyGrid();
      score := 0;
      undoStack := [];
      new;
      EmptyGridFacts();
      ResetBoard();
    }

    /** reset_board: an empty board, score 0, no history, then two spawns. */
    method ResetBoard()
      modifies this
      ensures Valid() && FreshStart()
    {
      board := EmptyGrid();
      score := 0;
      undoStack := [];
      EmptyGridFacts();
      assert board[0][0] == 0;
      AddRandomTile();
      assert TileCount(board) == 1;
      NotFullHasEmpty(board);
      AddRandomTile();
    }

    /**
     * add_random_tile: an empty cell, chosen arbitrarily, becomes 2 or 4;
     * on a full board nothing happens.
     */
    method AddRandomTile()
      requires Valid()
      modifies this
      ensures Valid()
      ensures Spawned(old(board), board)
      ensures HasEmpty(old(board)) ==> TileCount(board) == TileCount(old(board)) + 1
      ensures OnlySeeds(old(board)) ==> OnlySeeds(board)
      ensures score == old(score) && undoStack == old(undoStack)
    {
      if HasEmpty(board) {
        var r, c :| 0 <= r < Size && 0 <= c < Size && board[r][c] == 0;
        var v := 2;
        if * {
          v := 4;
        }
        ghost var before := board;
        board := board[r := board[r][c := v]];
        assert SpawnAt(before, board, r, c);
        SpawnAddsOne(before, board, r, c);
        SpawnKeepsSeeds(before, board, r, c);
      }
    }

    /** move_left: every row slid toward index 0. */
    method MoveLeft() returns (moved: bool)
      requires Valid()
      modifies this
      ensures Valid()
      ensures board == Move(old(board), Left)
      ensures score == old(score) + Gain(old(board), Left)
      ensures moved <==> board != old(board)
      ensures undoStack == old(undoStack)
    {
      moved := false;
      for r := 0 to Size
        invariant IsGrid(board)
        invariant forall i :: 0 <= i < r ==> board[i] == SlideLeft(old(board)[i])
        invariant forall i :: r <= i < Size ==> board[i] == old(board)[i]
        invariant score == old(score) + GainUpTo(old(board), Left, r)
        invariant moved <==> exists i :: 0 <= i < r && board[i] != old(board)[i]
        invariant undoStack == old(undoStack)
      {
        var tiles, gain := SlideLineLeft(board[r]);
        score := score + gain;
        if board[r] != tiles {
          moved := true;
        }
        board := board[r := tiles];
      }
      FinishRowMove(old(board), board, Left);
      MoveKeepsTiles(old(board), Left);
      MoveGainNonNegative(old(board), Left, Size);
    }

    /** move_right: every row slid toward the last index. */
    method MoveRight() returns (moved: bool)
      requires Valid()
      modifies this
      ensures Valid()
      ensures board == Move(old(board), Right)
      ensures score == old(score) + Gain(old(board), Right)
      ensures moved <==> board != old(board)
      ensures undoStack == old(undoStack)
    {
      moved := false;
      for r := 0 to Size
        invariant IsGrid(board)
        invariant forall i :: 0 <= i < r ==> board[i] == SlideRight(old(board)[i])
        invariant forall i :: r <= i < Size ==> board[i] == old(board)[i]
        invariant score == old(score) + GainUpTo(old(board), Right, r)
        invariant moved <==> exists i :: 0 <= i < r && board[i] != old(board)[i]
        invariant undoStack == old(undoStack)
      {
        var tiles, gain := SlideLineRight(board[r]);
        score := score + gain;
        if board[r] != tiles {
          moved := true;
        }
        board := board[r := tiles];
      }
      FinishRowMove(old(board), board, Right);
      MoveKeepsTiles(old(board), Right);
      MoveGainNonNegative(old(board), Right, Size);
    }

    /** Overwrites column c with tiles, one cell per row; every other cell is kept. */
    method WriteColumn(c: nat, tiles: seq<int>)
      requires IsGrid(board) && c < Size && |tiles| == Size
      modifies this
      ensures IsGrid(board)
      ensures forall r, c' :: 0 <= r < Size && 0 <= c' < Size ==>
        board[r][c'] == if c' == c then tiles[r] else old(board)[r][c']
      ensures score == old(score) && undoStack == old(undoStack)
    {
      for r := 0 to Size
        invariant IsGrid(board)
        invariant forall i, j :: 0 <= i < Size && 0 <= j < Size ==>
          board[i][j] == if j == c && i < r then tiles[i] else old(board)[i][j]
        invariant score == old(score) && undoStack == old(undoStack)
      {
        board := board[r := board[r][c := tiles[r]]];
      }
    }

    /** move_up: every column slid toward row 0. */
    method MoveUp() returns (moved: bool)
      requires Valid()
      modifies this
      ensures Valid()
      ensures board == Move(old(board), Up)
      ensures score == old(score) + Gain(old(board), Up)
      ensures moved <==> board != old(board)
      ensures undoStack == old(undoStack)
    {
      moved := false;
      for c := 0 to Size
        invariant IsGrid(board)
        invariant forall i, j :: 0 <= i < Size && 0 <= j < c ==>
          board[i][j] == SlideLeft(Column(old(board), j))[i]
        invariant forall i, j :: 0 <= i < Size && c <= j < Size ==> board[i][j] == old(board)[i][j]
        invariant score == old(score) + GainUpTo(old(board), Up, c)
        invariant moved <==> exists j :: 0 <= j < c && Column(board, j) != Column(old(board), j)
        invariant undoStack == old(undoStack)
      {
        assert Column(board, c) == Column(old(board), c);
        var tiles, gain := SlideLineLeft(Column(board, c));
        score := score + gain;
        if Column(board, c) != tiles {
          moved := true;
        }
        ghost var before := board;
        WriteColumn(c, tiles);
        forall j | 0 <= j < c ensures Column(board, j) == Column(before, j) {
        }
        assert Column(board, c) == tiles;
      }
      FinishColumnMove(old(board), board, Up);
      MoveKeepsTiles(old(board), Up);
      MoveGainNonNegative(old(board), Up, Size);
    }

    /** move_down: every column slid toward the last row. */
    method MoveDown() returns (moved: bool)
      requires Valid()
      modifies this
      ensures Valid()
      ensures board == Move(old(board), Down)
      ensures score == old(score) + Gain(old(board), Down)
      ensures moved <==> board != old(board)
      ensures undoStack == old(undoStack)
    {
      moved := false;
      for c := 0 to Size
        invariant IsGrid(board)
        invariant forall i, j :: 0 <= i < Size && 0 <= j < c ==>
          board[i][j] == SlideRight(Column(old(board), j))[i]
        invariant forall i, j :: 0 <= i < Size && c <= j < Size ==> board[i][j] == old(board)[i][j]
        invariant score == old(score) + GainUpTo(old(board), Down, c)
        invariant moved <==> exists j :: 0 <= j < c && Column(board, j) != Column(old(board), j)
        invariant undoStack == old(undoStack)
      {
        assert Column(board, c) == Column(old(board), c);
        var tiles, gain := SlideLineRight(Column(board, c));
        score := score + gain;
        if Column(board, c) != tiles {
          moved := true;
        }
        ghost var before := board;
        WriteColumn(c, tiles);
        forall j | 0 <= j < c ensures Column(board, j) == Column(before, j) {
        }
        assert Column(board, c) == tiles;
      }
      FinishColumnMove(old(board), board, Down);
      MoveKeepsTiles(old(board), Down);
      MoveGainNonNegative(old(board), Down, Size);
    }

    /** undo: restore the most recent snapshot and drop it; nothing happens with no history. */
    method Undo()
      requires Valid()
      modifies this
      ensures Valid()
      ensures old(undoStack) == [] ==> board == old(board) && score == old(score) && undoStack == []
      ensures old(undoStack) != [] ==>
        var top := old(undoStack)[|old(undoStack)| - 1];
        board == top.board && score == top.score && undoStack == old(undoStack)[..|old(undoStack)| - 1]
    {
      if undoStack != [] {
        var top := undoStack[|undoStack| - 1];
        assert GoodSnapshot(top);
        board, score := top.board, top.score;
        undoStack := undoStack[..|undoStack| - 1];
      }
    }

    /**
     * An arrow key: push a copy of (board, score), move, spawn if something
     * moved, and start over with reset_board when no move is left. The ghost
     * result spawned is the board after the move and the spawn, the one that
     * can_move inspects.
     */
    method ArrowKey(d: Direction) returns (moved: bool, gameOver: bool, ghost spawned: Grid)
      requires Valid()
      modifies this
      ensures Valid()
      ensures moved <==> Move(old(board), d) != old(board)
      ensures IsGrid(spawned) && AfterSpawn(Move(old(board), d), moved, spawned)
      ensures gameOver <==> !CanMove(spawned)
      ensures !gameOver ==>
        board == spawned &&
        undoStack == old(undoStack) + [Snapshot(old(board), old(score))] &&
        score == old(score) + Gain(old(board), d) && score >= old(score)
      ensures gameOver ==> FreshStart()
    {
      ghost var start := board;
      undoStack := undoStack + [Snapshot(board, score)];
      match d {
        case Left => moved := MoveLeft();
        case Right => moved := MoveRight();
        case Up => moved := MoveUp();
        case Down => moved := MoveDown();
      }
      MoveGainNonNegative(start, d, Size);
      ghost var slid := board;
      if moved {
        ChangedMoveLeavesRoom(start, d);
        AddRandomTile();
      }
      assert AfterSpawn(slid, moved, board);
      spawned := board;
      var canMove := ScanCanMove(board);
      gameOver := !canMove;
      if gameOver {
        ResetBoard();
      }
    }

    /** The Restart button. */
    method Restart()
      modifies this
      ensures Valid() && FreshStart()
    {
      ResetBoard();
    }
  }

  /**
   * The history is a stack and each undo pops one more entry: two arrow keys followed by
   * two undos walk back to the state before the first key (unless a game
   * over reset the history on the way).
   */
  method UndoWalksBack(game: Game, d1: Direction, d2: Direction) returns (over1: bool, over2: bool)
    requires game.Valid()
    modifies game
    ensures game.Valid()
    ensures !over1 && !over2 ==>
      game.board == old(game.board) && game.score == old(game.score) &&
      game.undoStack == old(game.undoStack)
  {
    var moved1, moved2;
    ghost var spawned1, spawned2;
    moved1, over1, spawned1 := game.ArrowKey(d1);
    moved2, over2, spawned2 := game.ArrowKey(d2);
    game.Undo();
    game.Undo();
  }

  // ---------------------------------------------------------------------------
  // Proof helpers for the class

  lemma SpawnKeepsSeeds(g: Grid, h: Grid, r: int, c: int)
    requires IsGrid(g) && SpawnAt(g, h, r, c)
    ensures IsGrid(h)
    ensures OnlySeeds(g) ==> OnlySeeds(h)
  {
  }

  /** A board with no empty cell holds Size * Size tiles. */
  lemma FullBoardCount(g: Grid)
    requires IsGrid(g) && !HasEmpty(g)
    ensures TileCount(g) == Size * Size
  {
    forall r | 0 <= r < Size ensures |NonZero(g[r])| == Size {
      assert AllNonZero(g[r]) by {
        forall c | 0 <= c < Size ensures g[r][c] != 0 { }
      }
      NonZeroOfNonZero(g[r]);
    }
    assert CountUpTo(g, 1) == Size;
    assert CountUpTo(g, 2) == 2 * Size;
    assert CountUpTo(g, 3) == 3 * Size;
  }

  lemma NotFullHasEmpty(g: Grid)
    requires IsGrid(g) && TileCount(g) < Size * Size
    ensures HasEmpty(g)
  {
    if !HasEmpty(g) {
      FullBoardCount(g);
      assert false;
    }
  }

  lemma FinishRowMove(g: Grid, h: Grid, d: Direction)
    requires IsGrid(g) && IsGrid(h) && Horizontal(d)
    requires forall i :: 0 <= i < Size ==> h[i] == SlideLine(d, g[i])
    ensures h == Move(g, d)
    ensures h != g <==> exists i :: 0 <= i < Size && h[i] != g[i]
  {
  }

  lemma FinishColumnMove(g: Grid, h: Grid, d: Direction)
    requires IsGrid(g) && IsGrid(h) && !Horizontal(d)
    requires forall i, j :: 0 <= i < Size && 0 <= j < Size ==> h[i][j] == SlideLine(d, Column(g, j))[i]
    ensures h == Move(g, d)
    ensures h != g <==> exists j :: 0 <= j < Size && Column(h, j) != Column(g, j)
  {
    var m := Move(g, d);
    forall i | 0 <= i < Size ensures h[i] == m[i] { }
    if h != g {
      var i :| 0 <= i < Size && h[i] != g[i];
      var j :| 0 <= j < Size && h[i][j] != g[i][j];
      assert Column(h, j)[i] != Column(g, j)[i];
    }
  }
}
