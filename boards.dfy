/** The Life board: a flat list of Cell objects in index order, the step
    counter, and the operations on them. The board's alive flags are
    specified by the pure functions of module Rules. */
module Boards {
  import opened Geometry
  import opened Rules
  import opened Cells

  /** No cell object occurs twice in the list. */
  predicate Distinct(cells: seq<Cell>)
  {
    forall i, j :: 0 <= i < |cells| && 0 <= j < |cells| && i != j ==> cells[i] != cells[j]
  }

  /** The alive flags of a list of cells, in order. */
  function AliveOf(cells: seq<Cell>): (s: seq<bool>)
    reads cells
    ensures |s| == |cells|
    ensures forall i :: 0 <= i < |cells| ==> s[i] == cells[i].alive
  {
    seq(|cells|, i requires 0 <= i < |cells| reads cells => cells[i].alive)
  }

  class Life {
    var board: seq<Cell>
    var steps: int

    /** The board holds BoardSize distinct cells, none with a pending change
        between steps, and the step counter is non-negative. */
    ghost predicate Valid()
      reads this, board
    {
      |board| == BoardSize && Distinct(board) && steps >= 0 &&
      forall i :: 0 <= i < |board| ==> !board[i].shouldChange
    }

    /** The alive flags of the board in index order. */
    ghost function Alive(): (s: seq<bool>)
      reads this, board
      ensures |s| == |board|
    {
      AliveOf(board)
    }

    constructor ()
      ensures Valid() && Alive() == Dead() && steps == 0
    {
      new;
      Reset();
    }

    /** A list of BoardSize fresh dead cells. */
    method NewBoard() returns (cells: seq<Cell>)
      ensures |cells| == BoardSize && Distinct(cells)
      ensures forall i :: 0 <= i < |cells| ==> fresh(cells[i])
      ensures forall i :: 0 <= i < |cells| ==> !cells[i].alive && !cells[i].shouldChange
    {
      cells := [];
      while |cells| < BoardSize
        invariant |cells| <= BoardSize && Distinct(cells)
        invariant forall i :: 0 <= i < |cells| ==> fresh(cells[i])
        invariant forall i :: 0 <= i < |cells| ==> !cells[i].alive && !cells[i].shouldChange
      {
        var c := new Cell();
        cells := cells + [c];
      }
    }

    /** Replaces the board by fresh dead cells and zeroes the step counter. */
    method Reset()
      modifies this
      ensures Valid() && Alive() == Dead() && steps == 0
      ensures forall i :: 0 <= i < |board| ==> fresh(board[i])
    {
      board := NewBoard();
      steps := 0;
    }

    /** The alive flags in index order, as written to a save file. */
    method SaveBoard() returns (data: seq<bool>)
      ensures data == AliveOf(board)
    {
      data := [];
      for idx := 0 to |board|
        invariant data == AliveOf(board[..idx])
      {
        data := data + [board[idx].alive];
      }
      assert board[..|board|] == board;
    }

    /** Loads a list of alive flags read from a save file: the board is reset
        and cell idx takes the flag data[idx]. A list longer than the board
        runs off its end after the whole board has been written, where the
        program raises an index error; ok is false then. */
    method LoadBoard(data: seq<bool>) returns (ok: bool)
      modifies this
      ensures Valid() && steps == 0
      ensures forall i :: 0 <= i < |board| ==> fresh(board[i])
      ensures ok <==> |data| <= BoardSize
      ensures ok ==> Alive() == Loaded(data)
      ensures !ok ==> Alive() == data[..BoardSize]
    {
      Reset();
      ok := true;
      for idx := 0 to |data|
        invariant Valid() && steps == 0
        invariant forall i :: 0 <= i < |board| ==> fresh(board[i])
        invariant idx <= BoardSize
        invariant forall i :: 0 <= i < BoardSize ==> board[i].alive == (i < idx && data[i])
      {
        if idx >= |board| {
          ok := false;
          assert Alive() == data[..BoardSize];
          return;
        }
        board[idx].alive := data[idx];
      }
      assert Alive() == Loaded(data);
    }

    /** The screen rectangle of every cell, in index order. */
    method GetRects() returns (rects: seq<Rect>)
      ensures |rects| == |board|
      ensures forall idx :: 0 <= idx < |board| ==> rects[idx] == RectOf(idx)
    {
      rects := [];
      for idx := 0 to |board|
        invariant |rects| == idx
        invariant forall i :: 0 <= i < idx ==> rects[i] == RectOf(i)
      {
        var p := IdxToXY(idx);
        rects := rects + [Rect(p.0 * GridSize, p.1 * GridSize, GridSize, GridSize)];
      }
    }

    /** The alive flags of the in-bounds neighbours of cell idx, in the
        order of Offsets. */
    method GetNb(idx: int) returns (nb: seq<bool>)
      requires |board| == BoardSize
      ensures nb == Neighbours(AliveOf(board), idx)
    {
      var p := IdxToXY(idx);
      var x, y := p.0, p.1;
      ghost var s := AliveOf(board);
      nb := [];
      for k := 0 to |Offsets|
        invariant nb == NeighboursAt(s, x, y, Offsets[..k])
      {
        var nx, ny := x + Offsets[k].0, y + Offsets[k].1;
        assert Offsets[..k + 1] == Offsets[..k] + [Offsets[k]];
        NeighboursAtSnoc(s, x, y, Offsets[..k], Offsets[k]);
        if nx < 0 || ny < 0 {
          continue;
        }
        if nx > Columns - 1 || ny > Rows - 1 {
          continue;
        }
        var ni := XYToIdx(nx, ny);
        CoordRoundTrip(nx, ny);
        nb := nb + [board[ni].alive];
      }
      assert Offsets[..|Offsets|] == Offsets;
    }

    /** Evaluation phase: every cell records whether it must flip, reading
        its neighbours' current flags; no alive flag changes. */
    method ProcessAll()
      requires Valid()
      modifies board
      ensures forall j :: 0 <= j < |board| ==> board[j].alive == old(board[j].alive)
      ensures forall j :: 0 <= j < |board| ==>
                board[j].shouldChange == (old(Alive())[j] != NextGen(old(Alive()))[j])
    {
      ghost var before := Alive();
      ghost var after := NextGen(before);
      for idx := 0 to |board|
        invariant Alive() == before
        invariant forall j :: 0 <= j < idx ==> board[j].shouldChange == (before[j] != after[j])
      {
        ProcessCell(idx);
      }
    }

    /** The evaluation phase for cell idx alone. */
    method ProcessCell(idx: int)
      requires |board| == BoardSize && Distinct(board) && 0 <= idx < BoardSize
      modifies board[idx]
      ensures Alive() == old(Alive())
      ensures board[idx].shouldChange == (Alive()[idx] != NextGen(Alive())[idx])
    {
      var nb := GetNb(idx);
      board[idx].ProcessNb(nb);
      assert AliveOf(board) == old(AliveOf(board));
    }

    /** Commit phase: every cell applies its pending flip and clears it. */
    method CommitAll()
      requires Distinct(board)
      modifies board
      ensures forall j :: 0 <= j < |board| ==>
                board[j].alive == (old(board[j].alive) != old(board[j].shouldChange)) && !board[j].shouldChange
    {
      for idx := 0 to |board|
        invariant forall j :: 0 <= j < idx ==>
                    board[j].alive == (old(board[j].alive) != old(board[j].shouldChange)) && !board[j].shouldChange
        invariant forall j :: idx <= j < |board| ==>
                    board[j].alive == old(board[j].alive) && board[j].shouldChange == old(board[j].shouldChange)
      {
        board[idx].Step();
      }
    }

    /** One generation in two phases over the same cells: every cell first
        records its pending change from its neighbours' current flags, then
        every cell commits; the step counter goes up by one. */
    method StepSimulation()
      requires Valid()
      modifies this, board
      ensures Valid() && board == old(board)
      ensures Alive() == NextGen(old(Alive()))
      ensures steps == old(steps) + 1
    {
      ProcessAll();
      CommitAll();
      steps := steps + 1;
    }
  }

  /** Saving a board and loading the saved list gives back the same alive
      flags, with the step counter at zero. */
  method SaveThenLoad(life: Life)
    requires life.Valid()
    modifies life
    ensures life.Valid() && life.Alive() == old(life.Alive()) && life.steps == 0
  {
    var data := life.SaveBoard();
    var ok := life.LoadBoard(data);
    assert ok;
    assert Loaded(data) == data;
  }
}
