/** The Life rule as pure functions on the board's alive flags: counting, the
    B3/S23 transition, the bounded neighbour list, and one whole generation.
    These are the specifications the imperative board in module Boards is
    proved against. */
module Rules {
  import opened Geometry

  /** Number of true flags in s (the count of True in a neighbour list). */
  function CountTrue(s: seq<bool>): (n: nat)
    ensures n <= |s|
  {
    if s == [] then 0 else (if s[0] then 1 else 0) + CountTrue(s[1..])
  }

  /** The count is zero exactly when no flag is true. */
  lemma {:induction false} CountTrueZero(s: seq<bool>)
    ensures CountTrue(s) == 0 <==> true !in s
  {
    if s != [] {
      CountTrueZero(s[1..]);
      assert s == [s[0]] + s[1..];
    }
  }

  lemma {:induction false} CountTrueAppend(a: seq<bool>, b: seq<bool>)
    ensures CountTrue(a + b) == CountTrue(a) + CountTrue(b)
  {
    if a == [] {
      assert a + b == b;
    } else {
      assert (a + b)[1..] == a[1..] + b;
      CountTrueAppend(a[1..], b);
    }
  }

  /** B3/S23: a live cell survives with 2 or 3 live neighbours, a dead cell is
      born with exactly 3; every other cell is dead in the next generation. */
  predicate NextAlive(alive: bool, liveNeighbours: nat)
    ensures NextAlive(alive, liveNeighbours) ==> liveNeighbours == 2 || liveNeighbours == 3
    ensures liveNeighbours == 3 ==> NextAlive(alive, liveNeighbours)
    ensures liveNeighbours == 2 ==> (NextAlive(alive, liveNeighbours) <==> alive)
  {
    if alive then liveNeighbours == 2 || liveNeighbours == 3 else liveNeighbours == 3
  }

  /** The in-bounds neighbour flags of cell (x, y) at the offsets offs, in
      order; a neighbour off the board is skipped, not wrapped and not
      padded. */
  function NeighboursAt(s: seq<bool>, x: int, y: int, offs: seq<(int, int)>): (r: seq<bool>)
    requires |s| == BoardSize
    ensures |r| <= |offs|
    ensures true !in s ==> true !in r
  {
    if offs == [] then []
    else
      var nx, ny := x + offs[0].0, y + offs[0].1;
      if nx < 0 || ny < 0 then NeighboursAt(s, x, y, offs[1..])
      else if nx > Columns - 1 || ny > Rows - 1 then NeighboursAt(s, x, y, offs[1..])
      else [s[XYToIdx(nx, ny)]] + NeighboursAt(s, x, y, offs[1..])
  }

  /** The neighbour list of board index idx. */
  function Neighbours(s: seq<bool>, idx: int): (r: seq<bool>)
    requires |s| == BoardSize
    ensures |r| <= |Offsets|
    ensures true !in s ==> true !in r
  {
    var p := IdxToXY(idx);
    NeighboursAt(s, p.0, p.1, Offsets)
  }

  /** Alive flag at (x, y), with everything off the board read as dead. */
  function AliveAt(s: seq<bool>, x: int, y: int): bool
    requires |s| == BoardSize
  {
    InGrid(x, y) && s[XYToIdx(x, y)]
  }

  function Bit(b: bool): nat { if b then 1 else 0 }

  /** Reference count of live neighbours: the cells at the offsets offs from
      (x, y) on a board padded with dead cells. */
  function LiveAround(s: seq<bool>, x: int, y: int, offs: seq<(int, int)>): nat
    requires |s| == BoardSize
  {
    if offs == [] then 0
    else Bit(AliveAt(s, x + offs[0].0, y + offs[0].1)) + LiveAround(s, x, y, offs[1..])
  }

  /** One step of the neighbour walk: the first offset's flag is listed
      exactly when that neighbour is on the board. */
  lemma NeighboursAtStep(s: seq<bool>, x: int, y: int, offs: seq<(int, int)>)
    requires |s| == BoardSize && offs != []
    ensures var nx, ny := x + offs[0].0, y + offs[0].1;
            NeighboursAt(s, x, y, offs) ==
              (if InGrid(nx, ny) then [AliveAt(s, nx, ny)] else []) + NeighboursAt(s, x, y, offs[1..])
  {
  }

  /** Visiting one more offset at the end lists its flag after the others,
      exactly when that neighbour is on the board. */
  lemma {:induction false} NeighboursAtSnoc(s: seq<bool>, x: int, y: int, offs: seq<(int, int)>, o: (int, int))
    requires |s| == BoardSize
    ensures var nx, ny := x + o.0, y + o.1;
            NeighboursAt(s, x, y, offs + [o]) ==
              NeighboursAt(s, x, y, offs) + (if InGrid(nx, ny) then [AliveAt(s, nx, ny)] else [])
  {
    NeighboursAtStep(s, x, y, offs + [o]);
    if offs == [] {
      assert ([] + [o])[1..] == [];
    } else {
      assert (offs + [o])[1..] == offs[1..] + [o];
      NeighboursAtStep(s, x, y, offs);
      NeighboursAtSnoc(s, x, y, offs[1..], o);
    }
  }

  /** Skipping off-board neighbours counts the same live cells as padding the
      board with dead cells. */
  lemma {:induction false} CountNeighboursAt(s: seq<bool>, x: int, y: int, offs: seq<(int, int)>)
    requires |s| == BoardSize
    ensures CountTrue(NeighboursAt(s, x, y, offs)) == LiveAround(s, x, y, offs)
  {
    if offs != [] {
      var nx, ny := x + offs[0].0, y + offs[0].1;
      var rest := NeighboursAt(s, x, y, offs[1..]);
      CountNeighboursAt(s, x, y, offs[1..]);
      if InGrid(nx, ny) {
        var b := AliveAt(s, nx, ny);
        assert NeighboursAt(s, x, y, offs) == [b] + rest;
        CountTrueAppend([b], rest);
        assert CountTrue([b]) == Bit(b);
      } else {
        assert NeighboursAt(s, x, y, offs) == rest;
      }
    }
  }

  /** Number of in-bounds neighbours of a grid cell: 3 in a corner, 5 on a
      border, 8 inside. */
  function ExpectedNeighbours(x: int, y: int): nat
  {
    var onX := x == 0 || x == Columns - 1;
    var onY := y == 0 || y == Rows - 1;
    if onX && onY then 3 else if onX || onY then 5 else 8
  }

  /** The neighbour list of a board cell has 3 entries in the four corners, 5
      on the rest of the border and 8 inside. */
  lemma NeighbourCountByPosition(s: seq<bool>, idx: int)
    requires |s| == BoardSize && 0 <= idx < BoardSize
    ensures |Neighbours(s, idx)| == ExpectedNeighbours(IdxToXY(idx).0, IdxToXY(idx).1)
  {
    var p := IdxToXY(idx);
    IndexRoundTrip(idx);
    var x, y := p.0, p.1;
    assert |NeighboursAt(s, x, y, Offsets[8..])| == 0;
    assert |NeighboursAt(s, x, y, Offsets[7..])| == (if x + 1 < Columns && y + 1 < Rows then 1 else 0);
    assert |NeighboursAt(s, x, y, Offsets[6..])| == |NeighboursAt(s, x, y, Offsets[7..])| + (if y + 1 < Rows then 1 else 0);
    assert |NeighboursAt(s, x, y, Offsets[5..])| == |NeighboursAt(s, x, y, Offsets[6..])| + (if 0 <= x - 1 && y + 1 < Rows then 1 else 0);
    assert |NeighboursAt(s, x, y, Offsets[4..])| == |NeighboursAt(s, x, y, Offsets[5..])| + (if x + 1 < Columns then 1 else 0);
    assert |NeighboursAt(s, x, y, Offsets[3..])| == |NeighboursAt(s, x, y, Offsets[4..])| + (if 0 <= x - 1 then 1 else 0);
    assert |NeighboursAt(s, x, y, Offsets[2..])| == |NeighboursAt(s, x, y, Offsets[3..])| + (if x + 1 < Columns && 0 <= y - 1 then 1 else 0);
    assert |NeighboursAt(s, x, y, Offsets[1..])| == |NeighboursAt(s, x, y, Offsets[2..])| + (if 0 <= y - 1 then 1 else 0);
    assert |NeighboursAt(s, x, y, Offsets[0..])| == |NeighboursAt(s, x, y, Offsets[1..])| + (if 0 <= x - 1 && 0 <= y - 1 then 1 else 0);
    assert Offsets[0..] == Offsets;
  }

  /** One generation: every cell gets the B3/S23 value for its own flag and
      the count of its live neighbours in the current generation. */
  function NextGen(s: seq<bool>): (r: seq<bool>)
    requires |s| == BoardSize
    ensures |r| == BoardSize
  {
    seq(|s|, i requires 0 <= i < |s| => NextAlive(s[i], CountTrue(Neighbours(s, i))))
  }

  /** The transition of a single cell stated against the padded-board
      neighbour count: birth with exactly 3, survival with 2 or 3. */
  lemma StepRule(s: seq<bool>, idx: int)
    requires |s| == BoardSize && 0 <= idx < BoardSize
    ensures var n := LiveAround(s, IdxToXY(idx).0, IdxToXY(idx).1, Offsets);
            && (!s[idx] ==> (NextGen(s)[idx] <==> n == 3))
            && (s[idx] ==> (NextGen(s)[idx] <==> n == 2 || n == 3))
  {
    CountNeighboursAt(s, IdxToXY(idx).0, IdxToXY(idx).1, Offsets);
  }

  /** The board with every cell dead. */
  function Dead(): (r: seq<bool>)
    ensures |r| == BoardSize && true !in r
  {
    seq(BoardSize, _ => false)
  }

  /** An all-dead board stays all-dead. */
  lemma DeadStaysDead()
    ensures NextGen(Dead()) == Dead()
  {
    var s := Dead();
    forall i | 0 <= i < BoardSize
      ensures NextGen(s)[i] == s[i]
    {
      CountTrueZero(Neighbours(s, i));
    }
  }

  /** The alive flags a loaded list leaves on a fresh board: the list's flags
      on the first cells, dead cells after it. */
  function Loaded(data: seq<bool>): (r: seq<bool>)
    requires |data| <= BoardSize
    ensures |r| == BoardSize
    ensures forall i :: 0 <= i < BoardSize ==> r[i] == (i < |data| && data[i])
  {
    data + seq(BoardSize - |data|, _ => false)
  }
}
