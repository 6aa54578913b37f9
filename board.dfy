/**
 * The board of game/models.py as a value: a square grid of tiles, the four
 * move directions, and what a move, a spawn and the end-of-game test do to
 * it.  The methods of class `Field` are proved against these functions.
 */
module Board {
  import opened Items
  import opened RowPass

  /** `Direction`: the enum values 0..3 decide the axis and the orientation of a move. */
  datatype Direction = Right | Up | Left | Down {
    function Value(): nat {
      match this
      case Right => 0
      case Up => 1
      case Left => 2
      case Down => 3
    }

    /** UP and DOWN act on columns. */
    predicate IsVertical() {
      Value() % 2 == 1
    }

    /** RIGHT and DOWN reverse each line before and after the pass. */
    predicate IsReversed() {
      Value() == 0 || Value() == 3
    }
  }

  /** Rows of cells: `g[r][c]` is the tile in row `r`, column `c`. */
  type Grid = seq<seq<Item>>

  predicate IsSquare(g: Grid) {
    forall r :: 0 <= r < |g| ==> |g[r]| == |g|
  }

  /** Every cell keeps the `Normal` invariant. */
  predicate GridNormal(g: Grid) {
    forall r, c :: 0 <= r < |g| && 0 <= c < |g[r]| ==> Normal(g[r][c])
  }

  /** No cell carries the merge marker. */
  predicate GridClear(g: Grid) {
    forall r, c :: 0 <= r < |g| && 0 <= c < |g[r]| ==> !g[r][c].modified
  }

  ghost predicate GridWellValued(g: Grid) {
    forall r, c :: 0 <= r < |g| && 0 <= c < |g[r]| ==> WellValued(g[r][c])
  }

  function Rev<T>(s: seq<T>): (r: seq<T>)
    ensures |r| == |s|
  {
    seq(|s|, k requires 0 <= k < |s| => s[|s| - 1 - k])
  }

  /** `list.reverse` undoes itself. */
  lemma RevRev<T>(s: seq<T>)
    ensures Rev(Rev(s)) == s
  {
    assert forall k :: 0 <= k < |s| ==> Rev(Rev(s))[k] == Rev(s)[|s| - 1 - k] == s[k];
  }

  /** Row of the cell at position `j` of line `i`: lines are rows, or columns for a vertical move. */
  function RowAt(d: Direction, i: nat, j: nat): nat {
    if d.IsVertical() then j else i
  }

  function ColumnAt(d: Direction, i: nat, j: nat): nat {
    if d.IsVertical() then i else j
  }

  /** The line a cell belongs to, and its position in it. */
  function LineOf(d: Direction, r: nat, c: nat): nat {
    if d.IsVertical() then c else r
  }

  function PosOf(d: Direction, r: nat, c: nat): nat {
    if d.IsVertical() then r else c
  }

  /** A cell is found again at its position in its line. */
  lemma CellInItsLine(d: Direction, r: nat, c: nat)
    ensures RowAt(d, LineOf(d, r, c), PosOf(d, r, c)) == r
    ensures ColumnAt(d, LineOf(d, r, c), PosOf(d, r, c)) == c
  {
  }

  /** Line `i` of `g` read along `d`'s axis from index 0 (the comprehension building `crow`). */
  function Raw(g: Grid, d: Direction, i: nat): (r: seq<Item>)
    requires IsSquare(g) && i < |g|
    ensures |r| == |g|
  {
    seq(|g|, j requires 0 <= j < |g| => g[RowAt(d, i, j)][ColumnAt(d, i, j)])
  }

  /** The line as `_move_row` receives it: reversed for RIGHT and DOWN. */
  function Line(g: Grid, d: Direction, i: nat): (r: seq<Item>)
    requires IsSquare(g) && i < |g|
    ensures |r| == |g|
  {
    if d.IsReversed() then Rev(Raw(g, d, i)) else Raw(g, d, i)
  }

  /** Where position `k` of the line `_move_row` receives was read from, along the axis. */
  function ReadPos(d: Direction, n: nat, k: nat): nat
    requires k < n
  {
    if d.IsReversed() then n - 1 - k else k
  }

  /** Every tile of a line is one cell of the board. */
  lemma LineCells(g: Grid, d: Direction, i: nat)
    requires IsSquare(g) && i < |g|
    ensures forall k :: 0 <= k < |g| ==>
      ReadPos(d, |g|, k) < |g| && Line(g, d, i)[k] == g[RowAt(d, i, ReadPos(d, |g|, k))][ColumnAt(d, i, ReadPos(d, |g|, k))]
  {
  }

  /** The line `_move` writes back: the pass's result, reversed back for RIGHT and DOWN. */
  function Resolved(g: Grid, d: Direction, i: nat): (r: seq<Item>)
    requires IsSquare(g) && i < |g|
    ensures |r| == |g|
  {
    if d.IsReversed() then Rev(Slide(Line(g, d, i))) else Slide(Line(g, d, i))
  }

  /** The board after every line has been resolved, before the spawn. */
  function Slid(g: Grid, d: Direction): (s: Grid)
    requires IsSquare(g)
    ensures |s| == |g| && IsSquare(s)
  {
    seq(|g|, r requires 0 <= r < |g| =>
      seq(|g|, c requires 0 <= c < |g| => Resolved(g, d, LineOf(d, r, c))[PosOf(d, r, c)]))
  }

  /** The `modified` flag of each line's pass. */
  function LineMoves(g: Grid, d: Direction): (r: seq<bool>)
    requires IsSquare(g)
    ensures |r| == |g|
  {
    seq(|g|, i requires 0 <= i < |g| => Moved(Line(g, d, i)))
  }

  /** What each line's pass adds to the score. */
  function LineGains(g: Grid, d: Direction): (r: seq<int>)
    requires IsSquare(g)
    ensures |r| == |g|
  {
    seq(|g|, i requires 0 <= i < |g| => Gain(Line(g, d, i)))
  }

  /** Whether one of the first `m` flags is set: the `modified |= new_modified` accumulator. */
  predicate Any(flags: seq<bool>, m: nat)
    requires m <= |flags|
  {
    m > 0 && (Any(flags, m - 1) || flags[m - 1])
  }

  /** The sum of the first `m` entries: the `self._score +=` accumulator. */
  function Total(xs: seq<int>, m: nat): int
    requires m <= |xs|
  {
    if m == 0 then 0 else Total(xs, m - 1) + xs[m - 1]
  }

  lemma LineFlags(g: Grid, d: Direction, i: nat)
    requires IsSquare(g) && i < |g|
    ensures LineMoves(g, d)[i] == Moved(Line(g, d, i)) && LineGains(g, d)[i] == Gain(Line(g, d, i))
  {
  }

  /** One more line in the `modified |=` and `self._score +=` accumulators. */
  lemma AccumulateLine(g: Grid, d: Direction, i: nat)
    requires IsSquare(g) && i < |g|
    ensures Any(LineMoves(g, d), i + 1) == (Any(LineMoves(g, d), i) || LineMoves(g, d)[i])
    ensures Total(LineGains(g, d), i + 1) == Total(LineGains(g, d), i) + LineGains(g, d)[i]
  {
  }

  /** The flag `_move` returns. */
  predicate Changed(g: Grid, d: Direction)
    requires IsSquare(g)
  {
    Any(LineMoves(g, d), |g|)
  }

  /** The score a move earns. */
  function MoveGain(g: Grid, d: Direction): int
    requires IsSquare(g)
  {
    Total(LineGains(g, d), |g|)
  }

  /** The empty cells of the first `r` rows, row by row, as `_get_free_cells` lists them. */
  function FreeRows(g: Grid, r: nat): seq<(nat, nat)>
    requires r <= |g|
  {
    if r == 0 then [] else FreeRows(g, r - 1) + FreeColumns(g, r - 1, |g[r - 1]|)
  }

  /** The empty cells among the first `c` columns of row `r`. */
  function FreeColumns(g: Grid, r: nat, c: nat): seq<(nat, nat)>
    requires r < |g| && c <= |g[r]|
  {
    if c == 0 then [] else FreeColumns(g, r, c - 1) + (if IsEmpty(g[r][c - 1]) then [(r, c - 1)] else [])
  }

  function FreeList(g: Grid): seq<(nat, nat)> {
    FreeRows(g, |g|)
  }

  /** `_generate_new_item` with `random.choice` given as `pick`: a 2 in the chosen free cell, if any. */
  function Spawn(g: Grid, pick: nat): (s: Grid)
    requires IsSquare(g)
    ensures |s| == |g| && IsSquare(s)
  {
    var free := FreeList(g);
    if |free| == 0 then g
    else
      var cell := free[pick % |free|];
      FreeListMembers(g);
      g[cell.0 := g[cell.0][cell.1 := Two]]
  }

  /** `_reset_cells`: every marker cleared. */
  function Cleared(g: Grid): (s: Grid)
    ensures |s| == |g|
    ensures forall r :: 0 <= r < |g| ==> |s[r]| == |g[r]|
    ensures GridClear(s) && GridNormal(s)
  {
    seq(|g|, r requires 0 <= r < |g| =>
      seq(|g[r]|, c requires 0 <= c < |g[r]| => Item(g[r][c].value, false)))
  }

  /** The board `_move` leaves behind. */
  function MoveResult(g: Grid, d: Direction, pick: nat): (s: Grid)
    requires IsSquare(g)
    ensures |s| == |g| && IsSquare(s)
  {
    var slid := Slid(g, d);
    Cleared(if Changed(g, d) then Spawn(slid, pick) else slid)
  }

  /** One step of the `flag &=` loop of `is_over`: cell (i, j) differs from the one below it, and (j, i) from the one to its right. */
  predicate PairsDiffer(g: Grid, i: nat, j: nat)
    requires IsSquare(g) && i + 1 < |g| && j < |g|
  {
    !Same(g[i][j], g[i + 1][j]) && !Same(g[j][i], g[j][i + 1])
  }

  /** `is_over`: no free cell, and no two neighbours, across or down, of equal value. */
  predicate Stuck(g: Grid)
    requires IsSquare(g)
  {
    |FreeList(g)| == 0 && forall i, j :: 0 <= i < |g| - 1 && 0 <= j < |g| ==> PairsDiffer(g, i, j)
  }

  // ---------------------------------------------------------------------
  // The free-cell list

  /** A cell is listed exactly when it is on the board and empty. */
  lemma {:induction false} FreeRowsMembers(g: Grid, r: nat)
    requires r <= |g|
    ensures forall p :: p in FreeRows(g, r) <==> p.0 < r && p.1 < |g[p.0]| && IsEmpty(g[p.0][p.1])
  {
    if r > 0 {
      FreeRowsMembers(g, r - 1);
      FreeColumnsMembers(g, r - 1, |g[r - 1]|);
    }
  }

  lemma {:induction false} FreeColumnsMembers(g: Grid, r: nat, c: nat)
    requires r < |g| && c <= |g[r]|
    ensures forall p :: p in FreeColumns(g, r, c) <==> p.0 == r && p.1 < c && IsEmpty(g[r][p.1])
  {
    if c > 0 {
      FreeColumnsMembers(g, r, c - 1);
    }
  }

  lemma FreeListMembers(g: Grid)
    ensures forall p :: p in FreeList(g) <==> p.0 < |g| && p.1 < |g[p.0]| && IsEmpty(g[p.0][p.1])
  {
    FreeRowsMembers(g, |g|);
  }

  /** Row-major order, as `_get_free_cells` appends. */
  predicate Before(p: (nat, nat), q: (nat, nat)) {
    p.0 < q.0 || (p.0 == q.0 && p.1 < q.1)
  }

  lemma {:induction false} FreeColumnsSorted(g: Grid, r: nat, c: nat)
    requires r < |g| && c <= |g[r]|
    ensures forall i, j :: 0 <= i < j < |FreeColumns(g, r, c)| ==> FreeColumns(g, r, c)[i].1 < FreeColumns(g, r, c)[j].1
    ensures forall p :: p in FreeColumns(g, r, c) ==> p.0 == r && p.1 < c
  {
    if c > 0 {
      FreeColumnsSorted(g, r, c - 1);
    }
  }

  lemma {:induction false} FreeRowsSorted(g: Grid, r: nat)
    requires r <= |g|
    ensures forall i, j :: 0 <= i < j < |FreeRows(g, r)| ==> Before(FreeRows(g, r)[i], FreeRows(g, r)[j])
    ensures forall p :: p in FreeRows(g, r) ==> p.0 < r
  {
    if r > 0 {
      FreeRowsSorted(g, r - 1);
      FreeColumnsSorted(g, r - 1, |g[r - 1]|);
      var a, b := FreeRows(g, r - 1), FreeColumns(g, r - 1, |g[r - 1]|);
      forall i, j | 0 <= i < j < |a + b|
        ensures Before((a + b)[i], (a + b)[j])
      {
        if j < |a| {
        } else if i < |a| {
          assert a[i] in a && b[j - |a|] in b;
        } else {
          assert (a + b)[i] == b[i - |a|] && (a + b)[j] == b[j - |a|];
        }
      }
    }
  }

  /** The free list holds every empty cell once, in row-major order. */
  lemma FreeListIsSorted(g: Grid)
    ensures forall i, j :: 0 <= i < j < |FreeList(g)| ==> Before(FreeList(g)[i], FreeList(g)[j])
  {
    FreeRowsSorted(g, |g|);
  }

  // ---------------------------------------------------------------------
  // Lines and the change flag

  /** The accumulated flag is set exactly when one of the flags is. */
  lemma {:induction false} AnyMeansSomeFlag(flags: seq<bool>, m: nat)
    requires m <= |flags|
    ensures Any(flags, m) <==> exists i :: 0 <= i < m && flags[i]
  {
    if m > 0 {
      AnyMeansSomeFlag(flags, m - 1);
    }
  }

  /** The flag of `_move` is set exactly when some line moved. */
  lemma ChangedMeansSomeLineMoved(g: Grid, d: Direction)
    requires IsSquare(g)
    ensures Changed(g, d) <==> exists i :: 0 <= i < |g| && Moved(Line(g, d, i))
  {
    AnyMeansSomeFlag(LineMoves(g, d), |g|);
    if Changed(g, d) {
      var i :| 0 <= i < |g| && LineMoves(g, d)[i];
      assert Moved(Line(g, d, i));
    } else {
      forall i | 0 <= i < |g|
        ensures !Moved(Line(g, d, i))
      {
        assert !LineMoves(g, d)[i];
      }
    }
  }

  lemma {:induction false} TotalIsNonNegative(xs: seq<int>, m: nat)
    requires m <= |xs|
    requires forall i :: 0 <= i < |xs| ==> xs[i] >= 0
    ensures Total(xs, m) >= 0
  {
    if m > 0 {
      TotalIsNonNegative(xs, m - 1);
    }
  }

  /** Every line of a board whose cells are `Normal` is `Normal` too. */
  lemma LineIsNormal(g: Grid, d: Direction, i: nat)
    requires IsSquare(g) && GridNormal(g) && i < |g|
    ensures AllNormal(Line(g, d, i))
  {
    LineCells(g, d, i);
  }

  /** A line that did not move is written back as it was read. */
  lemma UnmovedLineIsRawLine(g: Grid, d: Direction, i: nat)
    requires IsSquare(g) && GridNormal(g) && i < |g|
    requires !Moved(Line(g, d, i))
    ensures Resolved(g, d, i) == Raw(g, d, i)
  {
    LineIsNormal(g, d, i);
    UnmovedLineIsFixed(Line(g, d, i));
    RevRev(Raw(g, d, i));
  }

  /** When `_move` reports no change, every cell is as before. */
  lemma UnchangedBoardIsFixed(g: Grid, d: Direction)
    requires IsSquare(g) && GridNormal(g)
    requires !Changed(g, d)
    ensures Slid(g, d) == g
  {
    ChangedMeansSomeLineMoved(g, d);
    forall r | 0 <= r < |g|
      ensures Slid(g, d)[r] == g[r]
    {
      forall c | 0 <= c < |g|
        ensures Slid(g, d)[r][c] == g[r][c]
      {
        UnmovedCellIsKept(g, d, r, c);
      }
    }
  }

  /** A cell whose line did not move holds the same tile after the slide. */
  lemma UnmovedCellIsKept(g: Grid, d: Direction, r: nat, c: nat)
    requires IsSquare(g) && GridNormal(g) && r < |g| && c < |g|
    requires !Moved(Line(g, d, LineOf(d, r, c)))
    ensures Slid(g, d)[r][c] == g[r][c]
  {
    var i, j := LineOf(d, r, c), PosOf(d, r, c);
    UnmovedLineIsRawLine(g, d, i);
    CellInItsLine(d, r, c);
    assert Slid(g, d)[r][c] == Resolved(g, d, i)[j];
    assert Raw(g, d, i)[j] == g[RowAt(d, i, j)][ColumnAt(d, i, j)];
  }

  /** A line that moved ends in an empty cell: at its far end, or at index 0 once reversed back. */
  lemma MovedLineFreesACell(g: Grid, d: Direction, i: nat)
    requires IsSquare(g) && i < |g|
    requires Moved(Line(g, d, i))
    ensures var p := if d.IsReversed() then 0 else |g| - 1;
      IsEmpty(Slid(g, d)[RowAt(d, i, p)][ColumnAt(d, i, p)])
  {
    MovedLeavesRoom(Line(g, d, i));
    var p := if d.IsReversed() then 0 else |g| - 1;
    assert Slid(g, d)[RowAt(d, i, p)][ColumnAt(d, i, p)] == Resolved(g, d, i)[p];
  }

  /** An empty cell on the board puts something on the free list. */
  lemma EmptyCellIsListed(g: Grid, r: nat, c: nat)
    requires r < |g| && c < |g[r]| && IsEmpty(g[r][c])
    ensures |FreeList(g)| > 0
  {
    FreeListMembers(g);
    assert (r, c) in FreeList(g);
  }

  /** After a move that changed something there is always a free cell, so the spawn happens. */
  lemma ChangedBoardHasFreeCell(g: Grid, d: Direction)
    requires IsSquare(g) && Changed(g, d)
    ensures |FreeList(Slid(g, d))| > 0
  {
    ChangedMeansSomeLineMoved(g, d);
    var i :| 0 <= i < |g| && Moved(Line(g, d, i));
    MovedLineFreesACell(g, d, i);
    var p := if d.IsReversed() then 0 else |g| - 1;
    EmptyCellIsListed(Slid(g, d), RowAt(d, i, p), ColumnAt(d, i, p));
  }

  // ---------------------------------------------------------------------
  // The spawn and the end of a move

  /** The spawn turns exactly one previously empty cell into a 2. */
  lemma SpawnFillsOneFreeCell(g: Grid, pick: nat)
    requires IsSquare(g) && |FreeList(g)| > 0
    ensures var cell := FreeList(g)[pick % |FreeList(g)|];
      && cell.0 < |g| && cell.1 < |g| && IsEmpty(g[cell.0][cell.1])
      && Spawn(g, pick)[cell.0][cell.1] == Two
      && forall r, c :: 0 <= r < |g| && 0 <= c < |g| && (r, c) != cell ==> Spawn(g, pick)[r][c] == g[r][c]
  {
    FreeListMembers(g);
    var cell := FreeList(g)[pick % |FreeList(g)|];
    assert cell in FreeList(g);
  }

  /** A move that changes nothing leaves a clear board exactly as it was: no spawn. */
  lemma UnchangedMoveKeepsBoard(g: Grid, d: Direction, pick: nat)
    requires IsSquare(g) && GridNormal(g) && GridClear(g)
    requires !Changed(g, d)
    ensures MoveResult(g, d, pick) == g
  {
    UnchangedBoardIsFixed(g, d);
    forall r | 0 <= r < |g|
      ensures Cleared(g)[r] == g[r]
    {
      assert forall c :: 0 <= c < |g| ==> Cleared(g)[r][c] == g[r][c];
    }
  }

  /** On any board, markers or not, a move that changes nothing keeps every value, spawns nothing and clears every marker. */
  lemma UnchangedMoveKeepsValues(g: Grid, d: Direction, pick: nat)
    requires IsSquare(g) && GridNormal(g)
    requires !Changed(g, d)
    ensures forall r, c :: 0 <= r < |g| && 0 <= c < |g| ==>
      MoveResult(g, d, pick)[r][c].value == g[r][c].value && !MoveResult(g, d, pick)[r][c].modified
  {
    UnchangedBoardIsFixed(g, d);
  }

  /**
   * A move that changes something spawns exactly one 2, in a cell the
   * slide left empty, and clears every marker.
   */
  lemma ChangedMoveSpawnsOneTwo(g: Grid, d: Direction, pick: nat)
    requires IsSquare(g) && Changed(g, d)
    ensures |FreeList(Slid(g, d))| > 0
    ensures var slid := Slid(g, d);
      var cell := FreeList(slid)[pick % |FreeList(slid)|];
      var s := MoveResult(g, d, pick);
      && cell.0 < |g| && cell.1 < |g| && IsEmpty(slid[cell.0][cell.1])
      && s[cell.0][cell.1] == Two
      && (forall r, c :: 0 <= r < |g| && 0 <= c < |g| && (r, c) != cell ==> s[r][c].value == slid[r][c].value)
      && GridClear(s)
  {
    ChangedBoardHasFreeCell(g, d);
    SpawnFillsOneFreeCell(Slid(g, d), pick);
  }

  lemma RevKeepsWellValued(s: seq<Item>)
    requires AllWellValued(s)
    ensures AllWellValued(Rev(s))
  {
    assert forall k :: 0 <= k < |s| ==> Rev(s)[k] == s[|s| - 1 - k];
  }

  lemma SlidKeepsPowersOfTwo(g: Grid, d: Direction)
    requires IsSquare(g) && GridWellValued(g)
    ensures GridWellValued(Slid(g, d))
  {
    forall i | 0 <= i < |g|
      ensures AllWellValued(Resolved(g, d, i))
    {
      LineCells(g, d, i);
      SlideKeepsPowersOfTwo(Line(g, d, i));
      RevKeepsWellValued(Slide(Line(g, d, i)));
    }
    forall r, c | 0 <= r < |g| && 0 <= c < |g|
      ensures WellValued(Slid(g, d)[r][c])
    {
      assert Slid(g, d)[r][c] == Resolved(g, d, LineOf(d, r, c))[PosOf(d, r, c)];
    }
  }

  lemma SpawnKeepsNormal(g: Grid, pick: nat)
    requires IsSquare(g) && GridNormal(g)
    ensures GridNormal(Spawn(g, pick))
  {
    if |FreeList(g)| > 0 {
      SpawnFillsOneFreeCell(g, pick);
    }
  }

  lemma SpawnKeepsPowersOfTwo(g: Grid, pick: nat)
    requires IsSquare(g) && GridWellValued(g)
    ensures GridWellValued(Spawn(g, pick))
  {
    assert IsPowerOfTwo(1);
    assert WellValued(Two);
    if |FreeList(g)| > 0 {
      SpawnFillsOneFreeCell(g, pick);
    }
  }

  lemma ClearedKeepsPowersOfTwo(g: Grid)
    requires GridWellValued(g)
    ensures GridWellValued(Cleared(g))
  {
    forall r, c | 0 <= r < |g| && 0 <= c < |g[r]|
      ensures WellValued(Cleared(g)[r][c])
    {
      assert Cleared(g)[r][c].value == g[r][c].value;
    }
  }

  /** Values stay 0 or a power of two of at least 2: merges double, spawns are 2. */
  lemma MoveKeepsPowersOfTwo(g: Grid, d: Direction, pick: nat)
    requires IsSquare(g) && GridWellValued(g)
    ensures GridWellValued(MoveResult(g, d, pick))
  {
    SlidKeepsPowersOfTwo(g, d);
    var slid := Slid(g, d);
    if Changed(g, d) {
      SpawnKeepsPowersOfTwo(slid, pick);
      ClearedKeepsPowersOfTwo(Spawn(slid, pick));
    } else {
      ClearedKeepsPowersOfTwo(slid);
    }
  }

  /** A board without negative values reads as lines without negative values. */
  lemma LineIsNonNegative(g: Grid, d: Direction, i: nat)
    requires IsSquare(g) && i < |g|
    requires forall r, c :: 0 <= r < |g| && 0 <= c < |g| ==> g[r][c].value >= 0
    ensures forall k :: 0 <= k < |g| ==> Line(g, d, i)[k].value >= 0
  {
    var line := Line(g, d, i);
    LineCells(g, d, i);
    forall k | 0 <= k < |line|
      ensures line[k].value >= 0
    {
      var q := ReadPos(d, |g|, k);
      assert line[k] == g[RowAt(d, i, q)][ColumnAt(d, i, q)];
    }
  }

  lemma LineGainIsNonNegative(g: Grid, d: Direction, i: nat)
    requires IsSquare(g) && i < |g|
    requires forall r, c :: 0 <= r < |g| && 0 <= c < |g| ==> g[r][c].value >= 0
    ensures Gain(Line(g, d, i)) >= 0
  {
    LineIsNonNegative(g, d, i);
    GainIsNonNegative(Line(g, d, i));
  }

  /** The score never falls: every gain is the value of a merged, positive tile. */
  lemma MoveGainIsNonNegative(g: Grid, d: Direction)
    requires IsSquare(g)
    requires forall r, c :: 0 <= r < |g| && 0 <= c < |g| ==> g[r][c].value >= 0
    ensures MoveGain(g, d) >= 0
  {
    forall i | 0 <= i < |g|
      ensures LineGains(g, d)[i] >= 0
    {
      LineGainIsNonNegative(g, d, i);
    }
    TotalIsNonNegative(LineGains(g, d), |g|);
  }

  /** The lookahead as its callers read it: a pass along `d` would merge two tiles in some line. */
  predicate SomeLineMerges(g: Grid, d: Direction)
    requires IsSquare(g)
  {
    exists i :: 0 <= i < |g| && AnyMerge(Line(g, d, i))
  }

  lemma {:induction false} TotalIsPositive(xs: seq<int>, m: nat)
    requires m <= |xs|
    requires forall i :: 0 <= i < |xs| ==> xs[i] >= 0
    ensures Total(xs, m) > 0 <==> exists i :: 0 <= i < m && xs[i] > 0
  {
    if m > 0 {
      TotalIsPositive(xs, m - 1);
      TotalIsNonNegative(xs, m - 1);
    }
  }

  /** With no negative value, a pass along `d` earns something exactly when some line merges. */
  lemma MoveGainIsPositiveIffMerge(g: Grid, d: Direction)
    requires IsSquare(g)
    requires forall r, c :: 0 <= r < |g| && 0 <= c < |g| ==> g[r][c].value >= 0
    ensures MoveGain(g, d) > 0 <==> SomeLineMerges(g, d)
  {
    forall i | 0 <= i < |g|
      ensures LineGains(g, d)[i] >= 0 && (LineGains(g, d)[i] > 0 <==> AnyMerge(Line(g, d, i)))
    {
      LineIsNonNegative(g, d, i);
      GainIsNonNegative(Line(g, d, i));
      GainIsPositiveIffMerge(Line(g, d, i));
      LineFlags(g, d, i);
    }
    TotalIsPositive(LineGains(g, d), |g|);
  }

  // ---------------------------------------------------------------------
  // The end of the game

  /**
   * `is_over` read without the loop's transposed indexing: every cell holds
   * a tile, and no cell equals its right or its lower neighbour.
   */
  lemma StuckIffNoEqualNeighbours(g: Grid)
    requires IsSquare(g)
    ensures Stuck(g) <==>
      && (forall r, c :: 0 <= r < |g| && 0 <= c < |g| ==> !IsEmpty(g[r][c]))
      && (forall r, c {:trigger Same(g[r][c], g[r + 1][c])} :: 0 <= r < |g| - 1 && 0 <= c < |g| ==> !Same(g[r][c], g[r + 1][c]))
      && (forall r, c {:trigger Same(g[r][c], g[r][c + 1])} :: 0 <= r < |g| && 0 <= c < |g| - 1 ==> !Same(g[r][c], g[r][c + 1]))
  {
    FreeListMembers(g);
    if Stuck(g) {
      forall r, c | 0 <= r < |g| && 0 <= c < |g|
        ensures !IsEmpty(g[r][c])
      {
        assert (r, c) !in FreeList(g);
      }
      forall r, c {:trigger Same(g[r][c], g[r + 1][c])} | 0 <= r < |g| - 1 && 0 <= c < |g|
        ensures !Same(g[r][c], g[r + 1][c])
      {
        assert PairsDiffer(g, r, c);
      }
      forall r, c {:trigger Same(g[r][c], g[r][c + 1])} | 0 <= r < |g| && 0 <= c < |g| - 1
        ensures !Same(g[r][c], g[r][c + 1])
      {
        assert PairsDiffer(g, c, r);
      }
    } else if |FreeList(g)| != 0 {
      var p := FreeList(g)[0];
      assert p in FreeList(g);
    } else {
      var i, j :| 0 <= i < |g| - 1 && 0 <= j < |g| && !PairsDiffer(g, i, j);
      if Same(g[i][j], g[i + 1][j]) {
        assert !(forall r, c {:trigger Same(g[r][c], g[r + 1][c])} :: 0 <= r < |g| - 1 && 0 <= c < |g| ==> !Same(g[r][c], g[r + 1][c]));
      } else {
        assert !(forall r, c {:trigger Same(g[r][c], g[r][c + 1])} :: 0 <= r < |g| && 0 <= c < |g| - 1 ==> !Same(g[r][c], g[r][c + 1]));
      }
    }
  }

  /** On a stuck board every line is full and no two neighbours in it are equal, so nothing moves. */
  lemma StuckLineDoesNotMove(g: Grid, d: Direction, i: nat)
    requires IsSquare(g) && i < |g| && Stuck(g)
    ensures !Moved(Line(g, d, i))
  {
    var line, n := Line(g, d, i), |g|;
    LineCells(g, d, i);
    FreeListMembers(g);
    forall k | 0 <= k < n
      ensures !IsEmpty(line[k])
    {
      var q := ReadPos(d, n, k);
      assert (RowAt(d, i, q), ColumnAt(d, i, q)) !in FreeList(g);
    }
    forall k | 0 < k < n
      ensures line[k - 1].value != line[k].value
    {
      var q1, q2 := ReadPos(d, n, k - 1), ReadPos(d, n, k);
      var a := if q1 < q2 then q1 else q2;
      assert PairsDiffer(g, a, i);
    }
    DistinctNeighboursDoNotMove(line);
  }

  /** `is_over` means the game cannot go on: no direction changes a stuck board. */
  lemma StuckBoardCannotMove(g: Grid, d: Direction)
    requires IsSquare(g) && Stuck(g)
    ensures !Changed(g, d)
  {
    forall i | 0 <= i < |g|
      ensures !Moved(Line(g, d, i))
    {
      StuckLineDoesNotMove(g, d, i);
    }
    ChangedMeansSomeLineMoved(g, d);
  }

  /** A line with an empty cell ahead of a tile, in the order the pass reads it, moves. */
  lemma GapMoves(g: Grid, d: Direction, i: nat, a: nat, b: nat)
    requires IsSquare(g) && i < |g| && a < |g| && b < |g|
    requires IsEmpty(Raw(g, d, i)[a]) && !IsEmpty(Raw(g, d, i)[b])
    requires if d.IsReversed() then b < a else a < b
    ensures Changed(g, d)
  {
    var n := |g|;
    var a', b' := ReadPos(d, n, a), ReadPos(d, n, b);
    LineAtReadPos(g, d, i, a');
    LineAtReadPos(g, d, i, b');
    GapBeforeTileMoves(Line(g, d, i), a', b');
    MovedLineChangesBoard(g, d, i);
  }

  /** Position `k` of the line the pass receives holds the cell read from `ReadPos(d, |g|, k)`. */
  lemma LineAtReadPos(g: Grid, d: Direction, i: nat, k: nat)
    requires IsSquare(g) && i < |g| && k < |g|
    ensures ReadPos(d, |g|, k) < |g| && ReadPos(d, |g|, ReadPos(d, |g|, k)) == k
    ensures Line(g, d, i)[k] == Raw(g, d, i)[ReadPos(d, |g|, k)]
  {
  }

  lemma MovedLineChangesBoard(g: Grid, d: Direction, i: nat)
    requires IsSquare(g) && i < |g| && Moved(Line(g, d, i))
    ensures Changed(g, d)
  {
    ChangedMeansSomeLineMoved(g, d);
  }

  /** A board with a tile and a free cell can always be moved one way or another. */
  lemma GapBoardCanMove(g: Grid, r1: nat, c1: nat, r2: nat, c2: nat)
    requires IsSquare(g) && r1 < |g| && c1 < |g| && r2 < |g| && c2 < |g|
    requires !IsEmpty(g[r1][c1]) && IsEmpty(g[r2][c2])
    ensures Changed(g, Right) || Changed(g, Up) || Changed(g, Left) || Changed(g, Down)
  {
    if IsEmpty(g[r1][c2]) {
      // Row r1 holds the tile at c1 and a gap at c2.
      var d := if c2 < c1 then Left else Right;
      assert Raw(g, d, r1)[c2] == g[r1][c2] && Raw(g, d, r1)[c1] == g[r1][c1];
      GapMoves(g, d, r1, c2, c1);
    } else {
      // Column c2 holds a tile at r1 and the gap at r2.
      var d := if r2 < r1 then Up else Down;
      assert Raw(g, d, c2)[r2] == g[r2][c2] && Raw(g, d, c2)[r1] == g[r1][c2];
      GapMoves(g, d, c2, r2, r1);
    }
  }

  /** A full, clear board with two equal neighbours can be moved: LEFT merges a row pair, UP a column pair. */
  lemma TwinBoardCanMove(g: Grid, i: nat, j: nat)
    requires IsSquare(g) && GridClear(g) && i + 1 < |g| && j < |g|
    requires forall r, c :: 0 <= r < |g| && 0 <= c < |g| ==> !IsEmpty(g[r][c])
    requires !PairsDiffer(g, i, j)
    ensures Changed(g, Up) || Changed(g, Left)
  {
    var d := if g[i][j].value == g[i + 1][j].value then Up else Left;
    var line := Line(g, d, j);
    LineCells(g, d, j);
    assert AllClear(line);
    TwinNeighboursMove(line, i);
    ChangedMeansSomeLineMoved(g, d);
  }

  /**
   * On a clear board holding at least one tile, `is_over` holds exactly
   * when no direction changes the board.
   */
  lemma StuckIffNoMove(g: Grid)
    requires IsSquare(g) && GridClear(g)
    requires exists r, c :: 0 <= r < |g| && 0 <= c < |g| && !IsEmpty(g[r][c])
    ensures Stuck(g) <==> !Changed(g, Right) && !Changed(g, Up) && !Changed(g, Left) && !Changed(g, Down)
  {
    if Stuck(g) {
      StuckBoardCannotMove(g, Right);
      StuckBoardCannotMove(g, Up);
      StuckBoardCannotMove(g, Left);
      StuckBoardCannotMove(g, Down);
    } else {
      FreeListMembers(g);
      var r1, c1 :| 0 <= r1 < |g| && 0 <= c1 < |g| && !IsEmpty(g[r1][c1]);
      if |FreeList(g)| > 0 {
        var cell := FreeList(g)[0];
        assert cell in FreeList(g);
        GapBoardCanMove(g, r1, c1, cell.0, cell.1);
      } else {
        forall r, c | 0 <= r < |g| && 0 <= c < |g|
          ensures !IsEmpty(g[r][c])
        {
          assert (r, c) !in FreeList(g);
        }
        var i, j :| 0 <= i < |g| - 1 && 0 <= j < |g| && !PairsDiffer(g, i, j);
        TwinBoardCanMove(g, i, j);
      }
    }
  }

  // ---------------------------------------------------------------------
  // A new board

  /** `[[Item() for i in range(size)] for j in range(size)]`. */
  function EmptyGrid(n: nat): (g: Grid)
    ensures |g| == n && IsSquare(g)
  {
    seq(n, _ => Empties(n))
  }

  /** On an empty board the free list is every cell, in row-major order: entry k is cell (k / n, k % n). */
  lemma {:induction false} EmptyFreeColumns(n: nat, r: nat, c: nat)
    requires r < n && c <= n
    ensures var free := FreeColumns(EmptyGrid(n), r, c);
      |free| == c && forall j :: 0 <= j < c ==> free[j] == (r, j)
  {
    if c > 0 {
      EmptyFreeColumns(n, r, c - 1);
    }
  }

  lemma {:induction false} EmptyFreeRows(n: nat, r: nat)
    requires r <= n
    ensures var free := FreeRows(EmptyGrid(n), r);
      |free| == r * n && forall k :: 0 <= k < r * n ==> free[k].0 * n + free[k].1 == k && free[k].1 < n
  {
    if r > 0 {
      EmptyFreeRows(n, r - 1);
      EmptyFreeColumns(n, r - 1, n);
      var a, b := FreeRows(EmptyGrid(n), r - 1), FreeColumns(EmptyGrid(n), r - 1, n);
      var free: seq<(nat, nat)> := a + b;
      assert |free| == r * n;
      forall k | 0 <= k < r * n
        ensures free[k].0 * n + free[k].1 == k && free[k].1 < n
      {
        if k >= |a| {
          assert free[k] == b[k - |a|] == (r - 1, k - |a|);
        }
      }
    }
  }

  /** `Field()` starts with exactly one tile, a 2, in cell number `pick % (n * n)` counted row by row. */
  lemma NewBoardHasOneTwo(n: nat, pick: nat)
    requires n > 0
    ensures var s := Spawn(EmptyGrid(n), pick);
      exists r: nat, c: nat :: 0 <= r < n && 0 <= c < n && r * n + c == pick % (n * n) && s[r][c] == Two &&
        forall r': nat, c': nat :: 0 <= r' < n && 0 <= c' < n && (r', c') != (r, c) ==> s[r'][c'] == Empty
  {
    var g := EmptyGrid(n);
    EmptyFreeRows(n, n);
    var k := pick % (n * n);
    var cell := FreeList(g)[k];
    SpawnFillsOneFreeCell(g, pick);
    assert cell.0 * n + cell.1 == k;
  }

  // ---------------------------------------------------------------------
  // What `equal_in_row_or_clmn` leaves on the board

  /**
   * The board after the passes of `equal_in_row_or_clmn` along `d` (LEFT
   * for rows, UP for columns): each line's Items are where they were, but
   * the ones a merge doubled stay doubled and marked.
   */
  function Bumped(g: Grid, d: Direction): (s: Grid)
    requires IsSquare(g)
    ensures |s| == |g| && IsSquare(s)
  {
    seq(|g|, r requires 0 <= r < |g| =>
      seq(|g|, c requires 0 <= c < |g| => Touched(Raw(g, d, LineOf(d, r, c)))[PosOf(d, r, c)]))
  }

  /** Every cell is as it was, or a tile doubled and marked by a merge. */
  lemma BumpedDoublesAtMostOnce(g: Grid, d: Direction)
    requires IsSquare(g)
    ensures forall r, c :: 0 <= r < |g| && 0 <= c < |g| ==>
      Bumped(g, d)[r][c] == g[r][c] || (!IsEmpty(g[r][c]) && Bumped(g, d)[r][c] == Increase(g[r][c]))
  {
    forall r, c | 0 <= r < |g| && 0 <= c < |g|
      ensures Bumped(g, d)[r][c] == g[r][c] || (!IsEmpty(g[r][c]) && Bumped(g, d)[r][c] == Increase(g[r][c]))
    {
      var i, j := LineOf(d, r, c), PosOf(d, r, c);
      CellInItsLine(d, r, c);
      TouchedDoublesAtMostOnce(Raw(g, d, i));
      assert Raw(g, d, i)[j] == g[r][c];
    }
  }

  /**
   * Line `i` of the lookahead: each packed tile lands on the cell its Item
   * came from, and every other cell of the line is left as it was.
   */
  lemma BumpedLine(g: Grid, d: Direction, i: nat)
    requires IsSquare(g) && i < |g|
    ensures var line, ids := Raw(g, d, i), Origins(Raw(g, d, i));
      && (forall k :: 0 <= k < |ids| ==>
            ids[k] < |g| && Bumped(g, d)[RowAt(d, i, ids[k])][ColumnAt(d, i, ids[k])] == Slide(line)[k])
      && (forall j :: 0 <= j < |g| && j !in ids ==>
            Bumped(g, d)[RowAt(d, i, j)][ColumnAt(d, i, j)] == g[RowAt(d, i, j)][ColumnAt(d, i, j)])
  {
    var line := Raw(g, d, i);
    TouchedAtOrigins(line);
    TouchedKeepsOthers(line);
    forall j | 0 <= j < |g|
      ensures Bumped(g, d)[RowAt(d, i, j)][ColumnAt(d, i, j)] == Touched(line)[j]
    {
      assert LineOf(d, RowAt(d, i, j), ColumnAt(d, i, j)) == i;
      assert PosOf(d, RowAt(d, i, j), ColumnAt(d, i, j)) == j;
    }
  }

  /** The lookahead keeps every empty cell unmarked. */
  lemma BumpedKeepsNormal(g: Grid, d: Direction)
    requires IsSquare(g) && GridNormal(g)
    ensures GridNormal(Bumped(g, d))
  {
    BumpedDoublesAtMostOnce(g, d);
  }

  /** If no line moves, the board is left alone. */
  lemma UnmovedBoardIsUntouched(g: Grid, d: Direction)
    requires IsSquare(g) && !d.IsReversed() && !Changed(g, d)
    ensures Bumped(g, d) == g
  {
    ChangedMeansSomeLineMoved(g, d);
    forall r | 0 <= r < |g|
      ensures Bumped(g, d)[r] == g[r]
    {
      forall c | 0 <= c < |g|
        ensures Bumped(g, d)[r][c] == g[r][c]
      {
        var i, j := LineOf(d, r, c), PosOf(d, r, c);
        CellInItsLine(d, r, c);
        assert Line(g, d, i) == Raw(g, d, i);
        UnmovedLineIsUntouched(Raw(g, d, i));
        assert Raw(g, d, i)[j] == g[r][c];
      }
    }
  }

  /** `equal_in_row` on [[2, 2], [0, 0]]: it reports true, and the board now reads [[4, 2], [0, 0]] with the 4 marked. */
  lemma EqualInRowChangesTheBoard()
    ensures var g := [[Item(2, false), Item(2, false)], [Empty, Empty]];
      && Changed(g, Left)
      && MoveGain(g, Left) == 4
      && Bumped(g, Left) == [[Item(4, true), Item(2, false)], [Empty, Empty]]
  {
    PairRowBoard(Item(2, false));
  }

  /** A board whose first row is a mergeable pair and whose second row is empty, looked at to the left. */
  lemma PairRowBoard(t: Item)
    requires !IsEmpty(t) && !t.modified
    ensures var g := [[t, t], [Empty, Empty]];
      && Changed(g, Left)
      && MoveGain(g, Left) == Increase(t).value
      && Bumped(g, Left) == [[Increase(t), t], [Empty, Empty]]
  {
    var g := [[t, t], [Empty, Empty]];
    PairRowLines(g, t);
    PairMerges(t);
    EmptyPairIsIdle();
    MovedLineChangesBoard(g, Left, 0);
    PairRowGain(g, t);
    PairRowBumped(g, t);
  }

  lemma PairRowLines(g: Grid, t: Item)
    requires g == [[t, t], [Empty, Empty]]
    ensures IsSquare(g) && Raw(g, Left, 0) == Line(g, Left, 0) == [t, t]
    ensures Raw(g, Left, 1) == Line(g, Left, 1) == [Empty, Empty]
  {
    assert Raw(g, Left, 0) == g[0];
    assert Raw(g, Left, 1) == g[1];
  }

  lemma PairRowGain(g: Grid, t: Item)
    requires g == [[t, t], [Empty, Empty]] && !IsEmpty(t) && !t.modified
    ensures MoveGain(g, Left) == Increase(t).value
  {
    PairRowLines(g, t);
    PairMerges(t);
    EmptyPairIsIdle();
    LineFlags(g, Left, 0);
    LineFlags(g, Left, 1);
    assert Total(LineGains(g, Left), 1) == Increase(t).value;
  }

  lemma PairRowBumped(g: Grid, t: Item)
    requires g == [[t, t], [Empty, Empty]] && !IsEmpty(t) && !t.modified
    ensures Bumped(g, Left) == [[Increase(t), t], [Empty, Empty]]
  {
    PairRowLines(g, t);
    PairTouched(t);
    EmptyPairIsIdle();
    assert Bumped(g, Left)[0] == Touched(Raw(g, Left, 0));
    assert Bumped(g, Left)[1] == Touched(Raw(g, Left, 1));
  }

  /**
   * `equal_in_row` on [[0, 2], [0, 0]]: the 2 only slides, yet the answer
   * is true; no line merges and the score does not rise.
   */
  lemma EqualInRowCountsASlide()
    ensures var g := [[Empty, Two], [Empty, Empty]];
      && Changed(g, Left)
      && MoveGain(g, Left) == 0
      && !SomeLineMerges(g, Left)
  {
    SlideRowBoard(Two);
  }

  /** A board whose first row is a gap before a tile and whose second row is empty, looked at to the left. */
  lemma SlideRowBoard(t: Item)
    requires t.value > 0
    ensures var g := [[Empty, t], [Empty, Empty]];
      && Changed(g, Left)
      && MoveGain(g, Left) == 0
      && !SomeLineMerges(g, Left)
  {
    var g := [[Empty, t], [Empty, Empty]];
    assert Raw(g, Left, 0) == g[0];
    assert Raw(g, Left, 1) == g[1];
    GapPairSlides(t);
    EmptyPairIsIdle();
    GainIsPositiveIffMerge([Empty, t]);
    GainIsPositiveIffMerge([Empty, Empty]);
    MovedLineChangesBoard(g, Left, 0);
    LineFlags(g, Left, 0);
    LineFlags(g, Left, 1);
    assert Total(LineGains(g, Left), 1) == 0;
  }
}
