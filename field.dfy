/** The board of game/models.py: class `Field`. */
module Models {
  import opened Items
  import opened RowPass
  import opened Board

  /** `n` positions holding fresh `Item()`s, which belong to no cell of the board. */
  function NoOrigin(n: nat): seq<int> {
    seq(n, _ => -1)
  }

  /**
   * Where a pass over `line` stands after visiting `i` positions: `packed`
   * and its origins `ids` at the front, empty cells up to `i`, the rest
   * untouched.
   */
  ghost predicate Laid(row: array<Item>, origin: array<int>, line: seq<Item>, i: nat, packed: seq<Item>, ids: seq<nat>)
    reads row, origin
  {
    && row.Length == origin.Length == |line| && |ids| == |packed| <= i <= |line|
    && (forall k :: 0 <= k < |packed| ==> row[k] == packed[k])
    && (forall k :: 0 <= k < |packed| ==> origin[k] == ids[k])
    && (forall k :: |packed| <= k < i ==> row[k] == Empty)
    && (forall k :: |packed| <= k < i ==> origin[k] == -1)
    && (forall k :: i <= k < |line| ==> row[k] == line[k])
    && (forall k :: i <= k < |line| ==> origin[k] == if IsEmpty(line[k]) then -1 else k)
  }

  /** Once every position has been visited, the row and origins are those of the whole pass. */
  lemma PassResult(row: array<Item>, origin: array<int>, line: seq<Item>)
    requires Laid(row, origin, line, |line|, Pack(line), Origins(line))
    ensures row[..] == Slide(line)
    ensures origin[..] == Origins(line) + NoOrigin(|line| - |Pack(line)|)
  {
  }

  /** `list.reverse`, in place. */
  method Reverse(a: array<Item>)
    modifies a
    ensures a[..] == Rev(old(a[..]))
  {
    var i := 0;
    while i < a.Length / 2
      invariant 0 <= i <= a.Length / 2
      invariant forall k :: 0 <= k < i ==> a[k] == old(a[a.Length - 1 - k]) && a[a.Length - 1 - k] == old(a[k])
      invariant forall k :: i <= k < a.Length - i ==> a[k] == old(a[k])
    {
      a[i], a[a.Length - 1 - i] := a[a.Length - 1 - i], a[i];
      i := i + 1;
    }
  }

  class Field {
    const size: nat
    var cells: array2<Item>
    var score: int

    /** `values`: the board as rows of tiles. */
    function Contents(): (g: Grid)
      reads this`cells, cells
      ensures |g| == cells.Length0
      ensures forall r :: 0 <= r < |g| ==> |g[r]| == cells.Length1
    {
      var a := cells;
      seq(a.Length0, r requires 0 <= r < a.Length0 reads a =>
        seq(a.Length1, c requires 0 <= c < a.Length1 && r < a.Length0 reads a => a[r, c]))
    }

    /** The board is `h` when every cell agrees with it. */
    lemma ContentsAre(h: Grid)
      requires |h| == cells.Length0 && forall r :: 0 <= r < |h| ==> |h[r]| == cells.Length1
      requires forall r, c :: 0 <= r < cells.Length0 && 0 <= c < cells.Length1 ==> cells[r, c] == h[r][c]
      ensures Contents() == h
    {
      forall r | 0 <= r < |h|
        ensures Contents()[r] == h[r]
      {
      }
    }

    predicate Shaped()
      reads this`cells
    {
      cells.Length0 == size && cells.Length1 == size
    }

    ghost predicate Valid()
      reads this`cells, cells
    {
      Shaped() && forall r, c :: 0 <= r < size && 0 <= c < size ==> Normal(cells[r, c])
    }

    lemma ContentsOfValid()
      requires Valid()
      ensures IsSquare(Contents()) && |Contents()| == size && GridNormal(Contents())
    {
    }

    lemma ValidFromContents()
      requires Shaped() && GridNormal(Contents())
      ensures Valid()
    {
      forall r, c | 0 <= r < size && 0 <= c < size
        ensures Normal(cells[r, c])
      {
        assert cells[r, c] == Contents()[r][c];
      }
    }

    /** `Field(size, values, init_score)`: the given rows are the board itself, and nothing is spawned. */
    constructor WithValues(size: nat, values: array2<Item>, initScore: int)
      requires values.Length0 == size && values.Length1 == size
      requires forall r, c :: 0 <= r < size && 0 <= c < size ==> Normal(values[r, c])
      ensures Valid() && this.size == size && cells == values && score == initScore
    {
      this.size := size;
      cells := values;
      score := initScore;
    }

    /** `Field(size)`: an empty board with one 2 spawned, `random.choice` given as `pick`. */
    constructor (size: nat, initScore: int, pick: nat)
      ensures Valid() && this.size == size && fresh(cells)
      ensures Contents() == Spawn(EmptyGrid(size), pick)
      ensures score == initScore
    {
      this.size := size;
      cells := new Item[size, size]((_, _) => Empty);
      new;
      ContentsAre(EmptyGrid(size));
      GenerateNewItem(pick);
      SpawnKeepsNormal(EmptyGrid(size), pick);
      ValidFromContents();
      score := initScore;
    }

    /** `_get_free_cells`: the empty cells in row-major order. */
    method FreeCells() returns (free: seq<(nat, nat)>)
      ensures free == FreeList(Contents())
    {
      ghost var g := Contents();
      free := [];
      var r := 0;
      while r < cells.Length0
        invariant 0 <= r <= cells.Length0
        invariant free == FreeRows(g, r)
      {
        var c := 0;
        while c < cells.Length1
          invariant 0 <= c <= cells.Length1
          invariant free == FreeRows(g, r) + FreeColumns(g, r, c)
        {
          if IsEmpty(cells[r, c]) {
            free := free + [(r, c)];
          }
          c := c + 1;
        }
        r := r + 1;
      }
    }

    /** `is_over`: no free cell and no two equal neighbours, checked by the `flag &=` loops. */
    method IsOver() returns (over: bool)
      requires Shaped()
      ensures over == Stuck(Contents())
    {
      ghost var g := Contents();
      var free := FreeCells();
      if |free| != 0 {
        return false;
      }
      var flag := true;
      var i := 0;
      while i + 1 < size
        invariant i == 0 || i < size
        invariant flag == forall i', j' :: 0 <= i' < i && i' < size - 1 && 0 <= j' < size ==> PairsDiffer(g, i', j')
      {
        var j := 0;
        while j < size
          invariant 0 <= j <= size
          invariant flag == forall i', j' ::
            ((0 <= i' < i && 0 <= j' < size) || (i' == i && 0 <= j' < j)) ==> PairsDiffer(g, i', j')
        {
          assert PairsDiffer(g, i, j) <==> !Same(cells[i, j], cells[i + 1, j]) && !Same(cells[j, i], cells[j, i + 1]);
          flag := flag && !Same(cells[i, j], cells[i + 1, j]);
          flag := flag && !Same(cells[j, i], cells[j, i + 1]);
          j := j + 1;
        }
        i := i + 1;
      }
      over := flag;
    }

    /** `_generate_new_item`: a 2 in free cell number `pick % |free|`; nothing when the board is full. */
    method GenerateNewItem(pick: nat)
      requires Shaped()
      modifies cells
      ensures Contents() == Spawn(old(Contents()), pick)
    {
      var free := FreeCells();
      if |free| > 0 {
        FreeListMembers(Contents());
        var cell := free[pick % |free|];
        assert cell in free;
        ghost var g := Contents();
        cells[cell.0, cell.1] := Two;
        ContentsAre(g[cell.0 := g[cell.0][cell.1 := Two]]);
      }
    }

    /** `_reset_cells`: every marker cleared. */
    method ResetCells()
      modifies cells
      ensures Contents() == Cleared(old(Contents()))
    {
      ghost var g := Contents();
      var r := 0;
      while r < cells.Length0
        invariant 0 <= r <= cells.Length0
        invariant forall r', c :: 0 <= r' < cells.Length0 && 0 <= c < cells.Length1 ==>
          cells[r', c] == if r' < r then Cleared(g)[r'][c] else g[r'][c]
      {
        var c := 0;
        while c < cells.Length1
          invariant 0 <= c <= cells.Length1
          invariant forall r', c' :: 0 <= r' < cells.Length0 && 0 <= c' < cells.Length1 ==>
            cells[r', c'] == if r' < r || (r' == r && c' < c) then Cleared(g)[r'][c'] else g[r'][c']
        {
          cells[r, c] := Item(cells[r, c].value, false);
          c := c + 1;
        }
        r := r + 1;
      }
      ContentsAre(Cleared(g));
    }

    /**
     * `_move_row`: one pass toward index 0 over `row`, in place.  `origin`
     * says, for each position, which position of the input the Item there
     * started at, or -1 for a fresh `Item()`: the pass moves Items, so this
     * is what a caller needs to follow them.
     */
    method MoveRow(row: array<Item>) returns (modified: bool, origin: array<int>)
      requires forall k :: 0 <= k < row.Length ==> Normal(row[k])
      modifies this`score, row
      ensures fresh(origin) && origin.Length == row.Length
      ensures row[..] == Slide(old(row[..]))
      ensures modified == Moved(old(row[..]))
      ensures score == old(score) + Gain(old(row[..]))
      ensures origin[..] == Origins(old(row[..])) + NoOrigin(row.Length - |Pack(old(row[..]))|)
    {
      ghost var line := row[..];
      origin := new int[row.Length](k requires 0 <= k < row.Length reads row => if IsEmpty(row[k]) then -1 else k);
      modified := false;
      // The packed prefix and its origins so far, as the specification functions give them.
      ghost var packed: seq<Item>, ids: seq<nat> := [], [];
      var index := 0;
      while index < row.Length
        invariant 0 <= index <= row.Length
        invariant packed == Pack(line[..index]) && ids == Origins(line[..index])
        invariant modified == Moved(line[..index])
        invariant score == old(score) + Gain(line[..index])
        invariant Laid(row, origin, line, index, packed, ids)
      {
        var moved;
        moved, packed, ids := Visit(row, origin, index, line, packed, ids);
        modified := modified || moved;
        index := index + 1;
      }
      assert line[..row.Length] == line;
      PassResult(row, origin, line);
    }

    /** One turn of the outer loop of `_move_row`: the Item at `index` is left alone if empty, else sunk. */
    method Visit(row: array<Item>, origin: array<int>, index: nat, ghost line: seq<Item>, ghost packed: seq<Item>, ghost ids: seq<nat>)
        returns (moved: bool, ghost next: seq<Item>, ghost nextIds: seq<nat>)
      requires index < row.Length == origin.Length == |line| && Normal(line[index])
      requires packed == Pack(line[..index]) && ids == Origins(line[..index])
      requires Laid(row, origin, line, index, packed, ids)
      modifies this`score, row, origin
      ensures next == Pack(line[..index + 1]) && nextIds == Origins(line[..index + 1])
      ensures Moved(line[..index + 1]) == (Moved(line[..index]) || moved)
      ensures score == old(score) + Gain(line[..index + 1]) - Gain(line[..index])
      ensures Laid(row, origin, line, index + 1, next, nextIds)
    {
      var item := row[index];
      VisitStep(line, index);
      next, nextIds := Settle(packed, item), Origins(line[..index + 1]);
      if IsEmpty(item) {
        moved := false;
        assert next == packed && nextIds == ids;
      } else {
        PackHasNoEmpty(line[..index]);
        moved := SinkTile(row, origin, index, packed, ids, next, nextIds);
      }
    }

    /**
     * The inner loop of `_move_row`: the tile at `index` walks toward index
     * 0 over empty cells, then merges into the tile it meets or stops.  The
     * loop does not leave after a merge: the next comparison is with the
     * doubled, now marked tile, which cannot merge, so it stops there.
     * `packed` and `ids` are the packed prefix before `index` and the
     * origins of its Items.
     */
    method SinkTile(row: array<Item>, origin: array<int>, index: nat, ghost packed: seq<Item>, ghost ids: seq<nat>,
                    ghost next: seq<Item>, ghost nextIds: seq<nat>)
        returns (moved: bool)
      requires index < row.Length && origin.Length == row.Length
      requires |packed| <= index && |ids| == |packed|
      requires forall k :: 0 <= k < |packed| ==> !IsEmpty(packed[k])
      requires !IsEmpty(row[index]) && origin[index] == index
      requires forall k :: 0 <= k < |packed| ==> row[k] == packed[k] && origin[k] == ids[k]
      requires forall k :: |packed| <= k < index ==> row[k] == Empty && origin[k] == -1
      requires next == Settle(packed, row[index])
      requires nextIds == if Merges(packed, row[index]) then ids else ids + [index]
      modifies this`score, row, origin
      ensures |nextIds| == |next| <= index + 1
      ensures forall k :: 0 <= k < |next| ==> row[k] == next[k]
      ensures forall k :: 0 <= k < |next| ==> origin[k] == nextIds[k]
      ensures forall k :: |next| <= k <= index ==> row[k] == Empty
      ensures forall k :: |next| <= k <= index ==> origin[k] == -1
      ensures forall k :: index < k < row.Length ==> row[k] == old(row[k]) && origin[k] == old(origin[k])
      ensures moved == (|packed| < index || Merges(packed, old(row[index])))
      ensures score == old(score) + (if Merges(packed, old(row[index])) then Increase(Last(packed)).value else 0)
    {
      var item := row[index];
      ghost var n := |packed|;
      moved := false;
      var newIndex := index - 1;
      ghost var merged := false;
      while newIndex >= 0
        invariant -1 <= newIndex < index
        invariant !merged ==> n <= newIndex + 1
        invariant merged ==> newIndex + 2 == n && Merges(packed, item)
        invariant forall k :: 0 <= k < n - 1 ==> row[k] == packed[k]
        invariant forall k :: 0 <= k < n ==> origin[k] == ids[k]
        invariant !merged && n > 0 ==> row[n - 1] == packed[n - 1]
        invariant merged ==> row[n - 1] == Increase(packed[n - 1])
        invariant !merged ==> row[newIndex + 1] == item && origin[newIndex + 1] == index
        invariant !merged ==> forall k :: n <= k <= index && k != newIndex + 1 ==> row[k] == Empty && origin[k] == -1
        invariant merged ==> forall k :: n <= k <= index ==> row[k] == Empty && origin[k] == -1
        invariant forall k :: index < k < row.Length ==> row[k] == old(row[k]) && origin[k] == old(origin[k])
        invariant moved == (newIndex + 1 < index || merged)
        invariant score == old(score) + (if merged then Increase(Last(packed)).value else 0)
      {
        if IsEmpty(row[newIndex]) {
          moved := true;
          row[newIndex] := item;
          row[newIndex + 1] := Empty;
          origin[newIndex] := origin[newIndex + 1];
          origin[newIndex + 1] := -1;
        } else if CanMerge(row[newIndex], row[newIndex + 1]) {
          moved := true;
          row[newIndex] := Increase(row[newIndex]);
          score := score + row[newIndex].value;
          row[newIndex + 1] := Empty;
          origin[newIndex + 1] := -1;
          merged := true;
        } else {
          break;
        }
        newIndex := newIndex - 1;
      }
      assert !merged ==> newIndex + 1 == n && !Merges(packed, item);
    }

    /**
     * The board part way through a loop over its lines along `d`: lines
     * before `index` as in `target`, the others as in `g0`.
     */
    ghost predicate Partly(g0: Grid, target: Grid, d: Direction, index: nat)
      reads this`cells, cells
    {
      && Shaped() && |g0| == size && |target| == size && IsSquare(g0) && IsSquare(target)
      && forall r, c {:trigger cells[r, c]} :: 0 <= r < size && 0 <= c < size ==>
        cells[r, c] == if LineOf(d, r, c) < index then target[r][c] else g0[r][c]
    }

    lemma PartlyDone(g0: Grid, target: Grid, d: Direction)
      requires Partly(g0, target, d, size)
      ensures Contents() == target
    {
      forall r, c | 0 <= r < size && 0 <= c < size
        ensures cells[r, c] == target[r][c]
      {
        assert LineOf(d, r, c) < size;
      }
      ContentsAre(target);
    }

    /** `crow` of `_move`: line `index` read along `d`'s axis, reversed for RIGHT and DOWN. */
    method ReadLine(d: Direction, index: nat, ghost g0: Grid, ghost target: Grid) returns (crow: array<Item>)
      requires index < size && Partly(g0, target, d, index)
      ensures fresh(crow) && crow[..] == Line(g0, d, index)
    {
      var a := cells;
      crow := new Item[size](j requires 0 <= j < a.Length0 && j < a.Length1 && index < a.Length0 && index < a.Length1 reads a =>
        a[RowAt(d, index, j), ColumnAt(d, index, j)]);
      forall j | 0 <= j < size
        ensures crow[j] == Raw(g0, d, index)[j]
      {
        assert LineOf(d, RowAt(d, index, j), ColumnAt(d, index, j)) == index;
      }
      assert crow[..] == Raw(g0, d, index);
      if d.IsReversed() {
        Reverse(crow);
      }
    }

    /** The write-back loop of `_move`: line `index` takes the values `target` gives it. */
    method StoreLine(d: Direction, index: nat, row: array<Item>, ghost g0: Grid, ghost target: Grid)
      requires index < size && Partly(g0, target, d, index) && row.Length == size
      requires forall j :: 0 <= j < size ==> row[j] == target[RowAt(d, index, j)][ColumnAt(d, index, j)]
      modifies cells
      ensures Partly(g0, target, d, index + 1)
    {
      var i := 0;
      while i < size
        invariant 0 <= i <= size
        invariant forall r, c {:trigger cells[r, c]} :: 0 <= r < size && 0 <= c < size ==>
          cells[r, c] == if LineOf(d, r, c) < index || (LineOf(d, r, c) == index && PosOf(d, r, c) < i) then target[r][c] else g0[r][c]
      {
        cells[RowAt(d, index, i), ColumnAt(d, index, i)] := row[i];
        i := i + 1;
      }
    }

    /** One turn of the loop of `_move`: line `index` is read, passed over and written back. */
    method MoveLine(d: Direction, index: nat, ghost g0: Grid) returns (moved: bool)
      requires IsSquare(g0) && |g0| == size && GridNormal(g0)
      requires index < size && Partly(g0, Slid(g0, d), d, index)
      modifies this`score, cells
      ensures Partly(g0, Slid(g0, d), d, index + 1)
      ensures moved == LineMoves(g0, d)[index]
      ensures score == old(score) + LineGains(g0, d)[index]
    {
      var crow := ReadLine(d, index, g0, Slid(g0, d));
      LineIsNormal(g0, d, index);
      var origin;
      moved, origin := MoveRow(crow);
      if d.IsReversed() {
        Reverse(crow);
      }
      assert crow[..] == Resolved(g0, d, index);
      forall j | 0 <= j < size
        ensures crow[j] == Slid(g0, d)[RowAt(d, index, j)][ColumnAt(d, index, j)]
      {
        assert LineOf(d, RowAt(d, index, j), ColumnAt(d, index, j)) == index;
        assert PosOf(d, RowAt(d, index, j), ColumnAt(d, index, j)) == j;
      }
      StoreLine(d, index, crow, g0, Slid(g0, d));
      LineFlags(g0, d, index);
    }

    /** The loop of `_move` over all lines, from a board that still reads `g0`. */
    method MoveLines(d: Direction, ghost g0: Grid) returns (modified: bool)
      requires IsSquare(g0) && |g0| == size && GridNormal(g0)
      requires Partly(g0, Slid(g0, d), d, 0)
      modifies this`score, cells
      ensures Partly(g0, Slid(g0, d), d, size)
      ensures modified == Changed(g0, d)
      ensures score == old(score) + MoveGain(g0, d)
    {
      modified := false;
      ghost var moves, gains := LineMoves(g0, d), LineGains(g0, d);
      var index := 0;
      while index < size
        invariant 0 <= index <= size
        invariant Partly(g0, Slid(g0, d), d, index)
        invariant modified == Any(moves, index)
        invariant score == old(score) + Total(gains, index)
      {
        var moved := MoveLine(d, index, g0);
        AccumulateLine(g0, d, index);
        modified := modified || moved;
        index := index + 1;
      }
    }

    /** Before the loop of `equal_in_row_or_clmn`, no line has been passed over yet. */
    lemma BumpedPartlyStart(d: Direction)
      requires Valid()
      ensures Partly(Contents(), Bumped(Contents(), d), d, 0)
    {
      ContentsOfValid();
    }

    /** Before the loop of `_move`, no line has been passed over yet. */
    lemma PartlyStart(d: Direction)
      requires Valid()
      ensures IsSquare(Contents()) && |Contents()| == size && GridNormal(Contents())
      ensures Partly(Contents(), Slid(Contents(), d), d, 0)
    {
      ContentsOfValid();
    }

    /**
     * `_move`: every line resolved in `d`'s orientation, a 2 spawned if
     * anything changed, markers cleared; the result is the change flag.
     */
    method Move(d: Direction, pick: nat) returns (modified: bool)
      requires Valid()
      modifies this`score, cells
      ensures Valid()
      ensures modified == Changed(old(Contents()), d)
      ensures score == old(score) + MoveGain(old(Contents()), d)
      ensures Contents() == MoveResult(old(Contents()), d, pick)
    {
      ghost var g0 := Contents();
      PartlyStart(d);
      modified := MoveLines(d, g0);
      PartlyDone(g0, Slid(g0, d), d);
      if modified {
        GenerateNewItem(pick);
      }
      ResetCells();
      ValidFromContents();
    }

    /** `_copy`: a new field over a fresh copy of the board (`copy.deepcopy`), with the same score. */
    method Copy() returns (copy: Field)
      requires Valid()
      ensures fresh(copy) && fresh(copy.cells)
      ensures copy.Valid() && copy.size == size && copy.Contents() == Contents() && copy.score == score
    {
      var a := cells;
      var values := new Item[size, size]((r, c) requires 0 <= r < a.Length0 && 0 <= c < a.Length1 reads a => a[r, c]);
      copy := new Field.WithValues(size, values, score);
      copy.ContentsAre(Contents());
    }

    /** `get_moved`: the move played on a copy; this field is left as it was. */
    method GetMoved(d: Direction, pick: nat) returns (moved: Field, result: bool)
      requires Valid()
      ensures fresh(moved) && fresh(moved.cells) && moved.Valid() && moved.size == size
      ensures moved.Contents() == MoveResult(Contents(), d, pick)
      ensures moved.score == score + MoveGain(Contents(), d)
      ensures result == Changed(Contents(), d)
    {
      moved := Copy();
      result := moved.Move(d, pick);
    }

    /**
     * The side effect of one line of `equal_in_row_or_clmn`: `crow` holds the
     * board's own Items, so the tile at each position `k` of the passed-over
     * `row` is written back to the cell it came from, `origin[k]` (-1 for a
     * fresh `Item()`), carrying the doubling a merge gave it. `ids` are the
     * origins and `target` the board every written cell and no other ends in.
     */
    method WriteBack(d: Direction, index: nat, row: array<Item>, origin: array<int>,
                     ghost g0: Grid, ghost target: Grid, ghost ids: seq<nat>)
      requires index < size && Partly(g0, target, d, index) && row.Length == size
      requires |ids| <= size && origin[..] == ids + NoOrigin(size - |ids|)
      requires forall k :: 0 <= k < |ids| ==> ids[k] < size && target[RowAt(d, index, ids[k])][ColumnAt(d, index, ids[k])] == row[k]
      requires forall j :: 0 <= j < size && j !in ids ==> target[RowAt(d, index, j)][ColumnAt(d, index, j)] == g0[RowAt(d, index, j)][ColumnAt(d, index, j)]
      modifies cells
      ensures Partly(g0, target, d, index + 1)
    {
      var k := 0;
      while k < size
        invariant 0 <= k <= size
        invariant forall r, c {:trigger cells[r, c]} :: 0 <= r < size && 0 <= c < size ==>
          cells[r, c] == if LineOf(d, r, c) < index || (LineOf(d, r, c) == index && PosOf(d, r, c) in ids[..if k < |ids| then k else |ids|])
            then target[r][c] else g0[r][c]
      {
        if origin[k] >= 0 {
          assert k < |ids| && origin[k] == ids[k];
          cells[RowAt(d, index, origin[k]), ColumnAt(d, index, origin[k])] := row[k];
          assert ids[..k + 1] == ids[..k] + [ids[k]];
        }
        k := k + 1;
      }
      assert ids[..|ids|] == ids;
      forall r, c | 0 <= r < size && 0 <= c < size
        ensures cells[r, c] == if LineOf(d, r, c) < index + 1 then target[r][c] else g0[r][c]
      {
        CellInItsLine(d, r, c);
      }
    }

    /** One turn of the loop of `equal_in_row_or_clmn`. */
    method BumpLine(d: Direction, index: nat, ghost g0: Grid) returns (moved: bool)
      requires !d.IsReversed() && IsSquare(g0) && |g0| == size && GridNormal(g0)
      requires index < size && Partly(g0, Bumped(g0, d), d, index)
      modifies this`score, cells
      ensures Partly(g0, Bumped(g0, d), d, index + 1)
      ensures moved == LineMoves(g0, d)[index]
      ensures score == old(score) + LineGains(g0, d)[index]
    {
      var crow := ReadLine(d, index, g0, Bumped(g0, d));
      LineIsNormal(g0, d, index);
      var origin;
      moved, origin := MoveRow(crow);
      BumpedLine(g0, d, index);
      WriteBack(d, index, crow, origin, g0, Bumped(g0, d), Origins(Raw(g0, d, index)));
      LineFlags(g0, d, index);
    }

    /** The loop of `equal_in_row_or_clmn` over all lines. */
    method BumpLines(d: Direction, ghost g0: Grid) returns (result: bool)
      requires !d.IsReversed() && IsSquare(g0) && |g0| == size && GridNormal(g0)
      requires Partly(g0, Bumped(g0, d), d, 0)
      modifies this`score, cells
      ensures Partly(g0, Bumped(g0, d), d, size)
      ensures result == Changed(g0, d)
      ensures score == old(score) + MoveGain(g0, d)
    {
      result := false;
      ghost var moves, gains := LineMoves(g0, d), LineGains(g0, d);
      var index := 0;
      while index < size
        invariant 0 <= index <= size
        invariant Partly(g0, Bumped(g0, d), d, index)
        invariant result == Any(moves, index)
        invariant score == old(score) + Total(gains, index)
      {
        var moved := BumpLine(d, index, g0);
        AccumulateLine(g0, d, index);
        result := result || moved;
        index := index + 1;
      }
    }

    /**
     * `equal_in_row_or_clmn`: whether a pass toward index 0 along the rows
     * (LEFT) or the columns (UP) would change some line. It is no pure
     * query: every merge doubles and marks a tile of the board itself and
     * adds to the score, and nothing is spawned or cleared.
     */
    method EqualInRowOrColumn(byRow: bool) returns (result: bool)
      requires Valid()
      modifies this`score, cells
      ensures Valid()
      ensures var d := if byRow then Left else Up;
        && result == Changed(old(Contents()), d)
        && score == old(score) + MoveGain(old(Contents()), d)
        && Contents() == Bumped(old(Contents()), d)
    {
      var d := if byRow then Left else Up;
      ghost var g0 := Contents();
      PartlyStart(d);
      BumpedPartlyStart(d);
      result := BumpLines(d, g0);
      PartlyDone(g0, Bumped(g0, d), d);
      BumpedKeepsNormal(g0, d);
      ValidFromContents();
    }

    /** `equal_in_row`: the lookahead along the rows. */
    method EqualInRow() returns (result: bool)
      requires Valid()
      modifies this`score, cells
      ensures Valid()
      ensures result == Changed(old(Contents()), Left)
      ensures score == old(score) + MoveGain(old(Contents()), Left)
      ensures Contents() == Bumped(old(Contents()), Left)
    {
      result := EqualInRowOrColumn(true);
    }

    /** `equal_in_column`: the lookahead along the columns. */
    method EqualInColumn() returns (result: bool)
      requires Valid()
      modifies this`score, cells
      ensures Valid()
      ensures result == Changed(old(Contents()), Up)
      ensures score == old(score) + MoveGain(old(Contents()), Up)
      ensures Contents() == Bumped(old(Contents()), Up)
    {
      result := EqualInRowOrColumn(false);
    }

    /**
     * The lookahead `equal_in_row_or_clmn` is meant to be: the same answer,
     * computed on a copy, so that neither the board nor the score changes.
     */
    method LookAhead(byRow: bool) returns (result: bool)
      requires Valid()
      ensures result == Changed(Contents(), if byRow then Left else Up)
    {
      var probe := Copy();
      result := probe.EqualInRowOrColumn(byRow);
    }

    /**
     * The lookahead as its callers read it: whether a pass toward index 0
     * along the rows (LEFT) or the columns (UP) would merge two tiles
     * somewhere. It runs on a copy and reads the answer off the copy's
     * score, which rises exactly when a merge happens.
     */
    method MergeAhead(byRow: bool) returns (result: bool)
      requires Valid()
      requires forall r, c :: 0 <= r < size && 0 <= c < size ==> cells[r, c].value >= 0
      ensures result == SomeLineMerges(Contents(), if byRow then Left else Up)
    {
      var d := if byRow then Left else Up;
      var probe := Copy();
      var changed := probe.EqualInRowOrColumn(byRow);
      result := probe.score > score;
      ContentsOfValid();
      MoveGainIsPositiveIffMerge(Contents(), d);
    }
  }
}
