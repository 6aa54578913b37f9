/**
 * What one pass of `Field._move_row` (game/models.py) does to a line of
 * tiles, as functions of the line.  The pass visits the tiles from index 0
 * upwards; each nonempty tile slides toward index 0 over empty cells and
 * then either merges into the tile it meets or stays next to it.  The
 * functions below follow the same order: `Pack(line)` is the packed prefix
 * once every tile of `line` has been visited, defined from the packed
 * prefix of `Init(line)` and the last tile.
 */
module RowPass {
  import opened Items

  function Init<T>(s: seq<T>): seq<T>
    requires |s| > 0
  {
    s[..|s| - 1]
  }

  function Last<T>(s: seq<T>): T
    requires |s| > 0
  {
    s[|s| - 1]
  }

  /** `n` fresh empty tiles. */
  function Empties(n: nat): seq<Item> {
    seq(n, _ => Empty)
  }

  function Values(s: seq<Item>): (r: seq<int>)
    ensures |r| == |s|
    ensures forall k :: 0 <= k < |s| ==> r[k] == s[k].value
  {
    seq(|s|, k requires 0 <= k < |s| => s[k].value)
  }

  predicate AllNormal(s: seq<Item>) {
    forall k :: 0 <= k < |s| ==> Normal(s[k])
  }

  /** No tile of `s` carries the merge marker. */
  predicate AllClear(s: seq<Item>) {
    forall k :: 0 <= k < |s| ==> !s[k].modified
  }

  ghost predicate AllWellValued(s: seq<Item>) {
    forall k :: 0 <= k < |s| ==> WellValued(s[k])
  }

  /** Nonempty tiles come first, empty ones after. */
  predicate Compacted(s: seq<Item>) {
    forall i, j :: 0 <= i < j < |s| && IsEmpty(s[i]) ==> IsEmpty(s[j])
  }

  /** Whether tile `t`, arriving right after the packed prefix, merges into its last tile. */
  predicate Merges(packed: seq<Item>, t: Item) {
    !IsEmpty(t) && |packed| > 0 && CanMerge(Last(packed), t)
  }

  /** The packed prefix after tile `t` has been visited. */
  function Settle(packed: seq<Item>, t: Item): seq<Item> {
    if IsEmpty(t) then packed
    else if Merges(packed, t) then Init(packed) + [Increase(Last(packed))]
    else packed + [t]
  }

  /** The nonempty tiles at the front of the line once every tile of `line` has been visited. */
  function Pack(line: seq<Item>): (r: seq<Item>)
    ensures |r| <= |line|
    decreases |line|
  {
    if line == [] then [] else Settle(Pack(Init(line)), Last(line))
  }

  /** The packed prefix holds no empty tile. */
  lemma {:induction false} PackHasNoEmpty(line: seq<Item>)
    ensures forall k :: 0 <= k < |Pack(line)| ==> !IsEmpty(Pack(line)[k])
    decreases |line|
  {
    if line != [] {
      PackHasNoEmpty(Init(line));
    }
  }

  /** The line `_move_row` returns. */
  function Slide(line: seq<Item>): (r: seq<Item>)
    ensures |r| == |line|
  {
    Pack(line) + Empties(|line| - |Pack(line)|)
  }

  /** The returned line keeps its length, its nonempty tiles form a prefix, and no empty tile is marked. */
  lemma SlideIsCompacted(line: seq<Item>)
    ensures |Slide(line)| == |line|
    ensures Compacted(Slide(line)) && AllNormal(Slide(line))
  {
    var p := Pack(line);
    PackHasNoEmpty(line);
    forall i, j | 0 <= i < j < |line| && IsEmpty(Slide(line)[i])
      ensures IsEmpty(Slide(line)[j])
    {
      assert i >= |p|;
    }
  }

  /** The `modified` flag of `_move_row`: some tile shifted or merged. */
  predicate Moved(line: seq<Item>)
    decreases |line|
  {
    if line == [] then false
    else
      var packed, t := Pack(Init(line)), Last(line);
      Moved(Init(line)) || (!IsEmpty(t) && (|packed| < |line| - 1 || Merges(packed, t)))
  }

  /** What the pass adds to the score: the value of every tile produced by a merge. */
  function Gain(line: seq<Item>): int
    decreases |line|
  {
    if line == [] then 0
    else
      var packed := Pack(Init(line));
      Gain(Init(line)) + (if Merges(packed, Last(line)) then Increase(Last(packed)).value else 0)
  }

  /**
   * For each tile of `Pack(line)`, the index in `line` of the Item it is:
   * a shift moves the Item itself, and a merge doubles the Item already in
   * place, so every packed tile is one Item of the input.
   */
  function Origins(line: seq<Item>): (r: seq<nat>)
    ensures |r| == |Pack(line)|
    ensures forall k :: 0 <= k < |r| ==> r[k] < |line|
    decreases |line|
  {
    if line == [] then []
    else if IsEmpty(Last(line)) || Merges(Pack(Init(line)), Last(line)) then Origins(Init(line))
    else Origins(Init(line)) + [|line| - 1]
  }

  /** The origins are increasing: packed tiles keep the order of the Items they came from. */
  lemma {:induction false} OriginsIncrease(line: seq<Item>)
    ensures forall k, m :: 0 <= k < m < |Origins(line)| ==> Origins(line)[k] < Origins(line)[m]
    decreases |line|
  {
    if line != [] {
      OriginsIncrease(Init(line));
    }
  }

  /**
   * The states of the Items of `line`, by their original index, after the
   * pass: an Item that a merge doubled is doubled and marked, every other
   * Item is as it was (a shift changes where an Item is, not the Item).
   */
  function Touched(line: seq<Item>): (r: seq<Item>)
    ensures |r| == |line|
    decreases |line|, 1
  {
    if line == [] then [] else Revisited(line) + [Last(line)]
  }

  /** The Items before the last one, once the last tile has been visited: doubled if it merged into one. */
  function Revisited(line: seq<Item>): (r: seq<Item>)
    requires line != []
    ensures |r| == |line| - 1
    decreases |line|, 0
  {
    var before, packed := Touched(Init(line)), Pack(Init(line));
    if Merges(packed, Last(line)) then
      var o := Origins(Init(line))[|packed| - 1];
      before[o := Increase(before[o])]
    else before
  }

  function Sum(s: seq<Item>): int
    decreases |s|
  {
    if s == [] then 0 else Sum(Init(s)) + Last(s).value
  }

  /** The total value of the marked tiles of `s`. */
  function MarkedSum(s: seq<Item>): int
    decreases |s|
  {
    if s == [] then 0 else MarkedSum(Init(s)) + (if Last(s).modified then Last(s).value else 0)
  }

  // ---------------------------------------------------------------------
  // Shape of the result

  lemma {:induction false} PackOfPrefixIsShorter(line: seq<Item>)
    requires |line| > 0
    ensures |Pack(Init(line))| <= |line| - 1
    ensures |Pack(line)| <= |Pack(Init(line))| + 1
  {
  }

  /** Every tile of the packed prefix is one Item of the input, doubled at most once. */
  lemma {:induction false} PackedTilesComeFromInput(line: seq<Item>, k: nat)
    requires k < |Pack(line)|
    ensures var o := Origins(line)[k];
      Pack(line)[k] == line[o] || (Pack(line)[k] == Increase(line[o]) && !line[o].modified && !IsEmpty(line[o]))
    decreases |line|
  {
    var packed, t := Pack(Init(line)), Last(line);
    var o := Origins(line)[k];
    if IsEmpty(t) {
      PackedTilesComeFromInput(Init(line), k);
    } else if Merges(packed, t) {
      PackedTilesComeFromInput(Init(line), k);
      if k == |packed| - 1 {
        // The tile merged into was not marked, so it had not been doubled before.
        assert Pack(line)[k] == Increase(packed[k]);
        assert !packed[k].modified;
      }
    } else if k < |packed| {
      PackedTilesComeFromInput(Init(line), k);
    }
  }

  /** An Item that is no packed tile (an empty one, or one merged away) is left as it was. */
  lemma {:induction false} TouchedKeepsOthers(line: seq<Item>)
    ensures forall j :: 0 <= j < |line| && j !in Origins(line) ==> Touched(line)[j] == line[j]
    decreases |line|
  {
    if line != [] {
      TouchedKeepsOthers(Init(line));
      forall j | 0 <= j < |line| && j !in Origins(line)
        ensures Touched(line)[j] == line[j]
      {
        KeptAt(line, j);
      }
    }
  }

  /** The last Item of the line is left as it was by its own visit. */
  lemma TouchedAtLast(line: seq<Item>)
    requires line != []
    ensures Touched(line)[|line| - 1] == line[|line| - 1]
  {
    AppendedAt(Revisited(line), Last(line), |line| - 1);
  }

  /** An earlier Item is changed by the last visit only if the last tile merges into it. */
  lemma TouchedAtEarlier(line: seq<Item>, j: nat)
    requires j < |line| - 1
    ensures var init := Init(line);
      Touched(line)[j] ==
        if Merges(Pack(init), Last(line)) && j == Origins(init)[|Pack(init)| - 1] then Increase(Touched(init)[j])
        else Touched(init)[j]
  {
    var init, t := Init(line), Last(line);
    var before := Touched(init);
    if Merges(Pack(init), t) {
      var o := Origins(init)[|Pack(init)| - 1];
      MergedAt(line, o);
      AppendedAt(before[o := Increase(before[o])], t, j);
    } else {
      UnmergedAt(line);
      AppendedAt(before, t, j);
    }
  }

  lemma MergedAt(line: seq<Item>, o: nat)
    requires line != [] && Merges(Pack(Init(line)), Last(line)) && o == Origins(Init(line))[|Pack(Init(line))| - 1]
    ensures Touched(line) == Touched(Init(line))[o := Increase(Touched(Init(line))[o])] + [Last(line)]
  {
  }

  lemma UnmergedAt(line: seq<Item>)
    requires line != [] && !Merges(Pack(Init(line)), Last(line))
    ensures Touched(line) == Touched(Init(line)) + [Last(line)]
  {
  }

  lemma AppendedAt(s: seq<Item>, t: Item, j: nat)
    requires j <= |s|
    ensures (s + [t])[j] == if j == |s| then t else s[j]
  {
  }

  /** One step of `TouchedKeepsOthers`, for the Item at index `j`. */
  lemma KeptAt(line: seq<Item>, j: nat)
    requires j < |line| && j !in Origins(line)
    requires forall k :: 0 <= k < |Init(line)| && k !in Origins(Init(line)) ==> Touched(Init(line))[k] == Init(line)[k]
    ensures Touched(line)[j] == line[j]
  {
    var init := Init(line);
    if j == |init| {
      TouchedAtLast(line);
    } else {
      TouchedAtEarlier(line, j);
      assert Origins(init) <= Origins(line);
      assert j !in Origins(init);
      assert init[j] == line[j];
    }
  }

  /** Each packed tile is the state, after the pass, of the Item it came from. */
  lemma {:induction false} TouchedAtOrigins(line: seq<Item>)
    ensures forall k :: 0 <= k < |Pack(line)| ==> Touched(line)[Origins(line)[k]] == Pack(line)[k]
    decreases |line|
  {
    if line != [] {
      TouchedAtOrigins(Init(line));
      forall k | 0 <= k < |Pack(line)|
        ensures Touched(line)[Origins(line)[k]] == Pack(line)[k]
      {
        OriginAt(line, k);
      }
    }
  }

  /** One step of `TouchedAtOrigins`, for packed tile `k`. */
  lemma OriginAt(line: seq<Item>, k: nat)
    requires line != [] && k < |Pack(line)|
    requires forall m :: 0 <= m < |Pack(Init(line))| ==> Touched(Init(line))[Origins(Init(line))[m]] == Pack(Init(line))[m]
    ensures Touched(line)[Origins(line)[k]] == Pack(line)[k]
  {
    var init, t := Init(line), Last(line);
    var packed := Pack(init);
    if IsEmpty(t) {
      OriginAtEmpty(line, k);
    } else if Merges(packed, t) {
      if k < |packed| - 1 {
        OriginAtMerge(line, k);
      } else {
        OriginAtMergeTarget(line);
      }
    } else if k < |packed| {
      OriginAtKeep(line, k);
    } else {
      OriginAtLast(line);
    }
  }

  lemma OriginAtEmpty(line: seq<Item>, k: nat)
    requires line != [] && IsEmpty(Last(line)) && k < |Pack(Init(line))|
    requires Touched(Init(line))[Origins(Init(line))[k]] == Pack(Init(line))[k]
    ensures k < |Pack(line)| && Touched(line)[Origins(line)[k]] == Pack(line)[k]
  {
    assert Pack(line) == Pack(Init(line)) && Origins(line) == Origins(Init(line));
    TouchedAtEarlier(line, Origins(Init(line))[k]);
  }

  lemma OriginAtMerge(line: seq<Item>, k: nat)
    requires line != [] && Merges(Pack(Init(line)), Last(line)) && k < |Pack(Init(line))| - 1
    requires Touched(Init(line))[Origins(Init(line))[k]] == Pack(Init(line))[k]
    ensures k < |Pack(line)| && Touched(line)[Origins(line)[k]] == Pack(line)[k]
  {
    var init := Init(line);
    var packed := Pack(init);
    assert Pack(line) == Init(packed) + [Increase(Last(packed))] && Origins(line) == Origins(init);
    OriginsIncrease(init);
    assert Origins(init)[k] < Origins(init)[|packed| - 1];
    TouchedAtEarlier(line, Origins(init)[k]);
  }

  lemma OriginAtMergeTarget(line: seq<Item>)
    requires line != [] && Merges(Pack(Init(line)), Last(line))
    requires var k := |Pack(Init(line))| - 1;
      Touched(Init(line))[Origins(Init(line))[k]] == Pack(Init(line))[k]
    ensures var k := |Pack(Init(line))| - 1;
      k < |Pack(line)| && Touched(line)[Origins(line)[k]] == Pack(line)[k]
  {
    var init := Init(line);
    var packed := Pack(init);
    var k := |packed| - 1;
    assert Pack(line) == Init(packed) + [Increase(Last(packed))] && Origins(line) == Origins(init);
    MergeTargetIsOpen(packed, Last(line));
    TouchedAtEarlier(line, Origins(init)[k]);
  }

  lemma OriginAtKeep(line: seq<Item>, k: nat)
    requires line != [] && !IsEmpty(Last(line)) && !Merges(Pack(Init(line)), Last(line)) && k < |Pack(Init(line))|
    requires Touched(Init(line))[Origins(Init(line))[k]] == Pack(Init(line))[k]
    ensures k < |Pack(line)| && Touched(line)[Origins(line)[k]] == Pack(line)[k]
  {
    var init := Init(line);
    assert Pack(line) == Pack(init) + [Last(line)] && Origins(line) == Origins(init) + [|line| - 1];
    TouchedAtEarlier(line, Origins(init)[k]);
  }

  lemma OriginAtLast(line: seq<Item>)
    requires line != [] && !IsEmpty(Last(line)) && !Merges(Pack(Init(line)), Last(line))
    ensures var k := |Pack(Init(line))|;
      k < |Pack(line)| && Touched(line)[Origins(line)[k]] == Pack(line)[k]
  {
    var init := Init(line);
    assert Pack(line) == Pack(init) + [Last(line)] && Origins(line) == Origins(init) + [|line| - 1];
    TouchedAtLast(line);
  }

  /** One more tile visited: how the packed prefix, origins, flag and score of the pass change. */
  lemma VisitStep(line: seq<Item>, i: nat)
    requires i < |line|
    ensures var prefix, t, next := line[..i], line[i], line[..i + 1];
      var packed := Pack(prefix);
      && Pack(next) == Settle(packed, t)
      && Origins(next) == (if IsEmpty(t) || Merges(packed, t) then Origins(prefix) else Origins(prefix) + [i])
      && Moved(next) == (Moved(prefix) || (!IsEmpty(t) && (|packed| < i || Merges(packed, t))))
      && Gain(next) == Gain(prefix) + (if Merges(packed, t) then Increase(Last(packed)).value else 0)
  {
    assert Init(line[..i + 1]) == line[..i] && Last(line[..i + 1]) == line[i];
  }

  // ---------------------------------------------------------------------
  // The modified flag

  /** An unmoved line is already packed: its packed prefix is its own front, followed by empty tiles. */
  lemma {:induction false} UnmovedLineIsPacked(line: seq<Item>)
    requires !Moved(line)
    ensures Pack(line) == line[..|Pack(line)|]
    ensures forall k :: |Pack(line)| <= k < |line| ==> IsEmpty(line[k])
    decreases |line|
  {
    if line != [] {
      var init, t := Init(line), Last(line);
      UnmovedLineIsPacked(init);
      var packed := Pack(init);
      if IsEmpty(t) {
        assert Pack(line) == packed;
        assert line[..|packed|] == init[..|packed|];
      } else {
        assert |packed| == |init|;
        assert packed == init;
        assert Pack(line) == init + [t];
      }
    }
  }

  /** A line the pass does not move comes back exactly as it was. */
  lemma UnmovedLineIsFixed(line: seq<Item>)
    requires AllNormal(line)
    requires !Moved(line)
    ensures Slide(line) == line
  {
    UnmovedLineIsPacked(line);
    var p := Pack(line);
    forall k | 0 <= k < |line|
      ensures Slide(line)[k] == line[k]
    {
      if k >= |p| {
        assert Normal(line[k]);
      }
    }
  }

  /** A line the pass moves comes back with different values. */
  lemma {:induction false} MovedLineChanges(line: seq<Item>)
    requires Moved(line)
    ensures Values(Slide(line)) != Values(line)
    decreases |line|
  {
    var init, t := Init(line), Last(line);
    var packed := Pack(init);
    PackOfPrefixIsShorter(line);
    if Values(Slide(line)) == Values(line) {
      if IsEmpty(t) {
        assert Pack(line) == packed;
        assert Slide(line) == Slide(init) + [Empty];
        assert Values(Slide(init)) == Values(init) by {
          forall k | 0 <= k < |init|
            ensures Values(Slide(init))[k] == Values(init)[k]
          {
            assert Slide(init)[k] == Slide(line)[k];
          }
        }
        MovedLineChanges(init);
      } else {
        // The last value is nonzero, so the packed prefix fills the whole line.
        assert Slide(line)[|line| - 1].value != 0;
        assert |Pack(line)| == |line|;
        assert !Merges(packed, t) && |packed| == |init|;
        assert Pack(line) == packed + [t];
        assert Slide(init) == packed;
        assert Values(Slide(init)) == Values(init) by {
          forall k | 0 <= k < |init|
            ensures Values(Slide(init))[k] == Values(init)[k]
          {
            assert Slide(init)[k] == Slide(line)[k];
          }
        }
        MovedLineChanges(init);
      }
    }
  }

  /** `modified` is true exactly when the values of the line change. */
  lemma MovedIffChanged(line: seq<Item>)
    requires AllNormal(line)
    ensures Moved(line) <==> Values(Slide(line)) != Values(line)
  {
    if Moved(line) {
      MovedLineChanges(line);
    } else {
      UnmovedLineIsFixed(line);
    }
  }

  /** After a shift or a merge the line has an empty cell at its far end. */
  lemma {:induction false} MovedLeavesRoom(line: seq<Item>)
    requires Moved(line)
    ensures |Pack(line)| < |line|
    ensures IsEmpty(Slide(line)[|line| - 1])
    decreases |line|
  {
    var init := Init(line);
    PackOfPrefixIsShorter(line);
    if Moved(init) {
      MovedLeavesRoom(init);
    }
  }

  /** A full line with no two neighbours of equal value does not move. */
  lemma {:induction false} DistinctNeighboursDoNotMove(line: seq<Item>)
    requires forall k :: 0 <= k < |line| ==> !IsEmpty(line[k])
    requires forall k :: 0 < k < |line| ==> line[k - 1].value != line[k].value
    ensures !Moved(line) && Pack(line) == line
    decreases |line|
  {
    if line != [] {
      var init := line[..|line| - 1];
      assert forall k :: 0 <= k < |init| ==> init[k] == line[k];
      DistinctNeighboursDoNotMove(init);
      DistinctStep(init, line[|line| - 1]);
      assert init + [line[|line| - 1]] == line;
    }
  }

  /** A tile unlike the last one, after a line that stayed as it was, stays where it is. */
  lemma DistinctStep(init: seq<Item>, t: Item)
    requires !Moved(init) && Pack(init) == init && !IsEmpty(t)
    requires |init| > 0 ==> init[|init| - 1].value != t.value
    ensures !Moved(init + [t]) && Pack(init + [t]) == init + [t]
  {
    var line := init + [t];
    assert Init(line) == init && Last(line) == t;
  }

  /** An empty cell ahead of a tile: the tile slides, so the line moves. */
  lemma {:induction false} GapBeforeTileMoves(line: seq<Item>, i: nat, j: nat)
    requires i < j < |line| && IsEmpty(line[i]) && !IsEmpty(line[j])
    ensures Moved(line)
    decreases |line|
  {
    var init := Init(line);
    if j < |line| - 1 {
      GapBeforeTileMoves(init, i, j);
    } else if !Moved(init) {
      UnmovedLineIsPacked(init);
      PackHasNoEmpty(init);
      assert |Pack(init)| < |line| - 1;
    }
  }

  /** Two equal unmarked neighbours, the first a tile: the second merges into it, or moves, so the line moves. */
  lemma {:induction false} TwinNeighboursMove(line: seq<Item>, i: nat)
    requires i + 1 < |line| && !IsEmpty(line[i])
    requires line[i].value == line[i + 1].value && !line[i].modified && !line[i + 1].modified
    ensures Moved(line)
    decreases |line|
  {
    var init := Init(line);
    if i + 1 < |line| - 1 {
      TwinNeighboursMove(init, i);
    } else if !Moved(init) {
      UnmovedLineIsPacked(init);
      var packed := Pack(init);
      assert packed == init;
      assert Merges(packed, Last(line));
    }
  }

  // ---------------------------------------------------------------------
  // Values and score

  lemma {:induction false} SumOfEmptyTail(s: seq<Item>, n: nat)
    ensures Sum(s + Empties(n)) == Sum(s)
    decreases n
  {
    if n > 0 {
      var u := s + Empties(n);
      assert Init(u) == s + Empties(n - 1);
      assert Last(u) == Empty;
      SumOfEmptyTail(s, n - 1);
      assert Sum(u) == Sum(Init(u)) + Last(u).value;
    } else {
      assert s + Empties(n) == s;
    }
  }

  /** The pass keeps the sum of the line's values: a merge turns v and v into 2v and 0. */
  lemma {:induction false} SlideKeepsSum(line: seq<Item>)
    ensures Sum(Slide(line)) == Sum(line)
  {
    PackKeepsSum(line);
    SumOfEmptyTail(Pack(line), |line| - |Pack(line)|);
  }

  lemma {:induction false} PackKeepsSum(line: seq<Item>)
    ensures Sum(Pack(line)) == Sum(line)
    decreases |line|
  {
    if line != [] {
      var init, t := Init(line), Last(line);
      var packed := Pack(init);
      PackKeepsSum(init);
      if !IsEmpty(t) {
        if Merges(packed, t) {
          assert Init(Pack(line)) == Init(packed);
          assert Sum(packed) == Sum(Init(packed)) + Last(packed).value;
        } else {
          assert Init(Pack(line)) == packed;
        }
      }
    }
  }

  /**
   * With no marker set on entry, the score rises by exactly the total of
   * the tiles the merges produced, which are the marked tiles afterwards.
   */
  lemma {:induction false} GainIsMergedTotal(line: seq<Item>)
    requires AllClear(line)
    ensures Gain(line) == MarkedSum(Pack(line))
    decreases |line|
  {
    if line != [] {
      var init, t := Init(line), Last(line);
      var packed := Pack(init);
      assert AllClear(init) by {
        forall k | 0 <= k < |init| ensures !init[k].modified {
          assert init[k] == line[k];
        }
      }
      GainIsMergedTotal(init);
      var p := Pack(line);
      if IsEmpty(t) {
        assert p == packed;
      } else if Merges(packed, t) {
        var v := Last(packed).value;
        assert Gain(line) == Gain(init) + 2 * v;
        assert p == Init(packed) + [Increase(Last(packed))];
        assert Init(p) == Init(packed) && Last(p) == Increase(Last(packed));
        assert MarkedSum(p) == MarkedSum(Init(packed)) + 2 * v;
        assert MarkedSum(packed) == MarkedSum(Init(packed));
      } else {
        assert Gain(line) == Gain(init);
        assert p == packed + [t];
        assert Init(p) == packed && Last(p) == t;
        assert MarkedSum(p) == MarkedSum(packed);
      }
    }
  }

  /** The empty tail of the returned line holds no marked tile. */
  lemma SlideMarkedSum(line: seq<Item>)
    ensures MarkedSum(Slide(line)) == MarkedSum(Pack(line))
  {
    MarkedSumOfEmptyTail(Pack(line), |line| - |Pack(line)|);
  }

  lemma {:induction false} MarkedSumOfEmptyTail(s: seq<Item>, n: nat)
    ensures MarkedSum(s + Empties(n)) == MarkedSum(s)
    decreases n
  {
    if n > 0 {
      var u := s + Empties(n);
      assert Init(u) == s + Empties(n - 1);
      assert Last(u) == Empty;
      MarkedSumOfEmptyTail(s, n - 1);
      assert MarkedSum(u) == MarkedSum(Init(u));
    } else {
      assert s + Empties(n) == s;
    }
  }

  /** With no negative value the score never decreases. */
  lemma {:induction false} GainIsNonNegative(line: seq<Item>)
    requires forall k :: 0 <= k < |line| ==> line[k].value >= 0
    ensures Gain(line) >= 0
    ensures forall k :: 0 <= k < |Pack(line)| ==> Pack(line)[k].value > 0
    decreases |line|
  {
    if line != [] {
      GainIsNonNegative(Init(line));
    }
  }

  /** Whether the pass merges anywhere: the `can_merge` branch is taken for some tile. */
  predicate AnyMerge(line: seq<Item>)
    decreases |line|
  {
    line != [] && (AnyMerge(Init(line)) || Merges(Pack(Init(line)), Last(line)))
  }

  /** With no negative value, the pass earns something exactly when it merges. */
  lemma {:induction false} GainIsPositiveIffMerge(line: seq<Item>)
    requires forall k :: 0 <= k < |line| ==> line[k].value >= 0
    ensures Gain(line) > 0 <==> AnyMerge(line)
    decreases |line|
  {
    if line != [] {
      GainIsPositiveIffMerge(Init(line));
      GainIsNonNegative(Init(line));
    }
  }

  /** Values stay powers of two at least 2: they are only doubled. */
  lemma {:induction false} SlideKeepsPowersOfTwo(line: seq<Item>)
    requires AllWellValued(line)
    ensures AllWellValued(Pack(line))
    ensures AllWellValued(Slide(line))
    decreases |line|
  {
    if line != [] {
      var init, t := Init(line), Last(line);
      var packed := Pack(init);
      assert AllWellValued(init);
      SlideKeepsPowersOfTwo(init);
      if Merges(packed, t) {
        IncreaseSpendsTile(Last(packed), t);
      }
    }
    assert AllWellValued(Empties(|line| - |Pack(line)|));
  }

  // ---------------------------------------------------------------------
  // The side effect on the Items themselves

  /** An unmoved line leaves every Item as it was. */
  lemma {:induction false} UnmovedLineIsUntouched(line: seq<Item>)
    requires !Moved(line)
    ensures Touched(line) == line
    decreases |line|
  {
    if line != [] {
      UnmovedLineIsUntouched(Init(line));
    }
  }

  /** Each Item is left as it was or, if it is a tile, doubled once. */
  lemma {:induction false} TouchedDoublesAtMostOnce(line: seq<Item>)
    ensures forall j :: 0 <= j < |line| ==>
      Touched(line)[j] == line[j] || (!IsEmpty(line[j]) && Touched(line)[j] == Increase(line[j]))
    decreases |line|
  {
    if line != [] {
      TouchedDoublesAtMostOnce(Init(line));
      forall j | 0 <= j < |line|
        ensures Touched(line)[j] == line[j] || (!IsEmpty(line[j]) && Touched(line)[j] == Increase(line[j]))
      {
        if j == |line| - 1 {
          TouchedAtLast(line);
        } else {
          DoubledAtMostOnceAt(line, j);
        }
      }
    }
  }

  /** One step of `TouchedDoublesAtMostOnce`, for an Item before the last one. */
  lemma DoubledAtMostOnceAt(line: seq<Item>, j: nat)
    requires j < |line| - 1
    requires Touched(Init(line))[j] == Init(line)[j] || (!IsEmpty(Init(line)[j]) && Touched(Init(line))[j] == Increase(Init(line)[j]))
    ensures Touched(line)[j] == line[j] || (!IsEmpty(line[j]) && Touched(line)[j] == Increase(line[j]))
  {
    var init, t := Init(line), Last(line);
    TouchedAtEarlier(line, j);
    assert init[j] == line[j];
    if Merges(Pack(init), t) && j == Origins(init)[|Pack(init)| - 1] {
      MergeTargetIsUntouched(init, t);
    }
  }

  /** The Item a merge doubles has not been doubled before in the pass. */
  lemma MergeTargetIsUntouched(init: seq<Item>, t: Item)
    requires Merges(Pack(init), t)
    ensures var o := Origins(init)[|Pack(init)| - 1];
      Touched(init)[o] == init[o] == Last(Pack(init))
  {
    MergeTargetIsOpen(Pack(init), t);
    UnmarkedTileIsUntouched(init, |Pack(init)| - 1);
  }

  /** The last packed tile, if not marked, is its origin Item, still as it was. */
  lemma UnmarkedTileIsUntouched(line: seq<Item>, k: nat)
    requires k == |Pack(line)| - 1 && !Pack(line)[k].modified
    ensures var o := Origins(line)[k];
      Touched(line)[o] == line[o] == Pack(line)[k]
  {
    UnmarkedTileIsItsOrigin(line, k);
    TouchedAtOrigin(line, k);
  }

  lemma MergeTargetIsOpen(packed: seq<Item>, t: Item)
    requires Merges(packed, t)
    ensures !packed[|packed| - 1].modified && Last(packed) == packed[|packed| - 1]
  {
  }

  /** A packed tile without the marker was not doubled: it is its origin Item as it was. */
  lemma UnmarkedTileIsItsOrigin(line: seq<Item>, k: nat)
    requires k < |Pack(line)| && !Pack(line)[k].modified
    ensures line[Origins(line)[k]] == Pack(line)[k]
  {
    PackedTilesComeFromInput(line, k);
  }

  lemma TouchedAtOrigin(line: seq<Item>, k: nat)
    requires k < |Pack(line)|
    ensures Touched(line)[Origins(line)[k]] == Pack(line)[k]
  {
    TouchedAtOrigins(line);
  }

  /** The doublings raise the line's total by half of what they add to the score. */
  lemma {:induction false} TouchedSum(line: seq<Item>)
    ensures 2 * Sum(Touched(line)) == 2 * Sum(line) + Gain(line)
    decreases |line|
  {
    if line != [] {
      var init, t := Init(line), Last(line);
      var packed, before := Pack(init), Touched(init);
      TouchedSum(init);
      var u := Touched(line);
      if Merges(packed, t) {
        var o := Origins(init)[|packed| - 1];
        MergeTargetIsUntouched(init, t);
        var after := before[o := Increase(before[o])];
        SumOfUpdate(before, o, Increase(before[o]));
        MergedAt(line, o);
        assert u == after + [t];
        assert Init(u) == after && Last(u) == t;
        assert Gain(line) == Gain(init) + 2 * Last(packed).value;
      } else {
        UnmergedAt(line);
        assert Init(u) == before && Last(u) == t;
      }
    }
  }

  lemma {:induction false} SumOfUpdate(s: seq<Item>, i: nat, t: Item)
    requires i < |s|
    ensures Sum(s[i := t]) == Sum(s) - s[i].value + t.value
    decreases |s|
  {
    if i < |s| - 1 {
      assert Init(s[i := t]) == Init(s)[i := t];
      SumOfUpdate(Init(s), i, t);
    } else {
      assert Init(s[i := t]) == Init(s);
    }
  }

  // ---------------------------------------------------------------------
  // An independent description: the classic pairwise merge

  function NonZero(vs: seq<int>): (r: seq<int>)
    ensures forall k :: 0 <= k < |r| ==> r[k] != 0
    decreases |vs|
  {
    if vs == [] then []
    else if vs[0] == 0 then NonZero(vs[1..])
    else [vs[0]] + NonZero(vs[1..])
  }

  /** Scan from the front and merge each pair of equal neighbours into one doubled value. */
  function PairUp(vs: seq<int>): seq<int>
    decreases |vs|
  {
    if |vs| < 2 then vs
    else if vs[0] == vs[1] then [2 * vs[0]] + PairUp(vs[2..])
    else [vs[0]] + PairUp(vs[1..])
  }

  /** The visit of `line`'s tiles, front to back, starting from the packed prefix `acc`. */
  function PackOnto(acc: seq<Item>, line: seq<Item>): seq<Item>
    decreases |line|
  {
    if line == [] then acc else PackOnto(Settle(acc, line[0]), line[1..])
  }

  lemma {:induction false} PackOntoSnoc(acc: seq<Item>, line: seq<Item>, t: Item)
    ensures PackOnto(acc, line + [t]) == Settle(PackOnto(acc, line), t)
    decreases |line|
  {
    if line == [] {
      assert PackOnto(acc, [t]) == PackOnto(Settle(acc, t), []);
    } else {
      assert (line + [t])[1..] == line[1..] + [t];
      PackOntoSnoc(Settle(acc, line[0]), line[1..], t);
    }
  }

  lemma {:induction false} PackIsPackOnto(line: seq<Item>)
    ensures Pack(line) == PackOnto([], line)
    decreases |line|
  {
    if line != [] {
      PackIsPackOnto(Init(line));
      PackOntoSnoc([], Init(line), Last(line));
      assert Init(line) + [Last(line)] == line;
    }
  }

  lemma ValuesOfAppend(a: seq<Item>, b: seq<Item>)
    ensures Values(a + b) == Values(a) + Values(b)
  {
  }

  /**
   * The values `PackOnto(acc, ...)` ends with when the rest of the line has
   * nonzero values `rest`: a last packed tile without the marker may still
   * absorb the first of them.
   */
  function PairedFrom(acc: seq<Item>, rest: seq<int>): seq<int> {
    if |acc| > 0 && !Last(acc).modified
    then Values(Init(acc)) + PairUp([Last(acc).value] + rest)
    else Values(acc) + PairUp(rest)
  }

  lemma {:induction false} PackOntoPairsUp(acc: seq<Item>, line: seq<Item>)
    requires AllClear(line)
    ensures Values(PackOnto(acc, line)) == PairedFrom(acc, NonZero(Values(line)))
    decreases |line|
  {
    if line == [] {
      assert NonZero(Values(line)) == [];
      if |acc| > 0 {
        assert acc == Init(acc) + [Last(acc)];
        ValuesOfAppend(Init(acc), [Last(acc)]);
      }
    } else {
      var t, tail := line[0], line[1..];
      FirstTileAndTail(acc, line);
      PackOntoPairsUp(Settle(acc, t), tail);
      SettleStep(acc, t, NonZero(Values(tail)));
    }
  }

  /** The first tile of a clear line, and the rest of it. */
  lemma FirstTileAndTail(acc: seq<Item>, line: seq<Item>)
    requires AllClear(line) && line != []
    ensures !line[0].modified && AllClear(line[1..])
    ensures NonZero(Values(line)) == if IsEmpty(line[0]) then NonZero(Values(line[1..])) else [line[0].value] + NonZero(Values(line[1..]))
    ensures PackOnto(acc, line) == PackOnto(Settle(acc, line[0]), line[1..])
  {
    var tail := line[1..];
    assert forall k :: 0 <= k < |tail| ==> tail[k] == line[k + 1];
    assert Values(tail) == Values(line)[1..];
  }

  /** Visiting one unmarked tile moves its value from the rest of the line into the packed prefix. */
  lemma SettleStep(acc: seq<Item>, t: Item, rest: seq<int>)
    requires !t.modified
    ensures PairedFrom(Settle(acc, t), rest) == PairedFrom(acc, if IsEmpty(t) then rest else [t.value] + rest)
  {
    if !IsEmpty(t) {
      var next := Settle(acc, t);
      if |acc| > 0 && !Last(acc).modified {
        if Last(acc).value == t.value {
          OpenMergeStep(acc, t, rest);
        } else {
          OpenKeepStep(acc, t, rest);
        }
      } else {
        assert next == acc + [t];
        assert Init(next) == acc && Last(next) == t;
      }
    }
  }

  lemma OpenMergeStep(acc: seq<Item>, t: Item, rest: seq<int>)
    requires |acc| > 0 && !Last(acc).modified && !t.modified && !IsEmpty(t) && Last(acc).value == t.value
    ensures var next := Settle(acc, t);
      |next| > 0 && Last(next).modified
      && Values(next) + PairUp(rest) == Values(Init(acc)) + PairUp([Last(acc).value] + ([t.value] + rest))
  {
    var v := Last(acc).value;
    var next := Settle(acc, t);
    assert next == Init(acc) + [Increase(Last(acc))];
    ValuesOfAppend(Init(acc), [Increase(Last(acc))]);
    var vs := [v] + ([t.value] + rest);
    assert vs[0] == vs[1] && vs[2..] == rest;
    assert PairUp(vs) == [2 * v] + PairUp(rest);
  }

  lemma OpenKeepStep(acc: seq<Item>, t: Item, rest: seq<int>)
    requires |acc| > 0 && !Last(acc).modified && !t.modified && !IsEmpty(t) && Last(acc).value != t.value
    ensures var next := Settle(acc, t);
      |next| > 0 && !Last(next).modified
      && Values(Init(next)) + PairUp([Last(next).value] + rest) == Values(Init(acc)) + PairUp([Last(acc).value] + ([t.value] + rest))
  {
    var v := Last(acc).value;
    var next := Settle(acc, t);
    assert next == acc + [t];
    assert Init(next) == acc && Last(next) == t;
    assert acc == Init(acc) + [Last(acc)];
    ValuesOfAppend(Init(acc), [Last(acc)]);
    var vs := [v] + ([t.value] + rest);
    assert vs[0] != vs[1] && vs[1..] == [t.value] + rest;
    assert PairUp(vs) == [v] + PairUp([t.value] + rest);
  }

  /**
   * With no marker set on entry, the packed values are the nonzero values of
   * the line with each pair of equal neighbours, from the front, merged once.
   */
  lemma PackIsPairwiseMerge(line: seq<Item>)
    requires AllClear(line)
    ensures Values(Pack(line)) == PairUp(NonZero(Values(line)))
  {
    PackIsPackOnto(line);
    PackOntoPairsUp([], line);
  }

  // ---------------------------------------------------------------------
  // Worked examples

  /** Two equal unmarked tiles merge into one marked tile of twice the value, scoring it. */
  lemma PairMerges(t: Item)
    requires !IsEmpty(t) && !t.modified
    ensures Pack([t, t]) == [Increase(t)] && Gain([t, t]) == Increase(t).value && Moved([t, t])
  {
    assert Init([t, t]) == [t] && Init([t]) == [];
    assert Pack([t]) == [t] && Gain([t]) == 0;
  }

  /** In a merging pair, the first Item is doubled in place and the second is left behind as it was. */
  lemma PairTouched(t: Item)
    requires !IsEmpty(t) && !t.modified
    ensures Touched([t, t]) == [Increase(t), t]
  {
    assert Init([t, t]) == [t] && Last([t, t]) == t && Init([t]) == [];
    assert Pack([t]) == [t] && Origins([t]) == [0] && Touched([t]) == [t];
  }

  /** A gap before a tile: the tile slides to the front, the line moves, and nothing is earned. */
  lemma GapPairSlides(t: Item)
    requires !IsEmpty(t)
    ensures Pack([Empty, t]) == [t] && Gain([Empty, t]) == 0 && Moved([Empty, t])
  {
    var one := [Empty];
    assert Init(one) == [] && Last(one) == Empty;
    assert Pack(one) == [] && Gain(one) == 0;
    assert Init([Empty, t]) == one && Last([Empty, t]) == t;
  }

  /** Two empty cells: nothing packs, moves or scores, and no Item changes. */
  lemma EmptyPairIsIdle()
    ensures var line := [Empty, Empty];
      Pack(line) == [] && !Moved(line) && Gain(line) == 0 && Touched(line) == line
  {
    var one, line := [Empty], [Empty, Empty];
    assert Init(one) == [] && Last(one) == Empty;
    UnmergedAt(one);
    assert Pack(one) == [] && !Moved(one) && Gain(one) == 0 && Touched(one) == one;
    assert Init(line) == one && Last(line) == Empty;
    UnmergedAt(line);
  }

  /** A pair that merged, followed by `u` and an empty cell: `u` stays next to the doubled tile. */
  lemma MergedPairThen(t: Item, u: Item)
    requires !IsEmpty(t) && !t.modified && !IsEmpty(u)
    ensures var line := [t, t, u, Empty];
      Pack(line) == [Increase(t), u] && Gain(line) == Increase(t).value && Moved(line)
  {
    PairMerges(t);
    var l3 := [t, t, u];
    assert Init(l3) == [t, t];
    assert Pack(l3) == [Increase(t), u] && Gain(l3) == Increase(t).value;
    assert Init([t, t, u, Empty]) == l3;
  }

  /** [2,2,2,0] gives [4,2,0,0] and 4 points: the doubled tile does not merge again. */
  lemma ThreeEqualTiles()
    ensures var line := [Item(2, false), Item(2, false), Item(2, false), Empty];
      Values(Slide(line)) == [4, 2, 0, 0] && Gain(line) == 4 && Moved(line)
  {
    var two := Item(2, false);
    MergedPairThen(two, two);
    assert Slide([two, two, two, Empty]) == [Item(4, true), two, Empty, Empty];
  }

  /** [2,2,4,0] gives [4,4,0,0] and 4 points: the doubled tile does not absorb the 4. */
  lemma DoubledTileKeepsItsNeighbour()
    ensures var line := [Item(2, false), Item(2, false), Item(4, false), Empty];
      Values(Slide(line)) == [4, 4, 0, 0] && Gain(line) == 4 && Moved(line)
  {
    var two, four := Item(2, false), Item(4, false);
    MergedPairThen(two, four);
    assert Slide([two, two, four, Empty]) == [Item(4, true), four, Empty, Empty];
  }

  /** [2,4,8,16] comes back unchanged, unmoved, with no points. */
  lemma PackedDistinctRow()
    ensures var line := [Item(2, false), Item(4, false), Item(8, false), Item(16, false)];
      Slide(line) == line && !Moved(line) && Gain(line) == 0
  {
    var line := [Item(2, false), Item(4, false), Item(8, false), Item(16, false)];
    DistinctNeighboursDoNotMove(line);
    UnmovedLineIsFixed(line);
    NoMergeNoGain(line);
  }

  /** Without a merge nothing is scored. */
  lemma {:induction false} NoMergeNoGain(line: seq<Item>)
    requires !Moved(line)
    ensures Gain(line) == 0
    decreases |line|
  {
    if line != [] {
      NoMergeNoGain(Init(line));
    }
  }
}
